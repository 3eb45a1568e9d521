/** Partition, sort, "hot picks" and the export columns
    (pick3_analyzer_app.py.py lines 74-76 and 94-97). */
module Results {
  import opened StringOrder

  const WithKeyHeader: string := "With Key Digit"
  const WithoutKeyHeader: string := "Without Key Digit"

  /** `sorted([c for c in combo_set if key_digit in c]) if show_with_key else []`:
      when shown, the combinations holding the key digit, each once, in
      ascending order; when hidden, nothing. */
  function WithKey(combos: set<string>, key: char, show: bool): (r: seq<string>)
    ensures !show ==> r == []
    ensures show ==> forall c :: c in r <==> c in combos && key in c
    ensures StrictlyAscending(r)
  {
    if show then SortedList(set c | c in combos && key in c) else []
  }

  /** `sorted([c for c in combo_set if key_digit not in c]) if show_without_key else []`. */
  function WithoutKey(combos: set<string>, key: char, show: bool): (r: seq<string>)
    ensures !show ==> r == []
    ensures show ==> forall c :: c in r <==> c in combos && key !in c
    ensures StrictlyAscending(r)
  {
    if show then SortedList(set c | c in combos && key !in c) else []
  }

  /** With both lists shown, they split the combinations: every combination is
      in exactly one of them, and their lengths add up to the set's size. */
  lemma Partition(combos: set<string>, key: char)
    ensures var w, o := WithKey(combos, key, true), WithoutKey(combos, key, true);
            && (forall c :: c in combos <==> c in w || c in o)
            && (forall c :: !(c in w && c in o))
            && |w| + |o| == |combos|
  {
    var ws := set c | c in combos && key in c;
    var os := set c | c in combos && key !in c;
    assert ws + os == combos;
    assert ws * os == {};
  }

  /** `with_key[:5] if show_with_key else []`. */
  function HotPicks(withKey: seq<string>, show: bool): (r: seq<string>)
    ensures !show ==> r == []
    ensures show ==> |r| == if |withKey| < 5 then |withKey| else 5
    ensures show ==> r == withKey[..|r|]
  {
    if show then withKey[..if |withKey| < 5 then |withKey| else 5] else []
  }

  /** The hot picks are the smallest combinations holding the key digit:
      every other such combination is above each of them. */
  lemma HotPicksAreSmallest(combos: set<string>, key: char)
    ensures var w := WithKey(combos, key, true);
            var h := HotPicks(w, true);
            forall x, c :: x in h && c in combos && key in c && c !in h ==> Below(x, c)
  {
    var w := WithKey(combos, key, true);
    var h := HotPicks(w, true);
    forall x, c | x in h && c in combos && key in c && c !in h
      ensures Below(x, c)
    {
      var i :| 0 <= i < |h| && h[i] == x;
      var j :| 0 <= j < |w| && w[j] == c;
    }
  }

  /** The two export columns under their headers. */
  datatype Export = Export(withHeader: string, withColumn: seq<string>,
                           withoutHeader: string, withoutColumn: seq<string>)

  function PadColumn(col: seq<string>, n: nat): seq<string>
    requires |col| <= n
  {
    col + seq(n - |col|, _ => "")
  }

  /** The `DataFrame` columns: each header is blank when its list is hidden;
      both columns are as long as the longer list, each list is the start of
      its column, and the rest of the column is blank. */
  function ExportColumns(withKey: seq<string>, withoutKey: seq<string>,
                         showWith: bool, showWithout: bool): (e: Export)
    ensures e.withHeader == (if showWith then WithKeyHeader else "")
    ensures e.withoutHeader == (if showWithout then WithoutKeyHeader else "")
    ensures |e.withColumn| == |e.withoutColumn| == if |withKey| < |withoutKey| then |withoutKey| else |withKey|
    ensures e.withColumn[..|withKey|] == withKey && e.withoutColumn[..|withoutKey|] == withoutKey
    ensures forall k :: |withKey| <= k < |e.withColumn| ==> e.withColumn[k] == ""
    ensures forall k :: |withoutKey| <= k < |e.withoutColumn| ==> e.withoutColumn[k] == ""
  {
    var n := if |withKey| < |withoutKey| then |withoutKey| else |withKey|;
    Export(if showWith then WithKeyHeader else "", PadColumn(withKey, n),
           if showWithout then WithoutKeyHeader else "", PadColumn(withoutKey, n))
  }

  /** A column with its blank cells dropped. */
  function DropBlanks(col: seq<string>): seq<string> {
    if col == [] then []
    else DropBlanks(col[..|col| - 1]) + (if col[|col| - 1] == "" then [] else [col[|col| - 1]])
  }

  lemma {:induction false} DropBlanksKeeps(col: seq<string>)
    requires forall k :: 0 <= k < |col| ==> col[k] != ""
    ensures DropBlanks(col) == col
  {
    if col != [] {
      DropBlanksKeeps(col[..|col| - 1]);
    }
  }

  lemma {:induction false} DropBlanksPadding(col: seq<string>, tail: seq<string>)
    requires forall k :: 0 <= k < |tail| ==> tail[k] == ""
    ensures DropBlanks(col + tail) == DropBlanks(col)
    decreases |tail|
  {
    if tail != [] {
      var t := tail[..|tail| - 1];
      assert (col + tail)[..|col + tail| - 1] == col + t;
      assert (col + tail)[|col + tail| - 1] == tail[|tail| - 1] == "";
      assert DropBlanks(col + tail) == DropBlanks(col + t);
      DropBlanksPadding(col, t);
    } else {
      assert col + tail == col;
    }
  }

  /** Reading the export back: dropping the blank cells of each column gives
      the two lists again, as their entries are never blank. */
  lemma ExportRoundTrip(withKey: seq<string>, withoutKey: seq<string>, showWith: bool, showWithout: bool)
    requires forall k :: 0 <= k < |withKey| ==> withKey[k] != ""
    requires forall k :: 0 <= k < |withoutKey| ==> withoutKey[k] != ""
    ensures var e := ExportColumns(withKey, withoutKey, showWith, showWithout);
            DropBlanks(e.withColumn) == withKey && DropBlanks(e.withoutColumn) == withoutKey
  {
    var n := if |withKey| < |withoutKey| then |withoutKey| else |withKey|;
    DropBlanksPadding(withKey, seq(n - |withKey|, _ => ""));
    DropBlanksKeeps(withKey);
    DropBlanksPadding(withoutKey, seq(n - |withoutKey|, _ => ""));
    DropBlanksKeeps(withoutKey);
  }
}
