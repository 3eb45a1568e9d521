/** The whole recomputation the script performs on every interaction, with
    the widget values as inputs: parse and pad the grid, list the selectable
    cells, collect the selected cell's neighbours, build the digit pool, draw
    the combinations, split and sort them, take the hot picks and line up the
    export columns. */
module Analyzer {
  import opened Wrappers
  import opened Text
  import opened Decimal
  import opened Grid
  import opened Neighborhood
  import opened Combos
  import opened StringOrder
  import opened Results

  /** The widget values: the pasted grid, the selected cell, the key digit and
      the three check boxes. */
  datatype Request = Request(gridText: string, selected: Choice, keyDigit: char,
                             includeSelf: bool, showWithKey: bool, showWithoutKey: bool)

  /** Everything the script computes from one request. */
  datatype Report = Report(grid: seq<seq<Cell>>, maxCols: nat, validNumbers: seq<Choice>,
                           neighbors: seq<string>, pool: string, combos: set<string>,
                           withKey: seq<string>, withoutKey: seq<string>,
                           hotPicks: seq<string>, exported: Export)

  /** The selection box offered `valid_numbers` and one of them was chosen
      (the script cannot get past line 50 otherwise). */
  predicate Selectable(req: Request) {
    req.selected in ValidNumbers(ParsedGrid(req.gridText))
  }

  /** The recomputation as one function of the request. It is defined for
      every request; its grid is non-empty and rectangular, there are at most
      eight neighbours, and the two export columns have equal length.
      `Recompute` is proved equal to it and `ReportGuarantee` states what its
      lists promise. */
  function Analyze(req: Request): (rep: Report)
    ensures |rep.grid| >= 1 && Rectangular(rep.grid, rep.maxCols)
    ensures |rep.neighbors| <= 8
    ensures |rep.exported.withColumn| == |rep.exported.withoutColumn|
  {
    var rows := RawGrid(req.gridText);
    var grid := PadGrid(rows);
    var maxCols := MaxWidth(rows);
    var neighbors := NeighborTexts(grid, maxCols, req.selected.row, req.selected.col);
    var pool := DigitPool(neighbors, req.selected.text, req.includeSelf);
    var combos := ComboSet(pool);
    var withKey := WithKey(combos, req.keyDigit, req.showWithKey);
    var withoutKey := WithoutKey(combos, req.keyDigit, req.showWithoutKey);
    Report(grid, maxCols, ValidNumbers(grid), neighbors, pool, combos, withKey, withoutKey,
           HotPicks(withKey, req.showWithKey),
           ExportColumns(withKey, withoutKey, req.showWithKey, req.showWithoutKey))
  }

  /** The script itself, statement by statement (lines 22-30, 41, 50-76, 94-97). */
  method Recompute(req: Request) returns (rep: Report)
    ensures rep == Analyze(req)
  {
    var rows := BuildRows(req.gridText);
    var grid, maxCols := PadRows(rows);
    var validNumbers := ValidNumbers(grid);
    var row, col, val := req.selected.row, req.selected.col, req.selected.text;
    var centreDigits := val;
    var neighbors := CollectNeighbors(grid, maxCols, row, col);
    var pool := Flatten(neighbors);
    if req.includeSelf {
      pool := pool + centreDigits;
    }
    assert pool == DigitPool(neighbors, val, req.includeSelf);
    var comboSet := GenerateCombos(pool);
    var withKey := WithKey(comboSet, req.keyDigit, req.showWithKey);
    var withoutKey := WithoutKey(comboSet, req.keyDigit, req.showWithoutKey);
    var hotPicks := HotPicks(withKey, req.showWithKey);
    var exported := ExportColumns(withKey, withoutKey, req.showWithKey, req.showWithoutKey);
    rep := Report(grid, maxCols, validNumbers, neighbors, pool, comboSet, withKey, withoutKey, hotPicks, exported);
  }

  lemma {:induction false} FlattenDigits(ss: seq<string>)
    requires forall k :: 0 <= k < |ss| ==> AllDigits(ss[k])
    ensures AllDigits(Flatten(ss))
  {
    if ss != [] {
      FlattenDigits(ss[..|ss| - 1]);
    }
  }

  /** Every character of the pool is a decimal digit: the pool is made of
      `str` of cell values only. */
  lemma PoolIsDigits(grid: seq<seq<Cell>>, width: nat, selected: Choice, includeSelf: bool)
    requires Rectangular(grid, width) && selected in ValidNumbers(grid)
    ensures AllDigits(DigitPool(NeighborTexts(grid, width, selected.row, selected.col), selected.text, includeSelf))
  {
    var neighbors := NeighborTexts(grid, width, selected.row, selected.col);
    var ps := Found(grid, width, selected.row, selected.col, 9);
    assert neighbors == Render(grid, width, ps);
    FlattenDigits(neighbors);
    assert Names(grid, selected);
  }

  /** A combination drawn from a pool of digits is a three-digit string whose
      digits the pool supplies, counted with repetition. */
  lemma ComboOfDigits(pool: string, t: string)
    requires AllDigits(pool) && t in ComboSet(pool)
    ensures |t| == 3 && AllDigits(t) && multiset(t) <= multiset(pool)
  {
    ComboMembership(pool, t);
    forall k | 0 <= k < 3
      ensures IsDigit(t[k])
    {
      var i :| 0 <= i < |pool| && pool[i] == t[k];
    }
  }

  /** From a pool of digits, both lists hold such strings, split by the key digit. */
  lemma CombosOfDigits(pool: string, key: char, showWith: bool, showWithout: bool)
    requires AllDigits(pool)
    ensures forall t :: t in WithKey(ComboSet(pool), key, showWith) ==>
              |t| == 3 && AllDigits(t) && multiset(t) <= multiset(pool) && key in t
    ensures forall t :: t in WithoutKey(ComboSet(pool), key, showWithout) ==>
              |t| == 3 && AllDigits(t) && multiset(t) <= multiset(pool) && key !in t
  {
    var combos := ComboSet(pool);
    forall t | t in WithKey(combos, key, showWith)
      ensures |t| == 3 && AllDigits(t) && multiset(t) <= multiset(pool) && key in t
    {
      ComboOfDigits(pool, t);
    }
    forall t | t in WithoutKey(combos, key, showWithout)
      ensures |t| == 3 && AllDigits(t) && multiset(t) <= multiset(pool) && key !in t
    {
      ComboOfDigits(pool, t);
    }
  }

  /** What the script's output promises about a pool, the two lists and the
      export: every listed combination is a three-digit string drawn from the
      pool, with the key digit in the first list and without it in the
      second, and the exported columns give both lists back once their blank
      padding is dropped. */
  predicate SoundLists(pool: string, key: char, withKey: seq<string>, withoutKey: seq<string>, exported: Export) {
    && (forall t :: t in withKey ==> |t| == 3 && AllDigits(t) && multiset(t) <= multiset(pool) && key in t)
    && (forall t :: t in withoutKey ==> |t| == 3 && AllDigits(t) && multiset(t) <= multiset(pool) && key !in t)
    && DropBlanks(exported.withColumn) == withKey
    && DropBlanks(exported.withoutColumn) == withoutKey
  }

  /** The lists and the export built from a pool of digits are sound. */
  lemma SoundPool(pool: string, key: char, showWith: bool, showWithout: bool)
    requires AllDigits(pool)
    ensures var w := WithKey(ComboSet(pool), key, showWith);
            var o := WithoutKey(ComboSet(pool), key, showWithout);
            SoundLists(pool, key, w, o, ExportColumns(w, o, showWith, showWithout))
  {
    CombosOfDigits(pool, key, showWith, showWithout);
    var w := WithKey(ComboSet(pool), key, showWith);
    var o := WithoutKey(ComboSet(pool), key, showWithout);
    forall k | 0 <= k < |w|
      ensures w[k] != ""
    {
      assert w[k] in w;
    }
    forall k | 0 <= k < |o|
      ensures o[k] != ""
    {
      assert o[k] in o;
    }
    ExportRoundTrip(w, o, showWith, showWithout);
  }

  /** The end-to-end guarantee: the report of every request with a selected
      cell is sound. */
  lemma ReportGuarantee(req: Request)
    requires Selectable(req)
    ensures var rep := Analyze(req);
            SoundLists(rep.pool, req.keyDigit, rep.withKey, rep.withoutKey, rep.exported)
  {
    var grid, width := ParsedGrid(req.gridText), MaxWidth(RawGrid(req.gridText));
    PoolIsDigits(grid, width, req.selected, req.includeSelf);
    var pool := DigitPool(NeighborTexts(grid, width, req.selected.row, req.selected.col), req.selected.text, req.includeSelf);
    SoundPool(pool, req.keyDigit, req.showWithKey, req.showWithoutKey);
    assert Analyze(req).pool == pool;
  }

  /** The source's default grid has the token `038`; stored as the integer 38
      it is shown as `38`, so it gives the pool only the digits 3 and 8. */
  lemma LeadingZeroDropped()
    ensures ParseToken("038") == Some(38)
    ensures Show(38) == "38"
  {
    StripUnpadded("038");
    assert IsDigits("038");
    assert Value("038") == 38 by {
      assert "038"[..2] == "03" && "03"[..1] == "0" && "0"[..0] == "";
    }
  }
}
