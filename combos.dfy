/** The digit pool and the permutation engine (pick3_analyzer_app.py.py lines
    65-72): the neighbour strings are concatenated, optionally followed by the
    selected value's own characters, and every ordered draw of three distinct
    pool positions is collected, as a string, into a set. */
module Combos {

  /** Total number of characters in `ss`. */
  function TotalLength(ss: seq<string>): nat {
    if ss == [] then 0 else TotalLength(ss[..|ss| - 1]) + |ss[|ss| - 1]|
  }

  /** `"".join(ss)`: the strings back to back, in order. */
  function Flatten(ss: seq<string>): (r: string)
    ensures |r| == TotalLength(ss)
  {
    if ss == [] then [] else Flatten(ss[..|ss| - 1]) + ss[|ss| - 1]
  }

  /** Nothing is lost or reordered: the `k`-th string occupies the positions
      after the first `k` strings' characters. */
  lemma {:induction false} FlattenPiece(ss: seq<string>, k: nat)
    requires k < |ss|
    ensures var lo := TotalLength(ss[..k]);
            lo + |ss[k]| <= |Flatten(ss)| && Flatten(ss)[lo..lo + |ss[k]|] == ss[k]
  {
    var front := ss[..|ss| - 1];
    var f := Flatten(front);
    var lo := TotalLength(ss[..k]);
    if k < |front| {
      FlattenPiece(front, k);
      assert ss[..k] == front[..k] && ss[k] == front[k];
      assert (f + ss[|ss| - 1])[lo..lo + |ss[k]|] == f[lo..lo + |ss[k]|];
    } else {
      assert ss[..k] == front;
    }
  }

  /** The pool: the neighbour digits in order, then the selected value's own
      digits when `includeSelf` is set. */
  function DigitPool(neighbors: seq<string>, centre: string, includeSelf: bool): (pool: string)
    ensures |pool| == TotalLength(neighbors) + (if includeSelf then |centre| else 0)
    ensures pool[..TotalLength(neighbors)] == Flatten(neighbors)
    ensures pool[TotalLength(neighbors)..] == if includeSelf then centre else []
  {
    Flatten(neighbors) + (if includeSelf then centre else [])
  }

  /** Pairwise distinct pool positions. */
  predicate Distinct3(a: int, b: int, c: int) {
    a != b && a != c && b != c
  }

  /** The draw of positions a, b, c rendered as a string. */
  function Draw(pool: string, a: nat, b: nat, c: nat): string
    requires a < |pool| && b < |pool| && c < |pool|
  {
    [pool[a], pool[b], pool[c]]
  }

  /** `combo_set`: the strings of all draws of three distinct positions. It is
      empty for a pool of fewer than three characters, and every element has
      three characters, each taken from the pool. */
  function ComboSet(pool: string): (r: set<string>)
    ensures |pool| < 3 ==> r == {}
    ensures forall t :: t in r ==> |t| == 3 && t[0] in pool && t[1] in pool && t[2] in pool
  {
    set a: nat, b: nat, c: nat | a < |pool| && b < |pool| && c < |pool| && Distinct3(a, b, c) :: Draw(pool, a, b, c)
  }

  /** Draws whose first position is below `a`. */
  function FirstBelow(pool: string, a: nat): set<string> {
    set x: nat, y: nat, z: nat | x < a && x < |pool| && y < |pool| && z < |pool| && Distinct3(x, y, z) :: Draw(pool, x, y, z)
  }

  /** Draws with first position `a` and second position below `b`. */
  function SecondBelow(pool: string, a: nat, b: nat): set<string>
    requires a < |pool|
  {
    set y: nat, z: nat | y < b && y < |pool| && z < |pool| && Distinct3(a, y, z) :: Draw(pool, a, y, z)
  }

  /** Draws with first positions `a`, `b` and third position below `c`. */
  function ThirdBelow(pool: string, a: nat, b: nat, c: nat): set<string>
    requires a < |pool| && b < |pool|
  {
    set z: nat | z < c && z < |pool| && Distinct3(a, b, z) :: Draw(pool, a, b, z)
  }

  lemma NextThird(pool: string, a: nat, b: nat, c: nat)
    requires a < |pool| && b < |pool| && c < |pool|
    ensures ThirdBelow(pool, a, b, c + 1) ==
              ThirdBelow(pool, a, b, c) + (if Distinct3(a, b, c) then {Draw(pool, a, b, c)} else {})
  {
  }

  lemma NextSecond(pool: string, a: nat, b: nat)
    requires a < |pool| && b < |pool|
    ensures SecondBelow(pool, a, b + 1) == SecondBelow(pool, a, b) + ThirdBelow(pool, a, b, |pool|)
  {
    forall t | t in SecondBelow(pool, a, b + 1)
      ensures t in SecondBelow(pool, a, b) + ThirdBelow(pool, a, b, |pool|)
    {
      var y: nat, z: nat :| y < b + 1 && y < |pool| && z < |pool| && Distinct3(a, y, z) && t == Draw(pool, a, y, z);
      if y < b {
        assert t in SecondBelow(pool, a, b);
      } else {
        assert t in ThirdBelow(pool, a, b, |pool|);
      }
    }
  }

  lemma NextFirst(pool: string, a: nat)
    requires a < |pool|
    ensures FirstBelow(pool, a + 1) == FirstBelow(pool, a) + SecondBelow(pool, a, |pool|)
  {
    forall t | t in FirstBelow(pool, a + 1)
      ensures t in FirstBelow(pool, a) + SecondBelow(pool, a, |pool|)
    {
      var x: nat, y: nat, z: nat :| x < a + 1 && x < |pool| && y < |pool| && z < |pool| && Distinct3(x, y, z) && t == Draw(pool, x, y, z);
      if x < a {
        assert t in FirstBelow(pool, a);
      } else {
        assert t in SecondBelow(pool, a, |pool|);
      }
    }
  }

  /** The loop over `itertools.permutations(digit_pool, 3)`, which visits the
      position triples in lexicographic order and skips repeated positions. */
  method GenerateCombos(pool: string) returns (comboSet: set<string>)
    ensures comboSet == ComboSet(pool)
  {
    var n := |pool|;
    comboSet := {};
    for a := 0 to n
      invariant comboSet == FirstBelow(pool, a)
    {
      for b := 0 to n
        invariant comboSet == FirstBelow(pool, a) + SecondBelow(pool, a, b)
      {
        for c := 0 to n
          invariant comboSet == FirstBelow(pool, a) + SecondBelow(pool, a, b) + ThirdBelow(pool, a, b, c)
        {
          NextThird(pool, a, b, c);
          if a != b && a != c && b != c {
            comboSet := comboSet + {[pool[a], pool[b], pool[c]]};
          }
        }
        NextSecond(pool, a, b);
      }
      NextFirst(pool, a);
    }
    assert FirstBelow(pool, n) == ComboSet(pool);
  }

  /** `s` without its `i`-th element. */
  function Remove<T>(s: seq<T>, i: nat): (r: seq<T>)
    requires i < |s|
    ensures |r| == |s| - 1
    ensures multiset(s) == multiset(r) + multiset{s[i]}
  {
    assert s == s[..i] + [s[i]] + s[i + 1..];
    s[..i] + s[i + 1..]
  }

  /** Where position `j` of `s` sits once position `i` is removed. */
  function Shift(j: nat, i: nat): nat
    requires j != i
  {
    if j < i then j else j - 1
  }

  /** The position in `s` of position `j` of `Remove(s, i)`. */
  function Unshift(j: nat, i: nat): nat {
    if j < i then j else j + 1
  }

  lemma RemoveIndex<T>(s: seq<T>, i: nat, j: nat)
    requires i < |s| && j < |s| && j != i
    ensures Shift(j, i) < |Remove(s, i)| && Remove(s, i)[Shift(j, i)] == s[j]
  {
  }

  lemma RemoveUnshift<T>(s: seq<T>, i: nat, j: nat)
    requires i < |s| && j < |s| - 1
    ensures Unshift(j, i) < |s| && Unshift(j, i) != i && s[Unshift(j, i)] == Remove(s, i)[j]
  {
  }

  /** Removing positions `a` and then `b` leaves the character at `c`. */
  lemma RemoveTwo(pool: string, a: nat, b: nat, c: nat) returns (rest: string)
    requires a < |pool| && b < |pool| && c < |pool| && Distinct3(a, b, c)
    ensures multiset(pool) == multiset(rest) + multiset{pool[b]} + multiset{pool[a]}
    ensures pool[c] in multiset(rest)
  {
    var s1 := Remove(pool, a);
    RemoveIndex(pool, a, b);
    RemoveIndex(pool, a, c);
    var b1, c1 := Shift(b, a), Shift(c, a);
    rest := Remove(s1, b1);
    RemoveIndex(s1, b1, c1);
    assert rest[Shift(c1, b1)] == pool[c];
  }

  /** The characters of a draw, as a bag, fit in the pool. */
  lemma DrawFits(pool: string, a: nat, b: nat, c: nat)
    requires a < |pool| && b < |pool| && c < |pool| && Distinct3(a, b, c)
    ensures multiset(Draw(pool, a, b, c)) <= multiset(pool)
  {
    var rest := RemoveTwo(pool, a, b, c);
    assert multiset(Draw(pool, a, b, c)) == multiset{pool[a]} + multiset{pool[b]} + multiset{pool[c]};
  }

  /** A character the pool holds sits at some position; removing it leaves
      room for the rest. */
  lemma Pick(s: string, x: char, rest: multiset<char>) returns (i: nat)
    requires multiset{x} + rest <= multiset(s)
    ensures i < |s| && s[i] == x && rest <= multiset(Remove(s, i))
  {
    assert x in multiset(s);
    i :| 0 <= i < |s| && s[i] == x;
    var r := Remove(s, i);
    forall y
      ensures rest[y] <= multiset(r)[y]
    {
      assert (multiset{x} + rest)[y] <= multiset(s)[y];
    }
  }

  /** Two characters that fit, as a bag, in `s` sit at two distinct positions. */
  lemma PickTwo(s: string, x: char, y: char) returns (i: nat, j: nat)
    requires multiset{x} + multiset{y} <= multiset(s)
    ensures i < |s| && j < |s| && i != j && s[i] == x && s[j] == y
  {
    i := Pick(s, x, multiset{y});
    var r := Remove(s, i);
    var k := Pick(r, y, multiset{});
    RemoveUnshift(s, i, k);
    j := Unshift(k, i);
  }

  /** Three characters that fit, as a bag, in the pool sit at three distinct
      positions. */
  lemma PickThree(pool: string, t: string) returns (a: nat, b: nat, c: nat)
    requires |t| == 3 && multiset(t) <= multiset(pool)
    ensures a < |pool| && b < |pool| && c < |pool| && Distinct3(a, b, c)
    ensures pool[a] == t[0] && pool[b] == t[1] && pool[c] == t[2]
  {
    assert t == [t[0], t[1], t[2]];
    assert multiset(t) == multiset{t[0]} + (multiset{t[1]} + multiset{t[2]});
    a := Pick(pool, t[0], multiset{t[1]} + multiset{t[2]});
    var s1 := Remove(pool, a);
    var b1, c1 := PickTwo(s1, t[1], t[2]);
    RemoveUnshift(pool, a, b1);
    RemoveUnshift(pool, a, c1);
    b, c := Unshift(b1, a), Unshift(c1, a);
  }

  /** Three characters that fit, as a bag, in the pool are some draw. */
  lemma FitsIsDraw(pool: string, t: string)
    requires |t| == 3 && multiset(t) <= multiset(pool)
    ensures t in ComboSet(pool)
  {
    var a, b, c := PickThree(pool, t);
    DrawInCombos(pool, a, b, c);
    assert Draw(pool, a, b, c) == t;
  }

  lemma DrawInCombos(pool: string, a: nat, b: nat, c: nat)
    requires a < |pool| && b < |pool| && c < |pool| && Distinct3(a, b, c)
    ensures Draw(pool, a, b, c) in ComboSet(pool)
  {
  }

  /** Membership in `combo_set`, stated without positions: a string is a
      combination exactly when it has three characters and, counted with
      repetition, the pool holds each of them. */
  lemma ComboMembership(pool: string, t: string)
    ensures t in ComboSet(pool) <==> |t| == 3 && multiset(t) <= multiset(pool)
  {
    if t in ComboSet(pool) {
      var a: nat, b: nat, c: nat :| a < |pool| && b < |pool| && c < |pool| && Distinct3(a, b, c) && t == Draw(pool, a, b, c);
      DrawFits(pool, a, b, c);
    }
    if |t| == 3 && multiset(t) <= multiset(pool) {
      FitsIsDraw(pool, t);
    }
  }
}
