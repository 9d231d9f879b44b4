/** Sorted sets: the order `ORDER BY score ASC, member ASC`, and the order statistics read off it. */
module Ranking {

  /** The score column as an ordered domain; NaN cannot be stored as a comparable score. */
  datatype Score = NegInf | Fin(x: real) | PosInf

  predicate ScoreLess(a: Score, b: Score) {
    (a.NegInf? && !b.NegInf?) || (a.Fin? && (b.PosInf? || (b.Fin? && a.x < b.x)))
  }

  /** Byte order on texts. */
  predicate TextLess(a: string, b: string) {
    b != "" && (a == "" || a[0] < b[0] || (a[0] == b[0] && TextLess(a[1..], b[1..])))
  }

  lemma {:induction false} TextOrder(a: string, b: string)
    ensures a != b ==> TextLess(a, b) || TextLess(b, a)
    ensures !(TextLess(a, b) && TextLess(b, a)) && !TextLess(a, a)
  {
    if a != "" && b != "" {
      TextOrder(a[1..], b[1..]);
      assert a == [a[0]] + a[1..] && b == [b[0]] + b[1..];
    }
    if a != "" {
      TextOrder(a[1..], a[1..]);
    }
  }

  lemma {:induction false} TextTransitive(a: string, b: string, c: string)
    requires TextLess(a, b) && TextLess(b, c)
    ensures TextLess(a, c)
  {
    if a != "" && a[0] == b[0] == c[0] {
      TextTransitive(a[1..], b[1..], c[1..]);
    }
  }

  type Table = map<string, Score>

  predicate Before(z: Table, a: string, b: string)
    requires a in z && b in z
  {
    ScoreLess(z[a], z[b]) || (z[a] == z[b] && TextLess(a, b))
  }

  lemma BeforeOrder(z: Table, a: string, b: string)
    requires a in z && b in z
    ensures a != b ==> Before(z, a, b) || Before(z, b, a)
    ensures !(Before(z, a, b) && Before(z, b, a)) && !Before(z, a, a)
  {
    TextOrder(a, b);
    TextOrder(a, a);
  }

  lemma BeforeTransitive(z: Table, a: string, b: string, c: string)
    requires a in z && b in z && c in z && Before(z, a, b) && Before(z, b, c)
    ensures Before(z, a, c)
  {
    if TextLess(a, b) && TextLess(b, c) {
      TextTransitive(a, b, c);
    }
  }

  predicate IsFirst(z: Table, m: string) {
    m in z && forall k :: k in z && k != m ==> Before(z, m, k)
  }

  lemma {:induction false} FirstExists(z: Table)
    requires z != map[]
    ensures exists m :: IsFirst(z, m)
    decreases |z|
  {
    var a :| a in z;
    var rest := z - {a};
    if rest == map[] {
      assert forall k :: k in z && k != a ==> k in rest;
      assert IsFirst(z, a);
    } else {
      FirstExists(rest);
      var b :| IsFirst(rest, b);
      FirstOfTwo(z, a, b);
    }
  }

  lemma FirstOfTwo(z: Table, a: string, b: string)
    requires a in z && IsFirst(z - {a}, b)
    ensures IsFirst(z, a) || IsFirst(z, b)
  {
    BeforeOrder(z, a, b);
    forall k | k in z && k != a && k != b ensures Before(z, b, k) {
      assert k in z - {a};
    }
    if Before(z, a, b) {
      forall k | k in z && k != a && k != b ensures Before(z, a, k) {
        BeforeTransitive(z, a, b, k);
      }
    }
  }

  lemma FirstUnique(z: Table, a: string, b: string)
    requires IsFirst(z, a) && IsFirst(z, b)
    ensures a == b
  {
    BeforeOrder(z, a, b);
  }

  lemma OneFirst(z: Table)
    ensures forall a, b :: IsFirst(z, a) && IsFirst(z, b) ==> a == b
  {
    forall a, b | IsFirst(z, a) && IsFirst(z, b) ensures a == b {
      FirstUnique(z, a, b);
    }
  }

  /** The rows as `ORDER BY score ASC, member ASC` returns them. */
  function Ranked(z: Table): (s: seq<string>)
    decreases |z|
  {
    if z == map[] then []
    else
      FirstExists(z);
      OneFirst(z);
      var m :| IsFirst(z, m);
      Shrinks(z, m);
      [m] + Ranked(z - {m})
  }

  lemma Shrinks(z: Table, m: string)
    requires m in z
    ensures |z - {m}| == |z| - 1
  {
    assert (z - {m}).Keys == z.Keys - {m};
  }

  lemma RankedCons(z: Table, m: string)
    requires IsFirst(z, m)
    ensures Ranked(z) == [m] + Ranked(z - {m})
  {
    FirstUnique(z, m, Ranked(z)[0]);
  }

  /** The first member, to take proofs about the order one member at a time. */
  lemma Pick(z: Table) returns (m: string)
    requires z != map[]
    ensures IsFirst(z, m) && Ranked(z) == [m] + Ranked(z - {m}) && |z - {m}| == |z| - 1
  {
    FirstExists(z);
    m :| IsFirst(z, m);
    RankedCons(z, m);
    Shrinks(z, m);
  }

  /** `s` lists the members of `z`, each once, in strictly ascending (score, member) order. */
  ghost predicate IsRanking(z: Table, s: seq<string>) {
    && |s| == |z|
    && (forall i :: 0 <= i < |s| ==> s[i] in z)
    && (forall m :: m in z ==> m in s)
    && forall i, j :: 0 <= i < j < |s| ==> Before(z, s[i], s[j])
  }

  lemma {:induction false} RankedIsRanking(z: Table)
    ensures IsRanking(z, Ranked(z))
    decreases |z|
  {
    if z != map[] {
      var m := Pick(z);
      var rest := z - {m};
      RankedIsRanking(rest);
      ConsIsRanking(z, m, Ranked(rest));
    }
  }

  lemma ConsIsRanking(z: Table, m: string, s: seq<string>)
    requires IsFirst(z, m) && IsRanking(z - {m}, s)
    ensures IsRanking(z, [m] + s)
  {
    Shrinks(z, m);
    var t := [m] + s;
    forall i | 0 <= i < |t| ensures t[i] in z {
      assert i > 0 ==> t[i] == s[i - 1] && s[i - 1] in z - {m};
    }
    forall k | k in z ensures k in t {
      assert k == m || k in z - {m};
    }
    forall i, j | 0 <= i < j < |t| ensures Before(z, t[i], t[j]) {
      ConsOrder(z, m, s, i, j);
    }
  }

  lemma ConsOrder(z: Table, m: string, s: seq<string>, i: nat, j: nat)
    requires IsFirst(z, m) && IsRanking(z - {m}, s) && i < j <= |s|
    requires forall k :: 0 <= k <= |s| ==> ([m] + s)[k] in z
    ensures Before(z, ([m] + s)[i], ([m] + s)[j])
  {
    assert s[j - 1] in z - {m};
    if i > 0 {
      assert Before(z - {m}, s[i - 1], s[j - 1]);
    }
  }

  /** There is one such order, so it does not matter how the database finds it. */
  lemma {:induction false} RankingUnique(z: Table, s: seq<string>)
    requires IsRanking(z, s)
    ensures s == Ranked(z)
    decreases |z|
  {
    if s != [] {
      var m := s[0];
      forall k | k in z && k != m ensures Before(z, m, k) {
        var i :| 0 <= i < |s| && s[i] == k;
      }
      RankedCons(z, m);
      Shrinks(z, m);
      RankingTail(z, s);
      RankingUnique(z - {m}, s[1..]);
    } else {
      assert z.Keys == {};
    }
  }

  lemma RankingTail(z: Table, s: seq<string>)
    requires IsRanking(z, s) && s != []
    ensures IsRanking(z - {s[0]}, s[1..])
  {
    var rest, t := z - {s[0]}, s[1..];
    Shrinks(z, s[0]);
    forall i | 0 <= i < |t| ensures t[i] in rest {
      assert Before(z, s[0], s[i + 1]);
      BeforeOrder(z, s[0], s[i + 1]);
    }
    forall m | m in rest ensures m in t {
      var i :| 0 <= i < |s| && s[i] == m;
      assert t[i - 1] == m;
    }
    forall i, j | 0 <= i < j < |t| ensures Before(rest, t[i], t[j]) {
      assert Before(z, s[i + 1], s[j + 1]);
    }
  }

  // ---------------------------------------------------------------- ranks

  /** The members with a smaller score: what ZRANK counts. */
  function Below(z: Table, m: string): set<string>
    requires m in z
  {
    set k | k in z && ScoreLess(z[k], z[m])
  }

  /** Position `r` of the ranking `s` is the first one whose member has m's score. */
  ghost predicate FirstWithScore(z: Table, m: string, s: seq<string>, r: nat)
    requires m in z
  {
    && r < |s| && s[r] in z && z[s[r]] == z[m]
    && forall i :: 0 <= i < r ==> s[i] in z && ScoreLess(z[s[i]], z[m])
  }

  /** ZRANK ignores the member tie-break of ZRANGE: it is the position, in the order of ZRANGE, of the
      first member with m's score. */
  lemma {:induction false} RankIsFirstPosition(z: Table, m: string)
    requires m in z
    ensures FirstWithScore(z, m, Ranked(z), |Below(z, m)|)
    decreases |z|
  {
    var f := Pick(z);
    if ScoreLess(z[f], z[m]) {
      RankIsFirstPosition(z - {f}, m);
      BelowShift(z, m, f);
      RankShift(z, m, f, Ranked(z - {f}), |Below(z - {f}, m)|);
    } else {
      NothingBelow(z, m, f);
    }
  }

  /** Members with m's score stand at or after the position that ZRANK gives. */
  lemma TiedIsLater(z: Table, m: string, k: string) returns (j: nat)
    requires m in z && k in z && z[k] == z[m]
    ensures |Below(z, m)| <= j < |Ranked(z)| && Ranked(z)[j] == k
  {
    RankIsFirstPosition(z, m);
    RankedIsRanking(z);
    var s := Ranked(z);
    j :| 0 <= j < |s| && s[j] == k;
    Trichotomy(z[k], z[m]);
  }

  /** That is m's own position if and only if m comes first among the members with its score. */
  lemma RankIsPositionExactly(z: Table, m: string)
    requires m in z
    ensures |Below(z, m)| < |Ranked(z)|
    ensures Ranked(z)[|Below(z, m)|] == m <==> forall k :: k in z && k != m && z[k] == z[m] ==> TextLess(m, k)
  {
    hide Below, Ranked, TextLess, FirstWithScore;
    RankIsFirstPosition(z, m);
    RankedIsRanking(z);
    var s, r := Ranked(z), |Below(z, m)|;
    FirstHasScore(z, m, s, r);
    Trichotomy(z[m], z[m]);
    if s[r] == m {
      forall k | k in z && k != m && z[k] == z[m] ensures TextLess(m, k) {
        var j := TiedIsLater(z, m, k);
        assert Before(z, s[r], s[j]);
      }
    } else {
      var j := TiedIsLater(z, m, m);
      assert Before(z, s[r], s[j]);
      TextOrder(s[r], m);
    }
  }

  lemma FirstHasScore(z: Table, m: string, s: seq<string>, r: nat)
    requires m in z && FirstWithScore(z, m, s, r)
    ensures r < |s| && s[r] in z && z[s[r]] == z[m]
  {
  }

  lemma BelowShift(z: Table, m: string, f: string)
    requires f in z && m in z && ScoreLess(z[f], z[m])
    ensures |Below(z, m)| == |Below(z - {f}, m)| + 1
  {
    assert Below(z, m) == Below(z - {f}, m) + {f};
  }

  lemma RankShift(z: Table, m: string, f: string, s: seq<string>, r: nat)
    requires f in z && m in z && m != f && ScoreLess(z[f], z[m]) && FirstWithScore(z - {f}, m, s, r)
    ensures FirstWithScore(z, m, [f] + s, r + 1)
  {
    var t := [f] + s;
    forall i | 0 <= i < r + 1 ensures t[i] in z && ScoreLess(z[t[i]], z[m]) {
      if i > 0 {
        assert t[i] == s[i - 1];
      }
    }
  }

  lemma NothingBelow(z: Table, m: string, f: string)
    requires m in z && IsFirst(z, f) && !ScoreLess(z[f], z[m])
    ensures Below(z, m) == {} && z[f] == z[m]
  {
    assert m == f || Before(z, f, m);
    forall k | k in z ensures !ScoreLess(z[k], z[m]) {
      assert k == f || Before(z, f, k);
    }
  }

  /** With ties the position need not be m's own: here both members have rank 0. */
  lemma TiesShareARank()
    ensures var z := map["a" := Fin(1.0), "b" := Fin(1.0)];
      |Below(z, "a")| == 0 && |Below(z, "b")| == 0 && Ranked(z) == ["a", "b"]
  {
    var z := map["a" := Fin(1.0), "b" := Fin(1.0)];
    assert Below(z, "a") == {} && Below(z, "b") == {};
    assert TextLess("a", "b");
    assert |z.Keys| == 2 by { assert z.Keys == {"a", "b"}; }
    RankingUnique(z, ["a", "b"]);
  }

  // ---------------------------------------------------------------- ranges by score

  /** One end of a score interval: "x", "(x", "-inf", "+inf". */
  datatype Bound = Bound(at: Score, exclusive: bool)

  predicate AtLeast(x: Score, min: Bound) {
    ScoreLess(min.at, x) || (!min.exclusive && x == min.at)
  }

  predicate AtMost(x: Score, max: Bound) {
    ScoreLess(x, max.at) || (!max.exclusive && x == max.at)
  }

  /** The rows whose score lies in the interval. */
  function Between(z: Table, min: Bound, max: Bound): (r: Table)
    ensures forall m :: m in r <==> m in z && AtLeast(z[m], min) && AtMost(z[m], max)
    ensures forall m :: m in r ==> r[m] == z[m]
  {
    map m | m in z && AtLeast(z[m], min) && AtMost(z[m], max) :: z[m]
  }

  lemma FirstOfBetween(z: Table, f: string, min: Bound, max: Bound)
    requires IsFirst(z, f) && AtLeast(z[f], min) && Between(z, min, max) != map[]
    ensures IsFirst(Between(z, min, max), f)
  {
    var r := Between(z, min, max);
    var k :| k in r;
    assert k == f || Before(z, f, k);
    assert f in r;
    forall j | j in r && j != f ensures Before(r, f, j) {
      assert Before(z, f, j);
    }
  }

  lemma BetweenWithout(z: Table, f: string, min: Bound, max: Bound)
    ensures Between(z, min, max) - {f} == Between(z - {f}, min, max)
    ensures f !in Between(z, min, max) ==> Between(z, min, max) == Between(z - {f}, min, max)
  {
  }

  lemma SliceCons<T>(x: T, s: seq<T>, a: nat, b: nat)
    requires a <= b <= |s|
    ensures ([x] + s)[a + 1..b + 1] == s[a..b]
    ensures ([x] + s)[..b + 1] == [x] + s[..b]
  {
  }

  lemma AllAtLeast(z: Table, f: string, min: Bound)
    requires IsFirst(z, f) && AtLeast(z[f], min)
    ensures forall m :: m in z ==> AtLeast(z[m], min)
  {
    forall m | m in z ensures AtLeast(z[m], min) {
      assert m == f || Before(z, f, m);
    }
  }

  /** From a member inside the lower bound on, the interval is an initial piece of the order. */
  lemma {:induction false} ByScorePrefix(z: Table, min: Bound, max: Bound) returns (b: nat)
    requires forall m :: m in z ==> AtLeast(z[m], min)
    ensures b <= |Ranked(z)| && Ranked(Between(z, min, max)) == Ranked(z)[..b]
    decreases |z|
  {
    var r := Between(z, min, max);
    if r == map[] {
      b := 0;
    } else {
      var f := Pick(z);
      FirstOfBetween(z, f, min, max);
      RankedCons(r, f);
      BetweenWithout(z, f, min, max);
      var b' := ByScorePrefix(z - {f}, min, max);
      SliceCons(f, Ranked(z - {f}), 0, b');
      b := b' + 1;
    }
  }

  /** ZRANGEBYSCORE returns a contiguous piece of the order that ZRANGE returns. */
  lemma {:induction false} ByScoreIsSlice(z: Table, min: Bound, max: Bound) returns (a: nat, b: nat)
    ensures a <= b <= |Ranked(z)| && Ranked(Between(z, min, max)) == Ranked(z)[a..b]
    decreases |z|
  {
    if z == map[] {
      a, b := 0, 0;
      assert Between(z, min, max) == map[];
    } else {
      var f := Pick(z);
      if AtLeast(z[f], min) {
        AllAtLeast(z, f, min);
        a := 0;
        b := ByScorePrefix(z, min, max);
      } else {
        var a', b' := ByScoreIsSlice(z - {f}, min, max);
        SliceShift(z, f, min, max, a', b');
        a, b := a' + 1, b' + 1;
      }
    }
  }

  lemma SliceShift(z: Table, f: string, min: Bound, max: Bound, a: nat, b: nat)
    requires f in z && !AtLeast(z[f], min) && Ranked(z) == [f] + Ranked(z - {f})
    requires a <= b <= |Ranked(z - {f})| && Ranked(Between(z - {f}, min, max)) == Ranked(z - {f})[a..b]
    ensures b + 1 <= |Ranked(z)| && Ranked(Between(z, min, max)) == Ranked(z)[a + 1..b + 1]
  {
    BetweenWithout(z, f, min, max);
    SliceCons(f, Ranked(z - {f}), a, b);
  }

  /** Counting up to x exclusively and from x on inclusively counts every member once. */
  lemma CountsSplit(z: Table, x: Score)
    ensures |Between(z, Bound(NegInf, false), Bound(x, true))| + |Between(z, Bound(x, false), Bound(PosInf, false))| == |z|
  {
    var lo, hi := Between(z, Bound(NegInf, false), Bound(x, true)), Between(z, Bound(x, false), Bound(PosInf, false));
    forall m ensures m in z <==> m in lo || m in hi {
      if m in z {
        Trichotomy(z[m], x);
      }
    }
    forall m | m in lo ensures m !in hi {
      Trichotomy(z[m], x);
    }
    assert lo.Keys + hi.Keys == z.Keys && lo.Keys !! hi.Keys;
  }

  lemma Trichotomy(a: Score, b: Score)
    ensures ScoreLess(a, b) || a == b || ScoreLess(b, a)
    ensures !(ScoreLess(a, b) && ScoreLess(b, a)) && !ScoreLess(a, a)
    ensures !ScoreLess(a, NegInf) && !ScoreLess(PosInf, a)
    ensures a != NegInf ==> ScoreLess(NegInf, a)
    ensures a != PosInf ==> ScoreLess(a, PosInf)
  {
  }

  // ---------------------------------------------------------------- the order in terms of numbers and bytes

  /** `a` comes before `b` in a dictionary: it is a proper prefix, or smaller at the first difference. */
  ghost predicate Lexical(a: string, b: string) {
    exists k :: 0 <= k <= |a| && k <= |b| && DiffersAt(a, b, k)
  }

  predicate DiffersAt(a: string, b: string, k: nat)
    requires k <= |a| && k <= |b|
  {
    a[..k] == b[..k] && k < |b| && (k == |a| || a[k] < b[k])
  }

  lemma SameStart(a: string, b: string, k: nat)
    requires k <= |a| && k <= |b| && DiffersAt(a, b, k)
    ensures k > 0 ==> a[0] == b[0]
  {
    if k > 0 {
      assert a[..k][0] == b[..k][0];
    }
  }

  lemma {:induction false} TextLessIsLexical(a: string, b: string)
    ensures TextLess(a, b) <==> Lexical(a, b)
  {
    if a == "" || b == "" || a[0] != b[0] {
      if b != "" && TextLess(a, b) {
        assert DiffersAt(a, b, 0);
      }
      if Lexical(a, b) {
        var k :| 0 <= k <= |a| && k <= |b| && DiffersAt(a, b, k);
        SameStart(a, b, k);
      }
    } else {
      TextLessIsLexical(a[1..], b[1..]);
      if k :| 0 <= k <= |a[1..]| && k <= |b[1..]| && DiffersAt(a[1..], b[1..], k) {
        assert a[..k + 1] == [a[0]] + a[1..][..k] && b[..k + 1] == [b[0]] + b[1..][..k];
        assert DiffersAt(a, b, k + 1);
      }
      if k :| 0 <= k <= |a| && k <= |b| && DiffersAt(a, b, k) {
        assert a[1..][..k - 1] == a[..k][1..] && b[1..][..k - 1] == b[..k][1..];
        assert DiffersAt(a[1..], b[1..], k - 1);
      }
    }
  }

  /** ZRANGE lists the members by the size of their scores, -inf first and +inf last, and members of equal score
      in dictionary order. */
  lemma RankedByNumber(z: Table, i: nat, j: nat)
    requires i < j < |Ranked(z)|
    ensures var a, b := Ranked(z)[i], Ranked(z)[j];
      && a in z && b in z
      && (z[b].NegInf? ==> z[a].NegInf?) && (z[a].PosInf? ==> z[b].PosInf?)
      && (z[a].Fin? && z[b].Fin? ==> z[a].x <= z[b].x)
      && (z[a] == z[b] ==> Lexical(a, b))
  {
    hide Ranked, TextLess, Lexical;
    RankedIsRanking(z);
    var a, b := Ranked(z)[i], Ranked(z)[j];
    assert Before(z, a, b);
    TextLessIsLexical(a, b);
    Trichotomy(z[a], z[b]);
  }

  /** ZRANK counts the members of smaller score. */
  lemma RankCountsSmaller(z: Table, m: string)
    requires m in z
    ensures z[m].NegInf? ==> |Below(z, m)| == 0
    ensures z[m].PosInf? ==> Below(z, m) == set k | k in z && !z[k].PosInf?
    ensures z[m].Fin? ==> Below(z, m) == set k | k in z && (z[k].NegInf? || (z[k].Fin? && z[k].x < z[m].x))
  {
    if z[m].NegInf? {
      assert Below(z, m) == {};
    }
  }

  /** ZRANGEBYSCORE and ZCOUNT take the members whose score is a number in the interval, its ends included or
      not as they say; from -inf to +inf they take all. */
  lemma IntervalOfNumbers(z: Table, lo: real, notLo: bool, hi: real, notHi: bool, m: string)
    ensures m in Between(z, Bound(Fin(lo), notLo), Bound(Fin(hi), notHi))
       <==> m in z && z[m].Fin? && (if notLo then lo < z[m].x else lo <= z[m].x)
            && (if notHi then z[m].x < hi else z[m].x <= hi)
    ensures m in Between(z, Bound(Fin(lo), notLo), Bound(PosInf, false))
       <==> m in z && (z[m].PosInf? || (z[m].Fin? && if notLo then lo < z[m].x else lo <= z[m].x))
    ensures m in Between(z, Bound(NegInf, false), Bound(Fin(hi), notHi))
       <==> m in z && (z[m].NegInf? || (z[m].Fin? && if notHi then z[m].x < hi else z[m].x <= hi))
    ensures Between(z, Bound(NegInf, false), Bound(PosInf, false)) == z
  {
    assert forall k :: k in z ==> k in Between(z, Bound(NegInf, false), Bound(PosInf, false));
  }
}
