/** The list edits as sequence operations, and the loops the program computes them with. */
module ListEdits {
  import opened Decimal
  import opened Sequences

  // ---------------------------------------------------------------- ranges

  /** A negative index counts from the end. */
  function Norm(n: nat, i: int): int { if i < 0 then n + i else i }

  /** Position `i` of a list of `n` lies between the two ends, which are inclusive. */
  predicate InSpan(n: nat, start: int, stop: int, i: int) {
    0 <= i < n && Norm(n, start) <= i <= Norm(n, stop)
  }

  /** The half-open range of positions that LRANGE and ZRANGE return for `start` and `stop`. */
  function Span(n: nat, start: int, stop: int): (r: (nat, nat))
    ensures r.0 <= r.1 <= n
    ensures forall i :: r.0 <= i < r.1 <==> InSpan(n, start, stop, i)
  {
    var lo := if Norm(n, start) < 0 then 0 else Norm(n, start);
    var hi := if Norm(n, stop) >= n then n else Norm(n, stop) + 1;
    if lo < hi then (lo, hi) else (0, 0)
  }

  function Range<T>(s: seq<T>, start: int, stop: int): seq<T> {
    var (lo, hi) := Span(|s|, start, stop);
    s[lo..hi]
  }

  // ---------------------------------------------------------------- reversal

  function Reverse<T>(s: seq<T>): (r: seq<T>)
    ensures |r| == |s| && forall i :: 0 <= i < |s| ==> r[i] == s[|s| - 1 - i]
  {
    seq(|s|, i requires 0 <= i < |s| => s[|s| - 1 - i])
  }

  lemma ReverseTwice<T>(s: seq<T>)
    ensures Reverse(Reverse(s)) == s
  {
  }

  lemma ReverseSplit<T>(s: seq<T>, t: seq<T>)
    ensures Reverse(s + t) == Reverse(t) + Reverse(s)
  {
  }

  /** The two-index swap loop. */
  method ReverseInPlace(a: array<string>, n: nat)
    requires n <= a.Length
    modifies a
    ensures a[..n] == Reverse(old(a[..n])) && a[n..] == old(a[n..])
  {
    var i, j := 0, n - 1;
    while i < j
      invariant 0 <= i <= n && j == n - 1 - i && i <= j + 1
      invariant forall k :: 0 <= k < i || j < k < n ==> a[k] == old(a[n - 1 - k])
      invariant forall k :: i <= k <= j ==> a[k] == old(a[k])
      invariant a[n..] == old(a[n..])
    {
      a[i], a[j] := a[j], a[i];
      i, j := i + 1, j - 1;
    }
  }

  /** The fill of LPUSH: the values in reverse order, as the last one pushed ends up first. */
  method ReverseFill(values: seq<string>) returns (prepend: array<string>)
    ensures fresh(prepend) && prepend[..] == Reverse(values)
  {
    prepend := new string[|values|](_ => "");
    for i := 0 to |values|
      invariant forall k :: 0 <= k < i ==> prepend[|values| - 1 - k] == values[k]
    {
      prepend[|values| - 1 - i] := values[i];
    }
    assert forall k :: 0 <= k < |values| ==> prepend[k] == values[|values| - 1 - k] by {
      forall k | 0 <= k < |values| ensures prepend[k] == values[|values| - 1 - k] {
        assert prepend[|values| - 1 - (|values| - 1 - k)] == values[|values| - 1 - k];
      }
    }
  }

  // ---------------------------------------------------------------- LREM

  /** `s` without its first `k` occurrences of `v`. */
  function DropFirst(s: seq<string>, v: string, k: nat): seq<string> {
    if s == [] then []
    else if s[0] == v && k > 0 then DropFirst(s[1..], v, k - 1)
    else [s[0]] + DropFirst(s[1..], v, k)
  }

  /** What LREM promises: count > 0 drops from the head, count < 0 from the tail, 0 drops all. */
  function RemPromised(s: seq<string>, v: string, count: int): seq<string> {
    if count == 0 then DropFirst(s, v, |s|)
    else if count > 0 then DropFirst(s, v, count)
    else Reverse(DropFirst(Reverse(s), v, -count))
  }

  /** What LREM does: negating the smallest int64 gives itself, and no counter is below a negative limit. */
  function Rem(s: seq<string>, v: string, count: Int64): seq<string> {
    if count < 0 && Wrap(0 - count) < 0 then s else RemPromised(s, v, count)
  }

  /** LREM removes as many elements as it should, so that removed plus new length is the old length. */
  lemma PromisedLength(s: seq<string>, v: string, count: int)
    ensures |RemPromised(s, v, count)| + Removable(s, v, count) == |s|
  {
    if count == 0 {
      DropFirstCounts(s, v, |s|);
    } else if count > 0 {
      DropFirstCounts(s, v, count);
    } else {
      var r := Reverse(s);
      CountReverse(s, v);
      DropFirstCounts(r, v, 0 - count);
    }
  }

  lemma NegateWraps(count: Int64)
    ensures Wrap(0 - count) == if count == INT64_MIN then INT64_MIN else 0 - count
  {
    var c: int := count;
    assert IsInt64(c);
    assert c == INT64_MIN ==> (0 - c - INT64_MIN) % TWO_64 == 0;
  }

  /** The promise is kept for every count but the smallest int64, and for that one exactly when there is
      nothing to remove. */
  lemma RemKeepsPromise(s: seq<string>, v: string, count: Int64)
    ensures Rem(s, v, count) == RemPromised(s, v, count) <==> count > INT64_MIN || v !in s
  {
    NegateWraps(count);
    if count == INT64_MIN {
      PromisedLength(s, v, count);
      if v in s {
        CountPositive(s, v);
      } else {
        DropNothing(Reverse(s), v, 0 - count);
        ReverseTwice(s);
      }
    }
  }

  /** For instance, nothing is removed here, where the one occurrence should be. */
  lemma LeastCountKeeps()
    ensures Rem(["a"], "a", INT64_MIN) == ["a"] && RemPromised(["a"], "a", INT64_MIN) == []
  {
    NegateWraps(INT64_MIN);
    assert Reverse(["a"]) == ["a"] && ["a"][1..] == [];
    assert DropFirst(["a"], "a", -INT64_MIN) == [];
  }

  /** How many occurrences LREM has to remove. */
  function Removable(s: seq<string>, v: string, count: int): nat {
    var limit := if count < 0 then -count else count;
    if count == 0 || limit > Count(s, v) then Count(s, v) else limit
  }

  lemma {:induction false} DropFirstCounts(s: seq<string>, v: string, k: nat)
    ensures |DropFirst(s, v, k)| + (if k < Count(s, v) then k else Count(s, v)) == |s|
  {
    if s != [] {
      DropFirstCounts(s[1..], v, if s[0] == v && k > 0 then k - 1 else k);
    }
  }

  lemma {:induction false} DropNothing(s: seq<string>, v: string, k: nat)
    requires v !in s
    ensures DropFirst(s, v, k) == s
  {
    if s != [] {
      DropNothing(s[1..], v, k);
    }
  }

  lemma {:induction false} CountPositive(s: seq<string>, v: string)
    requires v in s
    ensures Count(s, v) > 0
  {
    if s[0] != v {
      CountPositive(s[1..], v);
    }
  }

  lemma {:induction false} CountReverse(s: seq<string>, v: string)
    ensures Count(Reverse(s), v) == Count(s, v)
  {
    if s != [] {
      CountReverse(s[1..], v);
      assert s == [s[0]] + s[1..];
      ReverseSplit([s[0]], s[1..]);
      CountConcat(Reverse(s[1..]), [s[0]], v);
      assert Reverse([s[0]]) == [s[0]];
    }
  }

  // ---- which elements survive, position by position

  /** The elements of `s` whose mark is set, in order. */
  function Marked(s: seq<string>, keep: seq<bool>): seq<string>
    requires |s| == |keep|
  {
    if s == [] then [] else (if keep[0] then [s[0]] else []) + Marked(s[1..], keep[1..])
  }

  /** An element goes only if it equals `v` and fewer than `k` equal ones stand before it. */
  function HeadMarks(s: seq<string>, v: string, k: nat): (m: seq<bool>)
    ensures |m| == |s|
  {
    seq(|s|, i requires 0 <= i < |s| => s[i] != v || Count(s[..i], v) >= k)
  }

  /** An element goes only if it equals `v` and fewer than `k` equal ones stand after it. */
  function TailMarks(s: seq<string>, v: string, k: nat): (m: seq<bool>)
    ensures |m| == |s|
  {
    seq(|s|, i requires 0 <= i < |s| => s[i] != v || Count(s[i + 1..], v) >= k)
  }

  lemma {:induction false} HeadSurvivors(s: seq<string>, v: string, k: nat)
    ensures DropFirst(s, v, k) == Marked(s, HeadMarks(s, v, k))
  {
    if s != [] {
      var k' := if s[0] == v && k > 0 then k - 1 else k;
      HeadSurvivors(s[1..], v, k');
      var m, m' := HeadMarks(s, v, k), HeadMarks(s[1..], v, k');
      assert s[..0] == [];
      forall i | 0 <= i < |m'| ensures m[1..][i] == m'[i] {
        assert s[..i + 1] == [s[0]] + s[1..][..i];
      }
      assert m[1..] == m';
    }
  }

  lemma {:induction false} MarkedSnoc(s: seq<string>, keep: seq<bool>, x: string, b: bool)
    requires |s| == |keep|
    ensures Marked(s + [x], keep + [b]) == Marked(s, keep) + (if b then [x] else [])
  {
    if s != [] {
      assert (s + [x])[1..] == s[1..] + [x] && (keep + [b])[1..] == keep[1..] + [b];
      MarkedSnoc(s[1..], keep[1..], x, b);
    }
  }

  lemma {:induction false} MarkedReverse(s: seq<string>, keep: seq<bool>)
    requires |s| == |keep|
    ensures Marked(Reverse(s), Reverse(keep)) == Reverse(Marked(s, keep))
  {
    if s != [] {
      MarkedReverse(s[1..], keep[1..]);
      MarkedSnoc(Reverse(s[1..]), Reverse(keep[1..]), s[0], keep[0]);
      assert Reverse(s) == Reverse(s[1..]) + [s[0]] && Reverse(keep) == Reverse(keep[1..]) + [keep[0]];
      ReverseSplit(if keep[0] then [s[0]] else [], Marked(s[1..], keep[1..]));
    }
  }

  /** Dropping from the tail: reversing, dropping and reversing back keeps the order of the survivors. */
  lemma TailSurvivors(s: seq<string>, v: string, k: nat)
    ensures Reverse(DropFirst(Reverse(s), v, k)) == Marked(s, TailMarks(s, v, k))
  {
    hide DropFirst, Marked, Count;
    var r, m := Reverse(s), TailMarks(s, v, k);
    HeadSurvivors(r, v, k);
    forall i | 0 <= i < |s| ensures HeadMarks(r, v, k)[i] == Reverse(m)[i] {
      var j := |s| - 1 - i;
      assert r[..i] == Reverse(s[j + 1..]);
      CountReverse(s[j + 1..], v);
    }
    assert HeadMarks(r, v, k) == Reverse(m);
    MarkedReverse(s, m);
    ReverseTwice(Marked(s, m));
  }

  /** What LREM leaves, by the marks alone: with a positive count the elements that are not among the first
      `count` occurrences, with a negative one those that are not among the last ones, with 0 the others. */
  lemma RemSurvivors(s: seq<string>, v: string, count: Int64)
    requires count > INT64_MIN
    ensures count > 0 ==> Rem(s, v, count) == Marked(s, HeadMarks(s, v, count))
    ensures count < 0 ==> Rem(s, v, count) == Marked(s, TailMarks(s, v, 0 - count))
    ensures count == 0 ==> Rem(s, v, count) == Marked(s, seq(|s|, i requires 0 <= i < |s| => s[i] != v))
  {
    hide Marked, HeadMarks, TailMarks, DropFirst, Reverse, Wrap;
    NegateWraps(count);
    if count > 0 {
      HeadSurvivors(s, v, count);
    } else if count < 0 {
      TailSurvivors(s, v, 0 - count);
    } else {
      HeadSurvivors(s, v, |s|);
      OtherMarks(s, v);
    }
  }

  lemma OtherMarks(s: seq<string>, v: string)
    ensures HeadMarks(s, v, |s|) == seq(|s|, i requires 0 <= i < |s| => s[i] != v)
  {
    forall i | 0 <= i < |s| ensures HeadMarks(s, v, |s|)[i] == (s[i] != v) {
      assert Count(s[..i], v) <= i;
    }
  }

  /** For instance on a list with one occurrence at each end. */
  lemma RemFromBothEnds()
    ensures Rem(["a", "b", "a"], "a", 1) == ["b", "a"] && Rem(["a", "b", "a"], "a", -1) == ["a", "b"]
    ensures Rem(["a", "b", "a"], "a", 0) == ["b"]
  {
    hide Wrap;
    var s := ["a", "b", "a"];
    NegateWraps(-1);
    assert Reverse(s) == s && Reverse(["b", "a"]) == ["a", "b"];
    DropStep(s, "a", 1);
    DropStep(["b", "a"], "a", 0);
    DropStep(["a"], "a", 0);
    DropStep(s, "a", 3);
    DropStep(["b", "a"], "a", 2);
    DropStep(["a"], "a", 2);
    assert s[1..] == ["b", "a"] && ["b", "a"][1..] == ["a"] && ["a"][1..] == [];
    assert DropFirst([], "a", 0) == [] && DropFirst([], "a", 1) == [];
  }

  lemma DropStep(s: seq<string>, v: string, k: nat)
    requires s != []
    ensures DropFirst(s, v, k)
         == if s[0] == v && k > 0 then DropFirst(s[1..], v, k - 1) else [s[0]] + DropFirst(s[1..], v, k)
  {
  }

  // ---- the loops

  lemma {:induction false} DropSnoc(s: seq<string>, x: string, v: string, k: nat)
    ensures DropFirst(s + [x], v, k) == if x == v && Count(s, v) < k then DropFirst(s, v, k) else DropFirst(s, v, k) + [x]
  {
    if s != [] {
      assert (s + [x])[1..] == s[1..] + [x];
      DropSnoc(s[1..], x, v, if s[0] == v && k > 0 then k - 1 else k);
    } else {
      assert (s + [x])[1..] == [];
    }
  }

  /** The counted filter of LREM into `result[..m]`; a limit of 0 is no limit, a negative one lets nothing go. */
  method Filter(all: array<string>, value: string, limit: int) returns (result: array<string>, m: nat, removed: nat)
    ensures fresh(result) && m <= result.Length && m + removed == all.Length
    ensures result[..m] == if limit < 0 then all[..] else DropFirst(all[..], value, if limit == 0 then all.Length else limit)
  {
    result := new string[all.Length](_ => "");
    m, removed := 0, 0;
    ghost var k := if limit == 0 then all.Length else limit;
    for i := 0 to all.Length
      invariant m + removed == i && all[..] == old(all[..])
      invariant limit < 0 ==> removed == 0 && result[..m] == all[..i]
      invariant limit >= 0 ==> result[..m] == DropFirst(all[..i], value, k)
      invariant limit >= 0 ==> removed == if Count(all[..i], value) < k then Count(all[..i], value) else k
    {
      var v := all[i];
      assert all[..i + 1] == all[..i] + [v];
      CountConcat(all[..i], [v], value);
      if limit >= 0 {
        DropSnoc(all[..i], v, value, k);
      }
      if v == value && (limit == 0 || removed < limit) {
        removed := removed + 1;
      } else {
        result[m] := v;
        m := m + 1;
      }
    }
    assert all[..all.Length] == all[..];
  }

  /** The body of LREM between reading the list and rewriting it. */
  method RemoveValue(all: array<string>, count: Int64, value: string) returns (result: array<string>, m: nat, removed: nat)
    modifies all
    ensures fresh(result) && m <= result.Length
    ensures result[..m] == Rem(old(all[..]), value, count)
    ensures removed == |old(all[..])| - m
  {
    var fromTail := count < 0;
    var limit := count;
    ghost var was := all[..];
    NegateWraps(count);
    if fromTail {
      limit := Wrap(0 - count);
      ReverseInPlace(all, all.Length);
      assert all[..all.Length] == all[..] && old(all[..all.Length]) == was;
    }
    result, m, removed := Filter(all, value, limit);
    if fromTail {
      ghost var kept := result[..m];
      ReverseInPlace(result, m);
      assert result[..m] == Reverse(kept);
      TailCase(was, value, count, limit, kept);
    }
  }

  lemma TailCase(s: seq<string>, v: string, count: Int64, limit: Int64, kept: seq<string>)
    requires count < 0 && limit == Wrap(0 - count)
    requires kept == if limit < 0 then Reverse(s) else DropFirst(Reverse(s), v, if limit == 0 then |s| else limit)
    ensures Reverse(kept) == Rem(s, v, count)
  {
    NegateWraps(count);
    ReverseTwice(s);
  }
}
