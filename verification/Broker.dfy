/** Who is subscribed to what: the meaning of the broker's operations, over whole traces. */
module Channels {
  import opened Sequences

  /** The identity of a subscriber. */
  type Sub = nat

  type Subs = map<string, seq<Sub>>

  function Of(b: Subs, ch: string): seq<Sub> {
    if ch in b then b[ch] else []
  }

  function RemoveFirst(s: seq<Sub>, target: Sub): seq<Sub> {
    if s == [] then [] else if s[0] == target then s[1..] else [s[0]] + RemoveFirst(s[1..], target)
  }

  /** A channel is in the map only while somebody is subscribed to it. */
  function Set(b: Subs, ch: string, s: seq<Sub>): Subs {
    if s == [] then b - {ch} else b[ch := s]
  }

  function Subscribed(b: Subs, ch: string, sub: Sub): Subs {
    Set(b, ch, Of(b, ch) + [sub])
  }

  /** The empty channel name stands for all channels. */
  function Unsubscribed(b: Subs, ch: string, sub: Sub): Subs {
    if ch == "" then map c | c in b && RemoveFirst(b[c], sub) != [] :: RemoveFirst(b[c], sub)
    else Set(b, ch, RemoveFirst(Of(b, ch), sub))
  }

  ghost predicate NoEmptyChannel(b: Subs) {
    forall ch :: ch in b ==> b[ch] != []
  }

  // ---------------------------------------------------------------- multiplicities

  lemma {:induction false} CountRemoved(s: seq<Sub>, target: Sub, sub: Sub)
    ensures Count(RemoveFirst(s, target), sub)
         == if sub == target && Count(s, sub) > 0 then Count(s, sub) - 1 else Count(s, sub)
  {
    if s != [] && s[0] != target {
      CountRemoved(s[1..], target, sub);
      assert ([s[0]] + RemoveFirst(s[1..], target))[1..] == RemoveFirst(s[1..], target);
    }
  }

  /** How often `sub` is subscribed to `ch`. */
  function Mult(b: Subs, ch: string, sub: Sub): nat {
    Count(Of(b, ch), sub)
  }

  datatype Act = Subscribe(ch: string, sub: Sub) | Unsubscribe(ch: string, sub: Sub)

  function Apply(b: Subs, act: Act): Subs {
    match act
    case Subscribe(ch, sub) => Subscribed(b, ch, sub)
    case Unsubscribe(ch, sub) => Unsubscribed(b, ch, sub)
  }

  /** What one operation does to the count of one subscriber on one channel. */
  function CountAfter(n: nat, act: Act, ch: string, sub: Sub): nat {
    if act.sub != sub then n
    else
      match act
      case Subscribe(c, _) => if c == ch then n + 1 else n
      case Unsubscribe(c, _) => if (c == ch || c == "") && n > 0 then n - 1 else n
  }

  lemma ActCounts(b: Subs, act: Act, ch: string, sub: Sub)
    requires NoEmptyChannel(b)
    ensures NoEmptyChannel(Apply(b, act))
    ensures Mult(Apply(b, act), ch, sub) == CountAfter(Mult(b, ch, sub), act, ch, sub)
  {
    match act {
      case Subscribe(c, s) =>
        CountConcat(Of(b, c), [s], sub);
      case Unsubscribe(c, s) =>
        CountRemoved(Of(b, ch), s, sub);
    }
  }

  function ApplyAll(b: Subs, acts: seq<Act>): Subs
    decreases |acts|
  {
    if acts == [] then b else ApplyAll(Apply(b, acts[0]), acts[1..])
  }

  function CountAll(n: nat, acts: seq<Act>, ch: string, sub: Sub): nat
    decreases |acts|
  {
    if acts == [] then n else CountAll(CountAfter(n, acts[0], ch, sub), acts[1..], ch, sub)
  }

  /** Over any trace, each multiplicity follows the trace alone and no channel is left empty. */
  lemma {:induction false} TraceCounts(b: Subs, acts: seq<Act>, ch: string, sub: Sub)
    requires NoEmptyChannel(b)
    ensures NoEmptyChannel(ApplyAll(b, acts))
    ensures Mult(ApplyAll(b, acts), ch, sub) == CountAll(Mult(b, ch, sub), acts, ch, sub)
    decreases |acts|
  {
    if acts != [] {
      ActCounts(b, acts[0], ch, sub);
      TraceCounts(Apply(b, acts[0]), acts[1..], ch, sub);
    }
  }

  /** Unsubscribing from all channels, as on disconnect, takes one subscription per channel. It leaves none,
      and its reply of 0 is the remaining count, exactly when no channel was subscribed twice. */
  lemma UnsubscribeAllLeaves(b: Subs, sub: Sub)
    requires NoEmptyChannel(b)
    ensures (forall ch :: Mult(Unsubscribed(b, "", sub), ch, sub) == 0) <==> (forall ch :: Mult(b, ch, sub) <= 1)
  {
    forall ch ensures Mult(Unsubscribed(b, "", sub), ch, sub) == 0 <==> Mult(b, ch, sub) <= 1 {
      ActCounts(b, Unsubscribe("", sub), ch, sub);
    }
  }

  /** For instance, of two subscriptions to one channel one is left. */
  lemma OneLeft()
    ensures Unsubscribed(map["a" := [1, 1]], "", 1) == map["a" := [1]]
    ensures Subscribed(Subscribed(map[], "a", 1), "a", 1) == map["a" := [1, 1]]
  {
    assert RemoveFirst([1, 1], 1) == [1, 1][1..] == [1];
    var none: Subs := map[];
    assert Of(none, "a") + [1] == [1];
    assert Subscribed(none, "a", 1) == map["a" := [1]];
    assert Of(map["a" := [1]], "a") + [1] == [1, 1];
    assert Subscribed(map["a" := [1]], "a", 1) == map["a" := [1, 1]];
    forall c ensures c in Unsubscribed(map["a" := [1, 1]], "", 1) <==> c == "a" {
    }
  }

  /** A subscriber that is nowhere subscribed is not missed. */
  lemma {:induction false} RemoveAbsent(s: seq<Sub>, sub: Sub)
    requires Count(s, sub) == 0
    ensures RemoveFirst(s, sub) == s
  {
    if s != [] {
      RemoveAbsent(s[1..], sub);
    }
  }

  lemma UnsubscribeAbsent(b: Subs, sub: Sub)
    requires NoEmptyChannel(b) && forall ch :: Mult(b, ch, sub) == 0
    ensures Unsubscribed(b, "", sub) == b
  {
    forall ch | ch in b ensures RemoveFirst(b[ch], sub) == b[ch] {
      assert Mult(b, ch, sub) == 0;
      RemoveAbsent(b[ch], sub);
    }
  }

  // ---------------------------------------------------------------- the subscription count of a subscriber

  ghost function Total(b: Subs, chs: set<string>, sub: Sub): nat
    decreases |chs|
  {
    if chs == {} then 0
    else
      var ch :| ch in chs;
      Mult(b, ch, sub) + Total(b, chs - {ch}, sub)
  }

  lemma NoTotal(b: Subs, none: set<string>, sub: Sub)
    requires none == {}
    ensures Total(b, none, sub) == 0
  {
  }

  lemma {:induction false} TotalRemove(b: Subs, chs: set<string>, sub: Sub, ch: string)
    requires ch in chs
    ensures Total(b, chs, sub) == Mult(b, ch, sub) + Total(b, chs - {ch}, sub)
    decreases |chs|
  {
    var c :| c in chs && Total(b, chs, sub) == Mult(b, c, sub) + Total(b, chs - {c}, sub);
    if c != ch {
      TotalRemove(b, chs - {c}, sub, ch);
      assert chs - {c} - {ch} == chs - {ch} - {c};
      TotalRemove(b, chs - {ch}, sub, c);
    }
  }

  /** The count depends on the subscriptions to the channels alone. */
  lemma {:induction false} SameTotal(b: Subs, b': Subs, chs: set<string>, sub: Sub)
    requires forall ch :: ch in chs ==> Mult(b, ch, sub) == Mult(b', ch, sub)
    ensures Total(b, chs, sub) == Total(b', chs, sub)
    decreases |chs|
  {
    if chs == {} {
      NoTotal(b, chs, sub);
      NoTotal(b', chs, sub);
    } else {
      var ch :| ch in chs;
      TotalRemove(b, chs, sub, ch);
      TotalRemove(b', chs, sub, ch);
      SameTotal(b, b', chs - {ch}, sub);
    }
  }

  /** Adding a channel without subscriptions of `sub` does not change its count. */
  lemma TotalApart(b: Subs, ch: string, sub: Sub)
    ensures Total(b, b.Keys, sub) == Mult(b, ch, sub) + Total(b, b.Keys - {ch}, sub)
  {
    if ch in b {
      TotalRemove(b, b.Keys, sub, ch);
    } else {
      assert b.Keys - {ch} == b.Keys;
    }
  }

  /** Subscribing adds one to what the reply counts, and unsubscribing from a channel takes one away where
      there is one. */
  lemma TotalFollows(b: Subs, ch: string, sub: Sub)
    requires NoEmptyChannel(b)
    ensures var b' := Subscribed(b, ch, sub); Total(b', b'.Keys, sub) == Total(b, b.Keys, sub) + 1
    ensures ch != "" ==>
      var b' := Unsubscribed(b, ch, sub);
      Total(b', b'.Keys, sub) == Total(b, b.Keys, sub) - if Mult(b, ch, sub) > 0 then 1 else 0
  {
    hide Total, Mult, NoEmptyChannel;
    ActCounts(b, Subscribe(ch, sub), ch, sub);
    ActCounts(b, Unsubscribe(ch, sub), ch, sub);
    TotalElsewhere(b, Subscribe(ch, sub), sub);
    if ch != "" {
      TotalElsewhere(b, Unsubscribe(ch, sub), sub);
    }
    TotalApart(b, ch, sub);
    TotalApart(Subscribed(b, ch, sub), ch, sub);
    TotalApart(Unsubscribed(b, ch, sub), ch, sub);
  }

  lemma TotalElsewhere(b: Subs, act: Act, sub: Sub)
    requires NoEmptyChannel(b) && (act.ch != "" || act.Subscribe?)
    ensures Total(Apply(b, act), Apply(b, act).Keys - {act.ch}, sub) == Total(b, b.Keys - {act.ch}, sub)
  {
    hide Total, Mult, NoEmptyChannel;
    forall ch | ch != act.ch ensures Mult(Apply(b, act), ch, sub) == Mult(b, ch, sub) {
      ActCounts(b, act, ch, sub);
    }
    assert Apply(b, act).Keys - {act.ch} == b.Keys - {act.ch};
    SameTotal(Apply(b, act), b, b.Keys - {act.ch}, sub);
  }

  /** Subscribers are served in the order in which they came: a new one stands last, and the one that leaves is
      the first of its kind, the others keeping their places. */
  lemma OrderOfService(b: Subs, ch: string, sub: Sub, c: string)
    requires NoEmptyChannel(b)
    ensures Of(Subscribed(b, ch, sub), c) == Of(b, c) + if c == ch then [sub] else []
    ensures var s, i := Of(b, c), IndexOf(Of(b, c), sub);
      Of(Unsubscribed(b, ch, sub), c) == if (ch == c || ch == "") && i < |s| then s[..i] + s[i + 1..] else s
  {
    RemovedAt(Of(b, c), sub);
  }

  lemma {:induction false} RemovedAt(s: seq<Sub>, target: Sub)
    ensures var i := IndexOf(s, target);
      RemoveFirst(s, target) == if i == |s| then s else s[..i] + s[i + 1..]
  {
    if s != [] && s[0] != target {
      RemovedAt(s[1..], target);
      var i := IndexOf(s[1..], target);
      assert s[1..][..i] == s[..i + 1][1..];
    }
  }

  // ---------------------------------------------------------------- publishing in two phases

  datatype Delivery = Delivery(flight: nat, sub: Sub, ch: string, message: string)

  /** A publish under way: the copy it took under the lock, and how many it has delivered. */
  datatype Flight = Flight(ch: string, message: string, snapshot: seq<Sub>, sent: nat)

  datatype System = System(subs: Subs, flights: map<nat, Flight>, log: seq<Delivery>)

  datatype Move = Change(act: Act) | Snap(flight: nat, ch: string, message: string) | Deliver(flight: nat)

  /** The atomic steps that goroutines can interleave; a step that is not enabled changes nothing. */
  function Next(s: System, m: Move): System {
    match m
    case Change(act) => s.(subs := Apply(s.subs, act))
    case Snap(p, ch, message) =>
      if p in s.flights then s
      else s.(flights := s.flights[p := Flight(ch, message, Of(s.subs, ch), 0)])
    case Deliver(p) =>
      if p !in s.flights || s.flights[p].sent >= |s.flights[p].snapshot| then s
      else
        var f := s.flights[p];
        s.(flights := s.flights[p := f.(sent := f.sent + 1)],
           log := s.log + [Delivery(p, f.snapshot[f.sent], f.ch, f.message)])
  }

  function Moves(s: System, ms: seq<Move>): System
    decreases |ms|
  {
    if ms == [] then s else Moves(Next(s, ms[0]), ms[1..])
  }

  /** What a flight has delivered, in order. */
  function DeliveredBy(log: seq<Delivery>, p: nat): seq<Delivery> {
    if log == [] then []
    else
      var last := log[|log| - 1];
      DeliveredBy(log[..|log| - 1], p) + if last.flight == p then [last] else []
  }

  function Expected(p: nat, f: Flight): seq<Delivery>
    requires f.sent <= |f.snapshot|
  {
    seq(f.sent, i requires 0 <= i < f.sent => Delivery(p, f.snapshot[i], f.ch, f.message))
  }

  /** The flight has sent the first `sent` of its snapshot and nothing else. */
  ghost predicate OnTrack(s: System, p: nat) {
    if p in s.flights then
      s.flights[p].sent <= |s.flights[p].snapshot| && DeliveredBy(s.log, p) == Expected(p, s.flights[p])
    else DeliveredBy(s.log, p) == []
  }

  /** A flight stays what it is; only its progress changes. */
  ghost predicate SameFlight(s: System, s': System, p: nat) {
    p in s.flights ==>
      p in s'.flights && s'.flights[p].(sent := s.flights[p].sent) == s.flights[p]
  }

  lemma NextOnTrack(s: System, m: Move, p: nat)
    requires OnTrack(s, p)
    ensures OnTrack(Next(s, m), p)
    ensures SameFlight(s, Next(s, m), p)
  {
    if m.Deliver? && Next(s, m) != s {
      var log := Next(s, m).log;
      assert log[..|log| - 1] == s.log;
      if m.flight == p {
        var f := s.flights[p];
        assert Expected(p, f.(sent := f.sent + 1))
            == Expected(p, f) + [Delivery(p, f.snapshot[f.sent], f.ch, f.message)];
      }
    }
  }

  lemma {:induction false} MovesOnTrack(s: System, ms: seq<Move>, p: nat)
    requires OnTrack(s, p)
    ensures OnTrack(Moves(s, ms), p)
    ensures SameFlight(s, Moves(s, ms), p)
    decreases |ms|
  {
    if ms != [] {
      NextOnTrack(s, ms[0], p);
      MovesOnTrack(Next(s, ms[0]), ms[1..], p);
    }
  }

  /** The operations among the moves. */
  function Changes(ms: seq<Move>): seq<Act> {
    if ms == [] then [] else (if ms[0].Change? then [ms[0].act] else []) + Changes(ms[1..])
  }

  /** Publishing leaves the subscriptions alone, so they follow the trace of the operations. */
  lemma MovesCount(s: System, ms: seq<Move>, ch: string, sub: Sub)
    requires NoEmptyChannel(s.subs)
    ensures Moves(s, ms).subs == ApplyAll(s.subs, Changes(ms)) && NoEmptyChannel(Moves(s, ms).subs)
    ensures Mult(Moves(s, ms).subs, ch, sub) == CountAll(Mult(s.subs, ch, sub), Changes(ms), ch, sub)
  {
    MovesApply(s, ms);
    TraceCounts(s.subs, Changes(ms), ch, sub);
  }

  lemma {:induction false} MovesApply(s: System, ms: seq<Move>)
    ensures Moves(s, ms).subs == ApplyAll(s.subs, Changes(ms))
    decreases |ms|
  {
    hide Apply;
    if ms != [] {
      var rest := Changes(ms[1..]);
      if ms[0].Change? {
        assert ([ms[0].act] + rest)[0] == ms[0].act && ([ms[0].act] + rest)[1..] == rest;
      } else {
        assert [] + rest == rest;
      }
      MovesApply(Next(s, ms[0]), ms[1..]);
    }
  }

  /** Whatever is interleaved after the copy is taken, a publish that has finished has delivered its message
      to exactly the subscribers of that moment, each as often as it was subscribed. */
  lemma PublishDeliversSnapshot(s: System, p: nat, ch: string, message: string, ms: seq<Move>)
    requires p !in s.flights && OnTrack(s, p)
    ensures var s' := Moves(Next(s, Snap(p, ch, message)), ms);
      && p in s'.flights
      && (s'.flights[p].sent == |Of(s.subs, ch)|
          ==> DeliveredBy(s'.log, p) == Expected(p, Flight(ch, message, Of(s.subs, ch), |Of(s.subs, ch)|)))
  {
    var s1 := Next(s, Snap(p, ch, message));
    NextOnTrack(s, Snap(p, ch, message), p);
    MovesOnTrack(s1, ms, p);
  }
}

/** The broker object: slices of shared arrays, compacted in place. */
module Broker {
  import opened Sequences
  import opened Channels

  /** A Go slice from the start of its array: the first `len` elements of `buf`. */
  datatype Slice = Slice(buf: array<Sub>, len: nat)

  /** What a slice shows after the compaction of its array, if it is read at its old length: the elements
      after the removed one have moved up, and the last one is there twice. */
  function Overwritten(s: seq<Sub>, target: Sub): seq<Sub> {
    if target in s then RemoveFirst(s, target) + [s[|s| - 1]] else s
  }

  /** removeOne: the result is written over the array being read. */
  method RemoveOne(buf: array<Sub>, n: nat, target: Sub) returns (m: nat)
    requires n <= buf.Length
    modifies buf
    ensures m <= n && buf[..m] == RemoveFirst(old(buf[..n]), target)
    ensures buf[..n] == Overwritten(old(buf[..n]), target)
  {
    hide RemoveFirst, Overwritten;
    m := 0;
    var removed := false;
    ghost var was := buf[..n];
    NothingRead(target);
    for i := 0 to n
      invariant m <= i && (if removed then m == i - 1 else m == i)
      invariant forall k :: (if removed then i - 1 else i) <= k < n ==> buf[k] == was[k]
      invariant removed ==> buf[..m] == RemoveFirst(was[..i], target) && target in was[..i]
      invariant !removed ==> buf[..m] == was[..i] && target !in was[..i]
    {
      var s := buf[i];
      assert was[..i + 1] == was[..i] + [s];
      RemoveSnoc(was[..i], s, target);
      if !removed && s == target {
        removed := true;
      } else {
        buf[m] := s;
        m := m + 1;
      }
    }
    assert was[..n] == was;
    if removed {
      assert buf[..n] == buf[..m] + [buf[m]];
    } else {
      RemoveNothing(was, target);
    }
    OverwrittenIs(was, target);
  }

  lemma NothingRead(target: Sub)
    ensures RemoveFirst([], target) == []
  {
  }

  lemma OverwrittenIs(s: seq<Sub>, target: Sub)
    ensures Overwritten(s, target) == if target in s then RemoveFirst(s, target) + [s[|s| - 1]] else s
  {
  }

  lemma {:induction false} RemoveSnoc(s: seq<Sub>, x: Sub, target: Sub)
    ensures RemoveFirst(s + [x], target)
         == if target in s then RemoveFirst(s, target) + [x] else if x == target then s else s + [x]
  {
    if s != [] {
      assert (s + [x])[1..] == s[1..] + [x];
      RemoveSnoc(s[1..], x, target);
    }
  }

  lemma {:induction false} RemoveNothing(s: seq<Sub>, target: Sub)
    requires target !in s
    ensures RemoveFirst(s, target) == s
  {
    if s != [] {
      RemoveNothing(s[1..], target);
    }
  }

  class Broker {
    var subs: map<string, Slice>

    ghost function Bufs(): set<object>
      reads this
    {
      set ch | ch in subs :: subs[ch].buf
    }

    /** No slice is empty and no two channels share an array. */
    ghost predicate Valid()
      reads this
    {
      && (forall ch :: ch in subs ==> 0 < subs[ch].len <= subs[ch].buf.Length)
      && (forall c, d :: c in subs && d in subs && c != d ==> subs[c].buf != subs[d].buf)
    }

    ghost function View(): Subs
      reads this, Bufs()
      requires Valid()
    {
      map ch | ch in subs :: subs[ch].buf[..subs[ch].len]
    }

    constructor ()
      ensures Valid() && View() == map[] && Bufs() == {}
    {
      subs := map[];
    }

    /** The subscribers of one channel. */
    ghost function At(ch: string): seq<Sub>
      reads this, Bufs()
      requires Valid() && ch in subs
    {
      subs[ch].buf[..subs[ch].len]
    }

    /** append with room left: the array is written in place. */
    method AppendInPlace(ch: string, sub: Sub)
      requires Valid() && ch in subs && subs[ch].len < subs[ch].buf.Length
      modifies this, subs[ch].buf
      ensures Valid() && Bufs() == old(Bufs()) && subs.Keys == old(subs).Keys
      ensures At(ch) == old(At(ch)) + [sub]
      ensures forall c :: c in subs && c != ch ==> At(c) == old(At(c))
    {
      var s := subs[ch];
      s.buf[s.len] := sub;
      subs := subs[ch := s.(len := s.len + 1)];
      assert forall c :: c in subs ==> subs[c].buf == old(subs)[c].buf;
    }

    /** append without room: the elements move to a bigger array. */
    method AppendGrown(ch: string, sub: Sub)
      requires Valid()
      modifies this
      ensures Valid() && fresh(Bufs() - old(Bufs())) && subs.Keys == old(subs).Keys + {ch}
      ensures At(ch) == (if ch in old(subs) then old(At(ch)) else []) + [sub]
      ensures forall c :: c in subs && c != ch ==> At(c) == old(At(c))
    {
      var had := if ch in subs then subs[ch].buf[..subs[ch].len] else [];
      var bigger := Extended(had, sub);
      subs := subs[ch := Slice(bigger, |had| + 1)];
    }

    /** append(b.subs[ch], sub). */
    method Append(ch: string, sub: Sub)
      requires Valid()
      modifies this, Bufs()
      ensures Valid() && fresh(Bufs() - old(Bufs()))
      ensures View() == Subscribed(old(View()), ch, sub)
    {
      hide Subscribed, Set;
      ghost var was := View();
      if ch in subs && subs[ch].len < subs[ch].buf.Length {
        AppendInPlace(ch, sub);
      } else {
        AppendGrown(ch, sub);
      }
      SubscribedIs(was, View(), ch, sub);
    }

    method Subscribe(ch: string, sub: Sub) returns (n: nat)
      requires Valid()
      modifies this, Bufs()
      ensures Valid() && fresh(Bufs() - old(Bufs()))
      ensures View() == Subscribed(old(View()), ch, sub)
      ensures n == Total(View(), View().Keys, sub)
    {
      hide Total;
      Append(ch, sub);
      n := CountForSub(sub);
    }

    /** Compaction of one channel, and its removal when nobody is left. */
    method Compact(ch: string, sub: Sub)
      requires Valid() && ch in subs
      modifies this, subs[ch].buf
      ensures Valid() && Bufs() <= old(Bufs())
      ensures subs.Keys == if RemoveFirst(old(At(ch)), sub) == [] then old(subs).Keys - {ch} else old(subs).Keys
      ensures ch in subs ==> At(ch) == RemoveFirst(old(At(ch)), sub)
      ensures old(subs)[ch].buf[..old(subs)[ch].len] == Overwritten(old(At(ch)), sub)
      ensures forall c :: c in subs && c != ch ==> At(c) == old(At(c)) && subs[c] == old(subs)[c]
    {
      hide RemoveFirst, Overwritten;
      var s := subs[ch];
      var m := RemoveOne(s.buf, s.len, sub);
      if m == 0 {
        subs := subs - {ch};
      } else {
        subs := subs[ch := s.(len := m)];
      }
      assert forall c :: c in subs ==> subs[c].buf == old(subs)[c].buf;
    }

    method Leave(ch: string, sub: Sub)
      requires Valid() && ch in subs
      modifies this, subs[ch].buf
      ensures Valid() && Bufs() <= old(Bufs())
      ensures View() == Set(old(View()), ch, RemoveFirst(old(View())[ch], sub))
      ensures old(subs)[ch].buf[..old(subs)[ch].len] == Overwritten(old(View())[ch], sub)
      ensures subs.Keys <= old(subs).Keys
      ensures forall c :: c in old(subs) && c != ch ==> c in subs && subs[c] == old(subs)[c]
    {
      hide RemoveFirst, Set, Overwritten;
      ghost var was := View();
      Compact(ch, sub);
      SetIs(was, View(), ch, RemoveFirst(was[ch], sub));
    }

    method Unsubscribe(ch: string, sub: Sub) returns (n: nat)
      requires Valid()
      modifies this, Bufs()
      ensures Valid() && Bufs() <= old(Bufs())
      ensures View() == Unsubscribed(old(View()), ch, sub)
      ensures n == if ch == "" then 0 else Total(View(), View().Keys, sub)
    {
      if ch == "" {
        LeaveAll(sub);
        return 0;
      }
      if ch in subs {
        Leave(ch, sub);
      } else {
        assert View() - {ch} == View();
      }
      n := CountForSub(sub);
    }

    /** The map is ranged over in any order while its entries change. */
    method LeaveAll(sub: Sub)
      requires Valid()
      modifies this, Bufs()
      ensures Valid() && Bufs() <= old(Bufs())
      ensures View() == Unsubscribed(old(View()), "", sub)
    {
      hide Set, RemoveFirst, Partly;
      ghost var was := View();
      var rest := subs.Keys;
      PartlyEnds(was, sub);
      assert rest == was.Keys;
      while rest != {}
        invariant Valid() && Bufs() <= old(Bufs()) && rest <= subs.Keys
        invariant View() == Partly(was, rest, sub) && rest <= was.Keys
        decreases |rest|
      {
        var ch :| ch in rest;
        PartlyOne(was, rest, sub, ch);
        Leave(ch, sub);
        rest := rest - {ch};
      }
    }

    /** countForSub: every occurrence on every channel. */
    method CountForSub(sub: Sub) returns (count: nat)
      requires Valid()
      ensures count == Total(View(), View().Keys, sub)
    {
      hide Total, Count;
      count := 0;
      var rest := subs.Keys;
      ghost var v := View();
      assert v.Keys == rest;
      while rest != {}
        invariant rest <= subs.Keys
        invariant Total(v, v.Keys, sub) == count + Total(v, rest, sub)
        decreases |rest|
      {
        var ch :| ch in rest;
        TotalRemove(v, rest, sub, ch);
        var s := subs[ch];
        var k := CountIn(s.buf[..s.len], sub);
        assert v[ch] == s.buf[..s.len];
        count := count + k;
        rest := rest - {ch};
      }
      NoTotal(v, rest, sub);
      assert View() == v;
    }

    /** make and copy, under the lock: an array of the publish's own. */
    method Snapshot(ch: string) returns (snap: array<Sub>)
      requires Valid()
      ensures fresh(snap) && snap[..] == Of(View(), ch) && snap !in Bufs()
    {
      var subscribers := if ch in subs then subs[ch].buf[..subs[ch].len] else [];
      snap := new Sub[|subscribers|](i requires 0 <= i < |subscribers| => subscribers[i]);
      assert snap[..] == subscribers == Of(View(), ch);
    }

    /** Publish, with nothing in between: copy the subscribers, then deliver to the copy. */
    method Publish(ch: string, message: string) returns (delivered: seq<(Sub, string, string)>, n: nat)
      requires Valid()
      ensures n == |Of(View(), ch)| == |delivered|
      ensures forall i :: 0 <= i < n ==> delivered[i] == (Of(View(), ch)[i], ch, message)
    {
      var snap := Snapshot(ch);
      delivered := [];
      for i := 0 to snap.Length
        invariant |delivered| == i && forall j :: 0 <= j < i ==> delivered[j] == (snap[..][j], ch, message)
      {
        delivered := delivered + [(snap[i], ch, message)];
      }
      n := snap.Length;
    }

    method Change(act: Act)
      requires Valid()
      modifies this, Bufs()
      ensures Valid() && fresh(Bufs() - old(Bufs()))
      ensures View() == Apply(old(View()), act)
    {
      match act {
        case Subscribe(ch, sub) => var _ := Subscribe(ch, sub);
        case Unsubscribe(ch, sub) => var _ := Unsubscribe(ch, sub);
      }
    }
  }

  // ---------------------------------------------------------------- publishing beside other operations

  /** A publish under way on the heap: the array it copied, and how far it has come. */
  datatype Copy = Copy(ch: string, message: string, snap: array<Sub>, sent: nat)

  ghost function Snaps(flights: map<nat, Copy>): set<object> {
    set p | p in flights :: flights[p].snap
  }

  /** The publishes as values. */
  ghost function Flying(flights: map<nat, Copy>): map<nat, Flight>
    reads Snaps(flights)
  {
    map p | p in flights :: Flight(flights[p].ch, flights[p].message, flights[p].snap[..], flights[p].sent)
  }

  ghost function State(b: Broker, flights: map<nat, Copy>, log: seq<Delivery>): System
    reads b, b.Bufs(), Snaps(flights)
    requires b.Valid()
  {
    System(b.View(), Flying(flights), log)
  }

  lemma FlyingPut(flights: map<nat, Copy>, p: nat, c: Copy)
    ensures Flying(flights[p := c]) == Flying(flights)[p := Flight(c.ch, c.message, c.snap[..], c.sent)]
  {
  }

  lemma SameSnaps(flights: map<nat, Copy>, flights': map<nat, Copy>)
    requires flights.Keys == flights'.Keys && forall p :: p in flights ==> flights[p].snap == flights'[p].snap
    ensures Snaps(flights) == Snaps(flights')
  {
    forall x: object ensures x in Snaps(flights) <==> x in Snaps(flights') {
      if x in Snaps(flights) {
        var p :| p in flights && flights[p].snap == x;
        assert flights'[p].snap == x;
      }
    }
  }

  /** The copying half of a publish. */
  method TakeCopy(b: Broker, flights: map<nat, Copy>, p: nat, ch: string, message: string)
    returns (flights': map<nat, Copy>)
    requires b.Valid() && Snaps(flights) !! b.Bufs()
    ensures fresh(Snaps(flights') - Snaps(flights)) && Snaps(flights') !! b.Bufs()
    ensures Flying(flights')
         == if p in flights then Flying(flights) else Flying(flights)[p := Flight(ch, message, Of(b.View(), ch), 0)]
  {
    flights' := flights;
    if p !in flights {
      var snap := b.Snapshot(ch);
      flights' := flights[p := Copy(ch, message, snap, 0)];
      FlyingPut(flights, p, Copy(ch, message, snap, 0));
    }
  }

  /** One delivery, from the copy. */
  method DeliverOne(flights: map<nat, Copy>, log: seq<Delivery>, p: nat)
    returns (flights': map<nat, Copy>, log': seq<Delivery>)
    ensures Snaps(flights') == Snaps(flights)
    ensures forall subs :: System(subs, Flying(flights'), log') == Next(System(subs, Flying(flights), log), Deliver(p))
  {
    flights', log' := flights, log;
    if p in flights && flights[p].sent < flights[p].snap.Length {
      var f := flights[p];
      log' := log + [Delivery(p, f.snap[f.sent], f.ch, f.message)];
      flights' := flights[p := f.(sent := f.sent + 1)];
      FlyingPut(flights, p, f.(sent := f.sent + 1));
      SameSnaps(flights, flights');
    }
  }

  /** One atomic step of some goroutine. */
  method Advance(b: Broker, flights: map<nat, Copy>, log: seq<Delivery>, m: Move)
    returns (flights': map<nat, Copy>, log': seq<Delivery>)
    requires b.Valid() && Snaps(flights) !! b.Bufs()
    modifies b, b.Bufs()
    ensures b.Valid() && fresh(b.Bufs() - old(b.Bufs()))
    ensures fresh(Snaps(flights') - Snaps(flights)) && Snaps(flights') !! b.Bufs()
    ensures State(b, flights', log') == Next(old(State(b, flights, log)), m)
  {
    hide Apply, Flying, Of;
    flights', log' := flights, log;
    match m {
      case Change(act) =>
        b.Change(act);
      case Snap(p, ch, message) =>
        SameKeys(flights);
        flights' := TakeCopy(b, flights, p, ch, message);
      case Deliver(p) =>
        flights', log' := DeliverOne(flights, log, p);
    }
  }

  lemma SameKeys(flights: map<nat, Copy>)
    ensures Flying(flights).Keys == flights.Keys
  {
  }

  /** Any interleaving of subscribing, unsubscribing, copying and delivering on the broker object, whose
      arrays are compacted and appended to in place while the copies are being delivered, is the interleaving
      on values. */
  method RunMoves(b: Broker, ms: seq<Move>) returns (flights: map<nat, Copy>, log: seq<Delivery>)
    requires b.Valid()
    modifies b, b.Bufs()
    ensures b.Valid() && fresh(b.Bufs() - old(b.Bufs())) && fresh(Snaps(flights))
    ensures State(b, flights, log) == Moves(System(old(b.View()), map[], []), ms)
  {
    hide Next;
    flights, log := map[], [];
    assert Flying(flights) == map[];
    assert ms[0..] == ms;
    ghost var all := Moves(State(b, flights, log), ms);
    for i := 0 to |ms|
      invariant b.Valid() && fresh(b.Bufs() - old(b.Bufs()))
      invariant fresh(Snaps(flights)) && Snaps(flights) !! b.Bufs()
      invariant all == Moves(State(b, flights, log), ms[i..])
    {
      assert ms[i..][0] == ms[i] && ms[i..][1..] == ms[i + 1..];
      flights, log := Advance(b, flights, log, ms[i]);
    }
  }

  // ---------------------------------------------------------------- why the copy is needed

  /** A publish that kept the broker's own array instead of a copy, with one unsubscription before its
      deliveries: it would deliver to the compacted array. */
  method WithoutCopy(b: Broker, ch: string, gone: Sub) returns (delivered: seq<Sub>)
    requires b.Valid() && ch in b.subs
    modifies b, b.subs[ch].buf
    ensures delivered == Overwritten(old(b.View())[ch], gone)
  {
    var shared := b.subs[ch];
    b.Leave(ch, gone);
    delivered := shared.buf[..shared.len];
  }

  /** That is the snapshot only if nothing was removed, or only `gone` itself stood from its first
      subscription on: everybody else behind it would move up, and the last one would be served twice. */
  lemma WithoutCopyExactly(s: seq<Sub>, gone: Sub)
    ensures Overwritten(s, gone) == s <==> forall j :: IndexOf(s, gone) <= j < |s| ==> s[j] == gone
  {
    hide Overwritten;
    var i, t := IndexOf(s, gone), Overwritten(s, gone);
    if i < |s| && t == s {
      forall j | i <= j < |s| - 1 ensures s[j] == s[j + 1] {
        OverwrittenAt(s, gone, j);
      }
      AllSame(s, gone, i);
    }
    if forall j :: i <= j < |s| ==> s[j] == gone {
      OverwrittenAt(s, gone, 0);
      forall j | 0 <= j < |s| ensures t[j] == s[j] {
        OverwrittenAt(s, gone, j);
      }
    }
  }

  lemma OverwrittenAt(s: seq<Sub>, gone: Sub, j: nat)
    ensures |Overwritten(s, gone)| == |s|
    ensures j < |s| ==>
      Overwritten(s, gone)[j] == if IndexOf(s, gone) <= j < |s| - 1 then s[j + 1] else s[j]
  {
    hide IndexOf, RemoveFirst;
    RemovedAt(s, gone);
    var i := IndexOf(s, gone);
    if i < |s| {
      assert gone in s;
      assert Overwritten(s, gone) == s[..i] + s[i + 1..] + [s[|s| - 1]];
    } else {
      assert s[..i] == s && gone !in s;
    }
  }

  lemma {:induction false} AllSame(s: seq<Sub>, gone: Sub, i: nat)
    requires i < |s| && s[i] == gone && forall j :: i <= j < |s| - 1 ==> s[j] == s[j + 1]
    ensures forall j :: i <= j < |s| ==> s[j] == gone
    decreases |s| - i
  {
    if i + 1 < |s| {
      assert s[i] == s[i + 1];
      AllSame(s, gone, i + 1);
    }
  }

  /** With two subscribers, of whom the first leaves, the second would get the message twice. */
  lemma ServedTwice()
    ensures Overwritten([1, 2], 1) == [2, 2]
  {
    assert [1, 2][1..] == [2];
  }

  lemma SubscribedIs(was: Subs, b: Subs, ch: string, sub: Sub)
    requires b.Keys == was.Keys + {ch} && b[ch] == Of(was, ch) + [sub]
    requires forall c :: c in b && c != ch ==> b[c] == was[c]
    ensures b == Subscribed(was, ch, sub)
  {
  }

  lemma SetIs(was: Subs, b: Subs, ch: string, s: seq<Sub>)
    requires ch in was && b.Keys == if s == [] then was.Keys - {ch} else was.Keys
    requires ch in b ==> b[ch] == s
    requires forall c :: c in b && c != ch ==> b[c] == was[c]
    ensures b == Set(was, ch, s)
  {
  }

  method Extended(had: seq<Sub>, sub: Sub) returns (buf: array<Sub>)
    ensures fresh(buf) && buf.Length == 2 * |had| + 1 && buf[..|had| + 1] == had + [sub]
  {
    buf := new Sub[2 * |had| + 1](i => if 0 <= i < |had| then had[i] else sub);
  }

  method CountIn(s: seq<Sub>, sub: Sub) returns (k: nat)
    ensures k == Count(s, sub)
  {
    k := 0;
    assert s[..0] == [];
    for i := 0 to |s|
      invariant k == Count(s[..i], sub)
    {
      assert s[..i + 1] == s[..i] + [s[i]];
      CountConcat(s[..i], [s[i]], sub);
      if s[i] == sub {
        k := k + 1;
      }
    }
    assert s[..|s|] == s;
  }

  /** Unsubscribed from all channels except those of `rest`. */
  ghost function Partly(b: Subs, rest: set<string>, sub: Sub): Subs {
    map c | c in b && (c in rest || RemoveFirst(b[c], sub) != []) :: if c in rest then b[c] else RemoveFirst(b[c], sub)
  }

  lemma PartlyEnds(b: Subs, sub: Sub)
    ensures Partly(b, b.Keys, sub) == b && Partly(b, {}, sub) == Unsubscribed(b, "", sub)
  {
  }

  lemma PartlyOne(b: Subs, rest: set<string>, sub: Sub, ch: string)
    requires ch in rest && rest <= b.Keys
    ensures ch in Partly(b, rest, sub)
    ensures Partly(b, rest - {ch}, sub) == Set(Partly(b, rest, sub), ch, RemoveFirst(Partly(b, rest, sub)[ch], sub))
  {
  }
}
