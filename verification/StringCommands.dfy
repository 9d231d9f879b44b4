/** MSET and MGET: handlers that make one store call per key. */
module StringCommands {
  import opened Decimal
  import opened Keyspace
  import opened Runs
  import opened StoreCore
  import Database
  import StoreStrings
  import R = Resp
  import Session

  const WRONG_TYPE := R.Error("WRONGTYPE Operation against a key holding the wrong kind of value")

  datatype Pair = Pair(key: string, value: string)

  function Written(s: Space, db: nat, pairs: seq<Pair>): Space
    decreases |pairs|
  {
    if pairs == [] then s
    else Written(s[Id(db, pairs[0].key) := Entry(Str(pairs[0].value), None)], db, pairs[1..])
  }

  /** MSET sets key after key, call k at time clock(k), and stops at the first refusal. */
  ghost function MSet(s: Space, db: nat, pairs: seq<Pair>, clock: nat -> int, k: nat): (Space, bool)
    decreases |pairs|
  {
    if pairs == [] then (s, true)
    else
      var (s1, r) := Step(s, clock(k), db, One(pairs[0].key, SetTo(pairs[0].value)));
      if r == WrongType then (s1, false) else MSet(s1, db, pairs[1..], clock, k + 1)
  }

  function SetTo(value: string): Op { OnString(SetText(value, None, false, false)) }

  /** Pair i names, for the first time, a key that is alive with another type at its turn. */
  predicate Clashes(s: Space, db: nat, pairs: seq<Pair>, clock: nat -> int, k: nat, i: nat) {
    && i < |pairs|
    && (forall j :: 0 <= j < i ==> pairs[j].key != pairs[i].key)
    && var e := Lookup(s, Id(db, pairs[i].key), clock(k + i));
       e.Some? && !e.value.content.Str?
  }

  lemma SetOnce(s: Space, now: int, db: nat, p: Pair)
    ensures var (s', r), e := Step(s, now, db, One(p.key, SetTo(p.value))), Lookup(s, Id(db, p.key), now);
      if e.Some? && !e.value.content.Str? then r == WrongType && s' == s
      else r == Bool(true) && s' == Written(s, db, [p])
  {
    var id, e := Id(db, p.key), Lookup(s, Id(db, p.key), now);
    assert [p][1..] == [];
    if e.Some? && !e.value.content.Str? {
      assert Put(s, id, e) == s;
    } else {
      assert Put(s, id, Some(Entry(Str(p.value), None))) == s[id := Entry(Str(p.value), None)];
    }
  }

  lemma ClashesLater(s: Space, db: nat, pairs: seq<Pair>, clock: nat -> int, k: nat, i: nat)
    requires 0 < i < |pairs|
    ensures Clashes(s, db, pairs, clock, k, i)
       <==> Clashes(Written(s, db, pairs[..1]), db, pairs[1..], clock, k + 1, i - 1)
  {
    var p, rest := pairs[0], pairs[1..];
    var s' := Written(s, db, pairs[..1]);
    assert pairs[..1][0] == p && pairs[..1][1..] == [];
    assert Written(s, db, pairs[..1]) == Written(s[Id(db, p.key) := Entry(Str(p.value), None)], db, []);
    assert s' == s[Id(db, p.key) := Entry(Str(p.value), None)];
    assert forall j :: 0 < j < |pairs| ==> pairs[j] == rest[j - 1];
    assert forall j :: 0 <= j < |rest| ==> rest[j] == pairs[j + 1];
  }

  /** The pairs before the first clash, and only these, are written. */
  ghost predicate StopsAt(s: Space, db: nat, pairs: seq<Pair>, clock: nat -> int, k: nat, n: nat) {
    && n <= |pairs| && (forall i :: 0 <= i < n ==> !Clashes(s, db, pairs, clock, k, i))
    && (n < |pairs| ==> Clashes(s, db, pairs, clock, k, n))
    && MSet(s, db, pairs, clock, k) == (Written(s, db, pairs[..n]), n == |pairs|)
  }

  /** MSET writes all pairs, the last value of a key counting, exactly when no key clashes; otherwise it has
      written the pairs before the first clash and nothing after. */
  lemma {:induction false} MSetExactly(s: Space, db: nat, pairs: seq<Pair>, clock: nat -> int, k: nat) returns (n: nat)
    ensures StopsAt(s, db, pairs, clock, k, n)
    decreases |pairs|
  {
    hide *;
    n := 0;
    if pairs == [] || Clashes(s, db, pairs, clock, k, 0) {
      StopsAtOnce(s, db, pairs, clock, k);
    } else {
      var m := MSetExactly(Written(s, db, pairs[..1]), db, pairs[1..], clock, k + 1);
      n := m + 1;
      StopsLater(s, db, pairs, clock, k, m);
    }
  }

  lemma StopsAtOnce(s: Space, db: nat, pairs: seq<Pair>, clock: nat -> int, k: nat)
    requires pairs == [] || Clashes(s, db, pairs, clock, k, 0)
    ensures StopsAt(s, db, pairs, clock, k, 0)
  {
    hide Step, Clashes;
    assert pairs[..0] == [] && Written(s, db, []) == s;
    if pairs != [] {
      SetOnce(s, clock(k), db, pairs[0]);
      FirstClashes(s, db, pairs, clock, k);
    }
  }

  lemma StopsLater(s: Space, db: nat, pairs: seq<Pair>, clock: nat -> int, k: nat, m: nat)
    requires pairs != [] && !Clashes(s, db, pairs, clock, k, 0)
    requires StopsAt(Written(s, db, pairs[..1]), db, pairs[1..], clock, k + 1, m)
    ensures StopsAt(s, db, pairs, clock, k, m + 1)
  {
    hide Step, Clashes, MSet, Written;
    var s', rest := Written(s, db, pairs[..1]), pairs[1..];
    SetOnce(s, clock(k), db, pairs[0]);
    MSetFirst(s, db, pairs, clock, k);
    assert pairs[..1] == [pairs[0]];
    FirstClashes(s, db, pairs, clock, k);
    forall i | 0 <= i < m + 1 ensures !Clashes(s, db, pairs, clock, k, i) {
      if i > 0 {
        ClashesLater(s, db, pairs, clock, k, i);
      }
    }
    if m + 1 < |pairs| {
      ClashesLater(s, db, pairs, clock, k, m + 1);
    }
    WrittenMore(s, db, pairs, m + 1);
  }

  lemma FirstClashes(s: Space, db: nat, pairs: seq<Pair>, clock: nat -> int, k: nat)
    requires pairs != []
    ensures var e := Lookup(s, Id(db, pairs[0].key), clock(k));
      Clashes(s, db, pairs, clock, k, 0) <==> e.Some? && !e.value.content.Str?
  {
  }

  lemma WrittenMore(s: Space, db: nat, pairs: seq<Pair>, n: nat)
    requires 1 <= n <= |pairs|
    ensures Written(s, db, pairs[..n]) == Written(Written(s, db, pairs[..1]), db, pairs[1..][..n - 1])
  {
    assert pairs[..n][1..] == pairs[1..][..n - 1] && pairs[..1][1..] == [];
  }

  /** For instance, with a set under `b`, the first of two pairs stays written and the second is refused. */
  lemma HalfWritten(clock: nat -> int)
    ensures var s := map[Id(0, "b") := Entry(Set({"x"}), None)];
      MSet(s, 0, [Pair("a", "1"), Pair("b", "2")], clock, 0) == (s[Id(0, "a") := Entry(Str("1"), None)], false)
  {
    var s := map[Id(0, "b") := Entry(Set({"x"}), None)];
    var pairs := [Pair("a", "1"), Pair("b", "2")];
    var n := MSetExactly(s, 0, pairs, clock, 0);
    assert !Clashes(s, 0, pairs, clock, 0, 0);
    assert Clashes(s, 0, pairs, clock, 0, 1);
    assert pairs[..1] == [pairs[0]] && [pairs[0]][1..] == [];
  }

  // ---------------------------------------------------------------- reading back

  /** The last value that the pairs give to a key. */
  function LastValue(pairs: seq<Pair>, key: string): Option<string> {
    if pairs == [] then None
    else if pairs[|pairs| - 1].key == key then Some(pairs[|pairs| - 1].value)
    else LastValue(pairs[..|pairs| - 1], key)
  }

  lemma {:induction false} WrittenSnoc(s: Space, db: nat, pairs: seq<Pair>, p: Pair)
    ensures Written(s, db, pairs + [p]) == Written(s, db, pairs)[Id(db, p.key) := Entry(Str(p.value), None)]
    decreases |pairs|
  {
    if pairs == [] {
      assert [] + [p] == [p] && [p][1..] == [];
    } else {
      assert (pairs + [p])[1..] == pairs[1..] + [p];
      WrittenSnoc(s[Id(db, pairs[0].key) := Entry(Str(pairs[0].value), None)], db, pairs[1..], p);
    }
  }

  lemma {:induction false} WrittenIs(s: Space, db: nat, pairs: seq<Pair>, id: Id)
    ensures var s', v := Written(s, db, pairs), LastValue(pairs, id.key);
      if id.db == db && v.Some? then id in s' && s'[id] == Entry(Str(v.value), None)
      else (id in s' <==> id in s) && (id in s ==> s'[id] == s[id])
    decreases |pairs|
  {
    if pairs != [] {
      var n := |pairs| - 1;
      assert pairs == pairs[..n] + [pairs[n]];
      WrittenSnoc(s, db, pairs[..n], pairs[n]);
      WrittenIs(s, db, pairs[..n], id);
    }
  }

  /** What MGET says of one key: anything but a live string is null. */
  function Mentioned(s: Space, id: Id, now: int): R.Value {
    var e := Lookup(s, id, now);
    if e.Some? && e.value.content.Str? then R.Bulk(e.value.content.text) else R.NullBulk
  }

  /** After a successful MSET, MGET at any time gives the last value written under each key, and what it would
      have given before under every other. */
  lemma MSetThenMGet(s: Space, db: nat, pairs: seq<Pair>, clock: nat -> int, id: Id, now: int)
    requires MSet(s, db, pairs, clock, 0).1
    ensures var s', v := MSet(s, db, pairs, clock, 0).0, LastValue(pairs, id.key);
      Mentioned(s', id, now) == if id.db == db && v.Some? then R.Bulk(v.value) else Mentioned(s, id, now)
  {
    hide MSet, Written;
    var n := MSetExactly(s, db, pairs, clock, 0);
    assert pairs[..n] == pairs;
    WrittenIs(s, db, pairs, id);
  }

  // ---------------------------------------------------------------- the handlers

  function PairsOf(args: seq<R.Value>): seq<Pair>
    requires |args| % 2 == 0
  {
    if args == [] then [] else [Pair(args[0].Str(), args[1].Str())] + PairsOf(args[2..])
  }

  /** The arguments of MSET for some pairs: each key, and its value after it. */
  function ArgsOf(pairs: seq<Pair>): seq<R.Value> {
    if pairs == [] then [] else [R.Bulk(pairs[0].key), R.Bulk(pairs[0].value)] + ArgsOf(pairs[1..])
  }

  lemma {:induction false} PairsOfArgs(pairs: seq<Pair>)
    ensures |ArgsOf(pairs)| == 2 * |pairs| && PairsOf(ArgsOf(pairs)) == pairs
  {
    if pairs != [] {
      PairsOfArgs(pairs[1..]);
      var args := ArgsOf(pairs);
      assert args[0] == R.Bulk(pairs[0].key) && args[1] == R.Bulk(pairs[0].value) && args[2..] == ArgsOf(pairs[1..]);
      assert pairs == [pairs[0]] + pairs[1..];
    }
  }

  /** The call for the pair at `i`. */
  method SetNext(s: Store, db: nat, args: seq<R.Value>, i: nat, clock: nat -> int, k: nat) returns (r: Reply)
    requires s.Valid() && i + 1 < |args| && (|args| - i) % 2 == 0
    modifies s
    ensures s.Valid()
    ensures MSet(old(s.View()), db, PairsOf(args[i..]), clock, k)
         == if r == WrongType then (s.View(), false) else MSet(s.View(), db, PairsOf(args[i + 2..]), clock, k + 1)
  {
    hide MSet, Step, Performed, PairsOf, Database.Inv, Database.SpaceOf;
    ghost var was := s.View();
    var id := Id(db, args[i].Str());
    r := StoreStrings.Set(s, id, clock(k), args[i + 1].Str(), None, false, false);
    PerformedIsStep(was, s.View(), id, clock(k), SetTo(args[i + 1].Str()), r);
    PairsFrom(args, i);
    MSetFirst(was, db, PairsOf(args[i..]), clock, k);
  }

  method CmdMSet(s: Store, db: nat, args: seq<R.Value>, clock: nat -> int) returns (r: R.Value)
    requires s.Valid() && args != []
    modifies s
    ensures s.Valid()
    ensures |args| % 2 == 0 ==> s.View() == old(s.View()) && r == Session.BadArity("mset")
    ensures |args| % 2 == 1 ==>
      var (s', ok) := MSet(old(s.View()), db, PairsOf(args[1..]), clock, 0);
      s.View() == s' && r == if ok then Session.OK else WRONG_TYPE
  {
    hide MSet, Step, Performed, PairsOf, Database.Inv, Database.SpaceOf;
    if |args| % 2 == 0 {
      return Session.BadArity("mset");
    }
    ghost var all := MSet(s.View(), db, PairsOf(args[1..]), clock, 0);
    var i := 1;
    var k := 0;
    while i < |args|
      invariant i == 2 * k + 1 && i <= |args| && s.Valid()
      invariant all == MSet(s.View(), db, PairsOf(args[i..]), clock, k)
    {
      var reply := SetNext(s, db, args, i, clock, k);
      if reply == WrongType {
        return WRONG_TYPE;
      }
      i := i + 2;
      k := k + 1;
    }
    assert args[i..] == [];
    MSetNothing(s.View(), db, clock, k);
    r := Session.OK;
  }

  lemma PairsFrom(args: seq<R.Value>, i: nat)
    requires i + 1 < |args| && (|args| - i) % 2 == 0
    ensures var ps := PairsOf(args[i..]);
      ps != [] && ps[0] == Pair(args[i].Str(), args[i + 1].Str()) && ps[1..] == PairsOf(args[i + 2..])
  {
    assert args[i..][2..] == args[i + 2..];
  }

  lemma MSetFirst(s: Space, db: nat, pairs: seq<Pair>, clock: nat -> int, k: nat)
    requires pairs != []
    ensures var (s1, r) := Step(s, clock(k), db, One(pairs[0].key, SetTo(pairs[0].value)));
      MSet(s, db, pairs, clock, k) == if r == WrongType then (s1, false) else MSet(s1, db, pairs[1..], clock, k + 1)
  {
  }

  lemma MSetNothing(s: Space, db: nat, clock: nat -> int, k: nat)
    ensures MSet(s, db, PairsOf([]), clock, k) == (s, true)
  {
  }

  /** Time does not go back from one reading of the clock to the next. */
  ghost predicate Steady(clock: nat -> int) {
    forall i: nat, j: nat :: i <= j ==> clock(i) <= clock(j)
  }

  /** MGET reads key after key, each at its own time; dead rows it meets are removed, which nobody sees. */
  method CmdMGet(s: Store, db: nat, args: seq<R.Value>, clock: nat -> int) returns (r: R.Value)
    requires s.Valid() && args != [] && Steady(clock)
    modifies s
    ensures s.Valid() && r.Array? && |r.elems| == |args| - 1
    ensures forall i :: 0 <= i < |r.elems| ==> r.elems[i] == Mentioned(old(s.View()), Id(db, args[i + 1].Str()), clock(i))
    ensures SameLive(s.View(), old(s.View()), clock(|args|))
  {
    hide Performed, SameLive, Mentioned, Database.Inv, Database.SpaceOf;
    var elems: seq<R.Value> := [];
    ghost var was := s.View();
    SameItself(was, clock(0));
    for i := 1 to |args|
      invariant s.Valid() && |elems| == i - 1
      invariant forall j :: 0 <= j < i - 1 ==> elems[j] == Mentioned(was, Id(db, args[j + 1].Str()), clock(j))
      invariant SameLive(s.View(), was, clock(i - 1))
    {
      ghost var here := s.View();
      var id := Id(db, args[i].Str());
      var reply := StoreStrings.Get(s, id, clock(i - 1));
      GetMentions(was, here, s.View(), id, clock(i - 1), reply);
      SameLiveLater(s.View(), was, clock(i - 1), clock(i));
      elems := elems + [if reply.Text? then R.Bulk(reply.text) else R.NullBulk];
    }
    SameLiveLater(s.View(), was, clock(|args| - 1), clock(|args|));
    r := R.Array(elems);
  }

  lemma SameItself(s: Space, now: int)
    ensures SameLive(s, s, now)
  {
  }

  lemma GetMentions(was: Space, s: Space, s': Space, id: Id, now: int, r: Reply)
    requires SameLive(s, was, now) && Performed(s, s', id, now, OnString(StrOp.Get), r)
    ensures Mentioned(was, id, now) == if r.Text? then R.Bulk(r.text) else R.NullBulk
    ensures SameLive(s', was, now)
  {
    SameLookup(s, was, now, id);
    assert Live(s', now) == Live(s, now);
  }
}
