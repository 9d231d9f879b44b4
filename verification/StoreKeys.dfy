/** store.go: the commands on keys of any type and on several keys, and sets.go's on several sets. */
module StoreKeys {
  import opened Decimal
  import opened Keyspace
  import opened Database
  import opened StoreCore
  import Glob

  // ---------------------------------------------------------------- one key

  method ExpireAt(s: Store, id: Id, now: int, at: int) returns (r: Reply)
    requires s.Valid()
    modifies s
    ensures s.Valid() && Performed(old(s.View()), s.View(), id, now, OnKey(KeyOp.ExpireAt(at)), r)
  {
    hide Inv, SpaceOf, Lookup, Project, OnlyAt, Performed;
    ghost var e := Lookup(s.View(), id, now);
    s.DeleteExpired(id, now);
    ghost var ready := s.db;
    var n := s.UpdateExpires(id, Some(at));
    Chain(old(s.db), ready, s.db, id);
    r := Bool(n > 0);
    Finish(old(s.db), s.db, id, now, OnKey(KeyOp.ExpireAt(at)),
           if e.None? then e else Some(e.value.(deadline := Some(at))), r);
  }

  method Ttl(s: Store, id: Id, now: int, millis: bool) returns (r: Reply)
    requires s.Valid()
    modifies s
    ensures s.Valid() && Performed(old(s.View()), s.View(), id, now, OnKey(TimeToLive(millis)), r)
  {
    hide Inv, SpaceOf, Lookup, Project, OnlyAt, Performed;
    ghost var e := Lookup(s.View(), id, now);
    s.DeleteExpired(id, now);
    var row := s.SelectKey(id);
    if row.None? {
      r := Int(-2);
    } else if row.value.expires.None? {
      r := Int(-1);
    } else {
      var rem := row.value.expires.value - now;
      r := Int(if rem < 0 then -2 else if millis then rem else rem / 1000);
    }
    Finish(old(s.db), s.db, id, now, OnKey(TimeToLive(millis)), e, r);
  }

  method Persist(s: Store, id: Id, now: int) returns (r: Reply)
    requires s.Valid()
    modifies s
    ensures s.Valid() && Performed(old(s.View()), s.View(), id, now, OnKey(KeyOp.Persist), r)
  {
    hide Inv, SpaceOf, Lookup, Project, OnlyAt, Performed;
    ghost var e := Lookup(s.View(), id, now);
    s.DeleteExpired(id, now);
    var row := s.SelectKey(id);
    if row.None? || row.value.expires.None? {
      r := Bool(false);
      Finish(old(s.db), s.db, id, now, OnKey(KeyOp.Persist), e, r);
    } else {
      ghost var ready := s.db;
      var _ := s.UpdateExpires(id, None);
      Chain(old(s.db), ready, s.db, id);
      r := Bool(true);
      Finish(old(s.db), s.db, id, now, OnKey(KeyOp.Persist), Some(e.value.(deadline := None)), r);
    }
  }

  method Type(s: Store, id: Id, now: int) returns (r: Reply)
    requires s.Valid()
    modifies s
    ensures s.Valid() && Performed(old(s.View()), s.View(), id, now, OnKey(TypeOf), r)
  {
    hide Inv, SpaceOf, Lookup, Project, OnlyAt, Performed;
    ghost var e := Lookup(s.View(), id, now);
    s.DeleteExpired(id, now);
    var kind := s.KeyType(id, now);
    r := TypeName(kind);
    Finish(old(s.db), s.db, id, now, OnKey(TypeOf), e, r);
  }

  // ---------------------------------------------------------------- several keys

  lemma IdsSnoc(db: nat, keys: seq<string>, i: nat)
    requires i < |keys|
    ensures Ids(db, keys[..i + 1]) == Ids(db, keys[..i]) + {Id(db, keys[i])}
  {
    assert keys[..i + 1] == keys[..i] + [keys[i]];
  }

  lemma IdsEnds(db: nat, keys: seq<string>)
    ensures Ids(db, keys[..0]) == {} && Ids(db, keys[..|keys|]) == Ids(db, keys)
  {
    assert keys[..|keys|] == keys;
  }

  lemma DeleteOneMore(s: Space, gone: set<Id>, id: Id)
    ensures (s - gone) - {id} == s - (gone + {id})
    ensures |s.Keys * (gone + {id})| == |s.Keys * gone| + if id in s - gone then 1 else 0
  {
    if id in s - gone {
      assert s.Keys * (gone + {id}) == s.Keys * gone + {id};
    } else {
      assert s.Keys * (gone + {id}) == s.Keys * gone;
    }
  }

  lemma DelIs(s: Space, now: int, db: nat, keys: seq<string>)
    ensures Step(s, now, db, Command.Del(keys)) == (s - Ids(db, keys), Int(|s.Keys * Ids(db, keys)|))
    ensures s - {} == s && s.Keys * {} == {}
  {
    hide Ids, Do;
  }

  lemma HasRow(d: Db, id: Id)
    ensures Project(d, id).key.Some? <==> id in SpaceOf(d)
  {
  }

  method Del(s: Store, db: nat, now: int, keys: seq<string>) returns (r: Reply)
    requires s.Valid()
    modifies s
    ensures s.Valid() && Step(old(s.View()), now, db, Command.Del(keys)) == (s.View(), r)
  {
    hide Inv, SpaceOf, Project, OnlyAt, Ids, Step;
    ghost var was := s.View();
    var total := 0;
    IdsEnds(db, keys);
    DelIs(was, now, db, keys);
    for i := 0 to |keys|
      invariant s.Valid() && s.View() == was - Ids(db, keys[..i])
      invariant total == |was.Keys * Ids(db, keys[..i])|
    {
      IdsSnoc(db, keys, i);
      DeleteOneMore(was, Ids(db, keys[..i]), Id(db, keys[i]));
      HasRow(s.db, Id(db, keys[i]));
      var n := s.DeleteKey(Id(db, keys[i]));
      total := total + n;
    }
    r := Int(total);
  }

  lemma {:induction false} PresentSnoc(s: Space, db: nat, keys: seq<string>, i: nat, now: int)
    requires i < |keys|
    ensures CountPresent(s, db, keys[..i + 1], now)
         == CountPresent(s, db, keys[..i], now) + if Lookup(s, Id(db, keys[i]), now).Some? then 1 else 0
    decreases i
  {
    hide Lookup;
    if i == 0 {
      assert keys[..1][1..] == [] && keys[..0] == [];
    } else {
      var tail := keys[1..];
      PresentSnoc(s, db, tail, i - 1, now);
      assert keys[..i + 1][1..] == tail[..i] && keys[..i][1..] == tail[..i - 1];
    }
  }

  lemma ReapOneMore(s: Space, ids: set<Id>, id: Id, now: int)
    ensures Reap(Reap(s, ids, now), {id}, now) == Reap(s, ids + {id}, now)
    ensures Reap(s, {}, now) == s
    ensures Lookup(Reap(s, ids, now), id, now) == Lookup(s, id, now)
  {
  }

  method Exists(s: Store, db: nat, now: int, keys: seq<string>) returns (r: Reply)
    requires s.Valid()
    modifies s
    ensures s.Valid() && Step(old(s.View()), now, db, Command.Exists(keys)) == (s.View(), r)
  {
    hide Inv, SpaceOf, Project, OnlyAt, Ids, Reap, Lookup, CountPresent, RecOf, Do;
    ghost var was := s.View();
    var count := 0;
    IdsEnds(db, keys);
    ReapOneMore(was, {}, Id(db, ""), now);
    assert CountPresent(was, db, keys[..0], now) == 0 by { NonePresent(was, db, keys[..0], now); }
    for i := 0 to |keys|
      invariant s.Valid() && s.View() == Reap(was, Ids(db, keys[..i]), now)
      invariant count == CountPresent(was, db, keys[..i], now)
    {
      var id := Id(db, keys[i]);
      IdsSnoc(db, keys, i);
      PresentSnoc(was, db, keys, i, now);
      ReapOneMore(was, Ids(db, keys[..i]), id, now);
      RecKey(Lookup(was, id, now));
      s.DeleteExpired(id, now);
      var row := s.SelectKey(id);
      count := count + if row.Some? then 1 else 0;
    }
    assert keys[..|keys|] == keys;
    r := Int(count);
  }

  lemma NonePresent(s: Space, db: nat, none: seq<string>, now: int)
    requires none == []
    ensures CountPresent(s, db, none, now) == 0
  {
  }

  lemma RecKey(e: Option<Entry>)
    ensures RecOf(e).key == if e.None? then None else Some(KeyRow(KindOf(e.value.content), e.value.deadline))
  {
  }

  /** The rows of an entry that are in the table its type names are all its rows. */
  lemma CopiedRec(e: Entry, to: Rec)
    requires to == NOTHING.(key := Some(KeyRow(KindOf(e.content), e.deadline)))
    ensures RecOf(Some(e)) == var from := RecOf(Some(e));
      match KindOf(e.content)
      case KString => to.(text := from.text)
      case KList => to.(items := from.items)
      case KHash => to.(fields := from.fields)
      case KSet => to.(members := from.members)
      case KZSet => to.(scores := from.scores)
  {
  }

  method Rename(s: Store, db: nat, now: int, src: string, dst: string) returns (r: Reply)
    requires s.Valid()
    modifies s
    ensures s.Valid() && Step(old(s.View()), now, db, Command.Rename(src, dst)) == (s.View(), r)
  {
    hide Inv, SpaceOf, Project, OnlyAt, RecOf, EmptyList, Reap, Put, Do, Lookup;
    var from, to := Id(db, src), Id(db, dst);
    ghost var was := s.View();
    ghost var e := Lookup(was, from, now);
    RecKey(e);
    Renamed(was, from, to, now);
    s.DeleteExpired(from, now);
    var row := s.SelectKey(from);
    if row.None? {
      return NoSuchKey;
    }
    MoveRows(s, from, to, row.value, e.value);
    r := Done;
  }

  /** The keyspace after lazy expiry of the source, and after the move. */
  lemma Renamed(s: Space, from: Id, to: Id, now: int)
    ensures var s', e := Reap(s, {from}, now), Lookup(s, from, now);
      if e.None? then s' == s - {from}
      else
        && (from != to ==> Put(s', to, e) - {from} == s[to := e.value] - {from})
        && (from == to ==> Put(s', from, None) == s[to := e.value] - {from})
  {
  }

  /** The transaction of RENAME. */
  method MoveRows(s: Store, from: Id, to: Id, row: KeyRow, ghost e: Entry)
    requires s.Valid() && Project(s.db, from) == RecOf(Some(e)) && !EmptyList(Some(e))
    requires row == KeyRow(KindOf(e.content), e.deadline)
    modifies s
    ensures s.Valid()
    ensures s.View() == if from != to then Put(old(s.View()), to, Some(e)) - {from} else Put(old(s.View()), from, None)
  {
    hide Inv, SpaceOf, Project, OnlyAt, RecOf, EmptyList, Put;
    ghost var d1 := s.db;
    var _ := s.DeleteKey(to); // the cascade removes the old value, whatever its type
    ghost var d2 := s.db;
    s.UpsertKey(to, row);
    ghost var d3 := s.db;
    Chain(d1, d2, d3, to);
    s.CopyRows(from, to, row.kind);
    ghost var d4 := s.db;
    Chain(d1, d3, d4, to);
    if from != to {
      CopiedRec(e, NOTHING.(key := Some(row)));
      Untouched(d1, d3, to, from);
      Rewritten(d1, d4, to, Some(e));
    }
    var _ := s.DeleteKey(from);
    if from == to {
      Chain(d1, d4, s.db, from);
      RecNone();
      Rewritten(d1, s.db, from, None);
    }
  }

  lemma Untouched(d: Db, d': Db, id: Id, x: Id)
    requires OnlyAt(d, d', id) && x != id
    ensures Project(d', x) == Project(d, x)
  {
    hide Project;
  }

  lemma RecNone()
    ensures RecOf(None) == NOTHING && !EmptyList(None)
  {
  }

  /** The live rows of a database; the primary key makes a row and its name one and the same. */
  method LiveNames(s: Store, db: nat, now: int) returns (names: set<string>)
    requires s.Valid()
    ensures names == Names(s.View(), db, now)
  {
    names := set id | id in s.db.keys && id.db == db && s.AliveRow(id, now) :: id.key;
    forall k ensures k in names <==> Lookup(s.View(), Id(db, k), now).Some? {
      AliveIsVisible(s.db, Id(db, k), now);
      var id := Id(db, k);
      assert id in s.db.keys && s.AliveRow(id, now) ==> id.key in names;
    }
  }

  lemma AliveIsVisible(d: Db, id: Id, now: int)
    requires Inv(d)
    ensures Lookup(SpaceOf(d), id, now).Some?
       <==> id in d.keys && (d.keys[id].expires.None? || d.keys[id].expires.value > now)
  {
    hide Inv, Project, RecOf;
    KeyColumn(d, id);
    StoredEntry(d, id);
    if id in d.keys {
      RecKey(Some(SpaceOf(d)[id]));
    }
  }

  /** KEYS: the rows come in any order; the first name whose matching panics ends the server. */
  method Keys(s: Store, db: nat, now: int, pattern: string, stack: nat) returns (r: Reply)
    requires s.Valid()
    ensures Step(s.View(), now, db, Command.Keys(pattern, stack)) == (s.View(), r)
  {
    hide Inv, SpaceOf, Names, KeysReply, Do, Lookup;
    var names := LiveNames(s, db, now);
    r := MatchAll(names, pattern, stack);
  }

  method MatchAll(names: set<string>, pattern: string, stack: nat) returns (r: Reply)
    ensures r == KeysReply(names, pattern, stack)
  {
    hide KeysReply, Glob.Expected, Glob.Parse, Glob.Bounded;
    ghost var p := Glob.Bounded(Glob.Parse(pattern), stack);
    var rest, result := names, {};
    while rest != {}
      invariant rest <= names
      invariant forall k :: k in names - rest ==> Glob.Expected(p, k) != Glob.Panic
      invariant forall k :: k in result <==> k in names - rest && Glob.Expected(p, k) == Glob.Yes
      decreases |rest|
    {
      var k :| k in rest;
      var o := Glob.GlobMatch(pattern, k, stack);
      if o == Glob.Panic {
        KeysCrash(names, pattern, stack, k);
        return Crashed;
      }
      if o == Glob.Yes {
        result := result + {k};
      }
      rest := rest - {k};
    }
    KeysAre(names, pattern, stack, result);
    r := Members(result);
  }

  lemma KeysAre(names: set<string>, pattern: string, stack: nat, result: set<string>)
    requires forall k :: k in names ==> Glob.Expected(Glob.Bounded(Glob.Parse(pattern), stack), k) != Glob.Panic
    requires forall k :: k in result <==> k in names && Glob.Expected(Glob.Bounded(Glob.Parse(pattern), stack), k) == Glob.Yes
    ensures KeysReply(names, pattern, stack) == Members(result)
  {
    hide Glob.Expected, Glob.Parse, Glob.Bounded;
  }

  lemma KeysCrash(names: set<string>, pattern: string, stack: nat, k: string)
    requires k in names && Glob.Expected(Glob.Bounded(Glob.Parse(pattern), stack), k) == Glob.Panic
    ensures KeysReply(names, pattern, stack) == Crashed
  {
    hide Glob.Expected, Glob.Parse, Glob.Bounded;
  }

  method DBSize(s: Store, db: nat, now: int) returns (r: Reply)
    requires s.Valid()
    ensures Step(s.View(), now, db, Command.DBSize) == (s.View(), r)
  {
    hide Inv, SpaceOf, Names, Do, Lookup, KeysReply, Ids;
    var names := LiveNames(s, db, now);
    r := Int(|names|);
  }

  method FlushDB(s: Store, db: nat, now: int) returns (r: Reply)
    requires s.Valid()
    modifies s
    ensures s.Valid() && Step(old(s.View()), now, db, Command.FlushDB) == (s.View(), r)
  {
    hide Inv, Project, Deleted, Do, EntryOf;
    var ids := set id | id in s.db.keys && id.db == db;
    DeletedSpace(s.db, ids);
    ghost var was := s.View();
    s.db := Deleted(s.db, ids);
    assert was - ids == map id | id in was && id.db != db :: was[id];
    r := Done;
  }

  method FlushAll(s: Store, db: nat, now: int) returns (r: Reply)
    requires s.Valid()
    modifies s
    ensures s.Valid() && Step(old(s.View()), now, db, Command.FlushAll) == (s.View(), r)
  {
    hide Inv, Project, Deleted, Do, EntryOf;
    var ids := set id | id in s.db.keys;
    DeletedSpace(s.db, ids);
    ghost var was := s.View();
    s.db := Deleted(s.db, ids);
    assert was - ids == map[];
    r := Done;
  }

  /** The background sweep: every expired key of every database, with its rows. */
  method SweepExpired(s: Store, now: int)
    requires s.Valid()
    modifies s
    ensures s.Valid() && s.View() == Sweep(old(s.View()), now)
  {
    hide Inv, SpaceOf, Project, Deleted;
    var ids := set id | id in s.db.keys && s.db.keys[id].expires.Some? && s.db.keys[id].expires.value <= now;
    DeletedSpace(s.db, ids);
    ghost var was, d := s.View(), s.db;
    s.db := Deleted(s.db, ids);
    forall id ensures id in was - ids <==> id in Live(was, now) {
      AliveIsVisible(d, id, now);
    }
    assert was - ids == Live(was, now);
  }

  // ---------------------------------------------------------------- several sets

  /** Whatever the type of the key, its set rows are the members of its entry. */
  lemma SetRows(e: Option<Entry>)
    ensures RecOf(e).members.Keys == MembersOf(e)
  {
  }

  method SUnion(s: Store, db: nat, now: int, keys: seq<string>) returns (r: Reply)
    requires s.Valid()
    modifies s
    ensures s.Valid() && Step(old(s.View()), now, db, Command.SUnion(keys)) == (s.View(), r)
  {
    hide Inv, SpaceOf, Project, OnlyAt, RecOf, Reap, Lookup, Do;
    var union: set<string> := {};
    assert keys[0..] == keys;
    ghost var all := Union(s.View(), db, keys, now, {});
    for i := 0 to |keys|
      invariant s.Valid() && all == Union(s.View(), db, keys[i..], now, union)
    {
      var id := Id(db, keys[i]);
      assert keys[i..][1..] == keys[i + 1..];
      ghost var e := Lookup(s.View(), id, now);
      SetRows(e);
      s.DeleteExpired(id, now);
      var kind := s.KeyType(id, now);
      if kind.Some? && kind.value != KSet {
        return WrongType;
      }
      var m := s.SelectMembers(id);
      union := union + m;
    }
    r := Members(union);
  }

  /** Deleting from the base map whatever the other set lacks. */
  method KeepCommon(base: set<string>, other: set<string>) returns (kept: set<string>)
    ensures kept == base * other
  {
    kept := base;
    var rest := base;
    while rest != {}
      invariant rest <= base
      invariant kept == rest + (base - rest) * other
      decreases |rest|
    {
      var m :| m in rest;
      if m !in other {
        kept := kept - {m};
      }
      rest := rest - {m};
    }
  }

  lemma RawRows(d: Db, id: Id)
    requires Inv(d)
    ensures Project(d, id).members.Keys == RawMembers(SpaceOf(d), id)
  {
    hide Inv, SpaceOf, Project, RecOf;
    StoredEntry(d, id);
    SetRows(if id in SpaceOf(d) then Some(SpaceOf(d)[id]) else None);
  }

  lemma IdsTail(db: nat, keys: seq<string>, i: nat)
    requires 1 <= i < |keys|
    ensures Ids(db, keys[1..i + 1]) == Ids(db, keys[1..i]) + {Id(db, keys[i])}
  {
    assert keys[1..i + 1] == keys[1..i] + [keys[i]];
  }

  lemma IdsTailEnds(db: nat, keys: seq<string>)
    requires |keys| >= 1
    ensures Ids(db, keys[1..1]) == {} && Ids(db, keys[1..|keys|]) == Ids(db, keys[1..])
  {
    assert keys[1..|keys|] == keys[1..];
  }

  /** One more of the later keys: expire it lazily and read its set. */
  method NextSet(s: Store, db: nat, now: int, keys: seq<string>, i: nat, ghost was: Space) returns (other: set<string>)
    requires s.Valid() && 1 <= i < |keys| && s.View() == Reap(was, Ids(db, keys[1..i]), now)
    modifies s
    ensures s.Valid() && s.View() == Reap(was, Ids(db, keys[1..i + 1]), now)
    ensures other == LiveMembers(was, Id(db, keys[i]), now)
  {
    hide Inv, SpaceOf, Project, OnlyAt, RecOf, Reap, Lookup, Ids;
    var id := Id(db, keys[i]);
    IdsTail(db, keys, i);
    ReapOneMore(was, Ids(db, keys[1..i]), id, now);
    SetRows(Lookup(was, id, now));
    s.DeleteExpired(id, now);
    other := s.SelectMembers(id);
  }

  method SInter(s: Store, db: nat, now: int, keys: seq<string>) returns (r: Reply)
    requires s.Valid()
    modifies s
    ensures s.Valid() && Step(old(s.View()), now, db, Command.SInter(keys)) == (s.View(), r)
  {
    hide Inv, SpaceOf, Project, OnlyAt, Reap, LiveMembers, RawMembers, Ids, Do;
    if |keys| == 0 {
      return Members({});
    }
    ghost var was := s.View();
    RawRows(s.db, Id(db, keys[0]));
    IdsTailEnds(db, keys);
    ReapOneMore(was, {}, Id(db, ""), now);
    var base := s.SelectMembers(Id(db, keys[0]));
    ghost var all := InterAll(was, db, keys[1..], now, base);
    for i := 1 to |keys|
      invariant s.Valid() && s.View() == Reap(was, Ids(db, keys[1..i]), now)
      invariant all == InterAll(was, db, keys[i..], now, base)
    {
      assert keys[i..][0] == keys[i] && keys[i..][1..] == keys[i + 1..];
      var other := NextSet(s, db, now, keys, i, was);
      base := KeepCommon(base, other);
    }
    r := Members(base);
  }

  method SDiff(s: Store, db: nat, now: int, keys: seq<string>) returns (r: Reply)
    requires s.Valid()
    modifies s
    ensures s.Valid() && Step(old(s.View()), now, db, Command.SDiff(keys)) == (s.View(), r)
  {
    hide Inv, SpaceOf, Project, OnlyAt, Reap, LiveMembers, RawMembers, Ids, Do;
    if |keys| == 0 {
      return Members({});
    }
    ghost var was := s.View();
    RawRows(s.db, Id(db, keys[0]));
    IdsTailEnds(db, keys);
    ReapOneMore(was, {}, Id(db, ""), now);
    var base := s.SelectMembers(Id(db, keys[0]));
    ghost var all := DiffAll(was, db, keys[1..], now, base);
    for i := 1 to |keys|
      invariant s.Valid() && s.View() == Reap(was, Ids(db, keys[1..i]), now)
      invariant all == DiffAll(was, db, keys[i..], now, base)
    {
      assert keys[i..][0] == keys[i] && keys[i..][1..] == keys[i + 1..];
      var other := NextSet(s, db, now, keys, i, was);
      base := base - other;
    }
    r := Members(base);
  }
}

/** Whole runs against the tables. */
module StoreRuns {
  import opened Sequences
  import opened Keyspace
  import opened StoreCore
  import opened Runs
  import StoreStrings
  import StoreLists
  import StoreHashes
  import StoreSets
  import StoreZSets
  import StoreKeys

  /** The operation on one key, by the method that the program has for it. */
  method Perform(s: Store, id: Id, now: int, op: Op) returns (r: Reply)
    requires s.Valid()
    modifies s
    ensures s.Valid() && Performed(old(s.View()), s.View(), id, now, op, r)
  {
    hide Performed;
    match op {
      case OnKey(ExpireAt(at)) => r := StoreKeys.ExpireAt(s, id, now, at);
      case OnKey(TimeToLive(millis)) => r := StoreKeys.Ttl(s, id, now, millis);
      case OnKey(Persist) => r := StoreKeys.Persist(s, id, now);
      case OnKey(TypeOf) => r := StoreKeys.Type(s, id, now);
      case OnString(Get) => r := StoreStrings.Get(s, id, now);
      case OnString(SetText(v, x, nx, xx)) => r := StoreStrings.Set(s, id, now, v, x, nx, xx);
      case OnString(IncrBy(delta)) => r := StoreStrings.IncrBy(s, id, now, delta);
      case OnString(Append(suffix)) => r := StoreStrings.Append(s, id, now, suffix);
      case OnString(StrLen) => r := StoreStrings.StrLen(s, id, now);
      case OnList(l) => r := PerformList(s, id, now, l);
      case OnHash(HSet(pairs)) => r := StoreHashes.HSet(s, id, now, pairs);
      case OnHash(HDel(names)) => r := StoreHashes.HDel(s, id, now, names);
      case OnHash(h) => r := StoreHashes.ReadFields(s, id, now, h);
      case OnSet(SAdd(names)) => r := StoreSets.SAdd(s, id, now, names);
      case OnSet(SRem(names)) => r := StoreSets.SRem(s, id, now, names);
      case OnSet(m) => r := StoreSets.ReadMembers(s, id, now, m);
      case OnZSet(ZAdd(scores, nx, xx)) => r := StoreZSets.ZAdd(s, id, now, scores, nx, xx);
      case OnZSet(ZRem(names)) => r := StoreZSets.ZRem(s, id, now, names);
      case OnZSet(z) => r := StoreZSets.ReadScores(s, id, now, z);
    }
  }

  method PerformList(s: Store, id: Id, now: int, op: ListOp) returns (r: Reply)
    requires s.Valid()
    modifies s
    ensures s.Valid() && Performed(old(s.View()), s.View(), id, now, OnList(op), r)
  {
    hide Performed;
    match op {
      case LPush(values) => r := StoreLists.LPush(s, id, now, values);
      case RPush(values) => r := StoreLists.RPush(s, id, now, values);
      case LPop => r := StoreLists.LPop(s, id, now);
      case RPop => r := StoreLists.RPop(s, id, now);
      case LLen => r := StoreLists.LLen(s, id, now);
      case LRange(start, stop) => r := StoreLists.LRange(s, id, now, start, stop);
      case LIndex(index) => r := StoreLists.LIndex(s, id, now, index);
      case LSet(index, value) => r := StoreLists.LSet(s, id, now, index, value);
      case LInsert(before, pivot, value) => r := StoreLists.LInsert(s, id, now, before, pivot, value);
      case LRem(count, value) => r := StoreLists.LRem(s, id, now, count, value);
    }
  }

  /** Every command leaves the table invariant and refines its step on the keyspace. */
  method Execute(s: Store, now: int, db: nat, cmd: Command) returns (r: Reply)
    requires s.Valid()
    modifies s
    ensures s.Valid() && Step(old(s.View()), now, db, cmd) == (s.View(), r)
  {
    hide Performed, Step;
    match cmd {
      case One(key, op) =>
        r := Perform(s, Id(db, key), now, op);
        PerformedIsStep(old(s.View()), s.View(), Id(db, key), now, op, r);
      case Del(keys) => r := StoreKeys.Del(s, db, now, keys);
      case Exists(keys) => r := StoreKeys.Exists(s, db, now, keys);
      case Rename(src, dst) => r := StoreKeys.Rename(s, db, now, src, dst);
      case Keys(pattern, stack) => r := StoreKeys.Keys(s, db, now, pattern, stack);
      case DBSize => r := StoreKeys.DBSize(s, db, now);
      case FlushDB => r := StoreKeys.FlushDB(s, db, now);
      case FlushAll => r := StoreKeys.FlushAll(s, db, now);
      case SUnion(keys) => r := StoreKeys.SUnion(s, db, now, keys);
      case SInter(keys) => r := StoreKeys.SInter(s, db, now, keys);
      case SDiff(keys) => r := StoreKeys.SDiff(s, db, now, keys);
    }
  }

  /** A run of commands and sweeps on the tables is the run on the keyspace: same replies, same keyspace, and
      the same end when KEYS panics. */
  method RunEvents(s: Store, events: seq<Event>) returns (replies: seq<Reply>)
    requires s.Valid()
    modifies s
    ensures s.Valid() && RunAll(old(s.View()), events) == (s.View(), replies)
  {
    hide Step, Sweep, RunAll;
    replies := [];
    ghost var was := s.View();
    assert events[0..] == events;
    NothingDone(RunAll(was, events));
    for i := 0 to |events|
      invariant s.Valid()
      invariant Continues(RunAll(was, events), replies, RunAll(s.View(), events[i..]))
    {
      assert events[i..][0] == events[i] && events[i..][1..] == events[i + 1..];
      ghost var here := s.View();
      AfterFirst(here, events[i..]);
      match events[i] {
        case SweepAt(now) =>
          StoreKeys.SweepExpired(s, now);
        case Call(now, db, cmd) =>
          var r := Execute(s, now, db, cmd);
          if r == Crashed {
            ContinueLast(RunAll(was, events), replies, r, s.View());
            replies := replies + [r];
            return;
          }
          ContinueOne(RunAll(was, events), replies, r, RunAll(s.View(), events[i + 1..]));
          replies := replies + [r];
      }
    }
    assert events[|events|..] == [];
    RunNone(s.View());
    assert replies + [] == replies;
  }

  lemma RunNone(s: Space)
    ensures RunAll(s, []) == (s, [])
  {
  }

  /** `rest` is what is left of `whole` after the replies `done`. */
  ghost predicate Continues(whole: (Space, seq<Reply>), done: seq<Reply>, rest: (Space, seq<Reply>)) {
    whole.0 == rest.0 && whole.1 == done + rest.1
  }

  lemma NothingDone(whole: (Space, seq<Reply>))
    ensures Continues(whole, [], whole)
  {
    assert [] + whole.1 == whole.1;
  }

  lemma ContinueOne(whole: (Space, seq<Reply>), done: seq<Reply>, r: Reply, rest: (Space, seq<Reply>))
    requires Continues(whole, done, (rest.0, [r] + rest.1))
    ensures Continues(whole, done + [r], rest)
  {
    Assoc(done, [r], rest.1);
  }

  lemma ContinueLast(whole: (Space, seq<Reply>), done: seq<Reply>, r: Reply, s: Space)
    requires Continues(whole, done, (s, [r]))
    ensures whole == (s, done + [r])
  {
  }
}
