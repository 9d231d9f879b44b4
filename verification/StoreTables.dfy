/** Facts about maps and sets that the row-by-row loops need. */
module RowLoops {
  import opened Keyspace

  lemma SetOfSnoc(names: seq<string>, i: nat)
    requires i < |names|
    ensures SetOf(names[..i + 1]) == SetOf(names[..i]) + {names[i]}
  {
    assert names[..i + 1] == names[..i] + [names[i]];
  }

  lemma SetOfAll(names: seq<string>)
    ensures SetOf(names[..|names|]) == SetOf(names) && SetOf(names[..0]) == {}
  {
    assert names[..|names|] == names;
  }

  /** Deleting one more row removes it from the map and from its size exactly if it was there. */
  lemma DropOne<V>(m: map<string, V>, gone: set<string>, x: string)
    ensures (m - gone) - {x} == m - (gone + {x})
    ensures |m - (gone + {x})| == |m - gone| - if x in m - gone then 1 else 0
  {
    hide *;
    var a := m - gone;
    assert a - {x} == m - (gone + {x});
    assert (a - {x}).Keys == a.Keys - {x};
  }

  /** Writing one more of the pairs. */
  lemma PutOne<V>(m: map<string, V>, pairs: map<string, V>, rest: map<string, V>, x: string)
    requires x in rest && x in pairs && rest.Keys <= pairs.Keys
    ensures (m + (pairs - rest.Keys))[x := pairs[x]] == m + (pairs - (rest - {x}).Keys)
    ensures |m + (pairs - (rest - {x}).Keys)|
         == |m + (pairs - rest.Keys)| + if x in m + (pairs - rest.Keys) then 0 else 1
  {
    var a, b := m + (pairs - rest.Keys), m + (pairs - (rest - {x}).Keys);
    assert b == a[x := pairs[x]];
  }

  lemma PutEnds<V>(m: map<string, V>, pairs: map<string, V>, none: map<string, V>)
    requires none == map[]
    ensures m + (pairs - pairs.Keys) == m && pairs - none.Keys == pairs
  {
  }

  lemma NothingToDrop<V>(none: map<string, V>, gone: set<string>)
    requires none == map[]
    ensures none - gone == map[]
  {
  }

  lemma Smaller<V>(m: map<string, V>, x: string)
    requires x in m
    ensures |m - {x}| < |m|
  {
    assert (m - {x}).Keys == m.Keys - {x};
  }
}

/** hashes.go. */
module StoreHashes {
  import opened Decimal
  import opened Keyspace
  import opened Database
  import opened StoreCore
  import opened RowLoops
  import StoreLists

  /** The rows of a key of type hash. */
  function Hashed(m: map<string, string>, deadline: Option<int>): Rec {
    NOTHING.(key := Some(KeyRow(KHash, deadline)), fields := m)
  }

  lemma FinishHash(d: Db, d': Db, id: Id, now: int, op: HashOp, e: Option<Entry>, m: map<string, string>, r: Reply)
    requires Inv(d) && OnlyAt(d, d', id) && e == Lookup(SpaceOf(d), id, now)
    requires e.Some? ==> e.value.content.Hash?
    requires DoHash(op, FieldsOf(e)) == (m, r)
    requires Project(d', id) == if e.None? && !op.HSet? then NOTHING else Hashed(m, DeadlineOf(e))
    ensures Inv(d') && Performed(SpaceOf(d), SpaceOf(d'), id, now, OnHash(op), r)
  {
    hide Inv, SpaceOf, Lookup, Project, OnlyAt, Performed, DoHash;
    Finish(d, d', id, now, OnHash(op), Keyspace.Store(e, op.HSet?, Hash(m)), r);
  }

  /** The rows and the fields after the key has been opened, for the visible entry `e`. */
  ghost predicate Opened(e: Option<Entry>, rec: Rec, ok: bool, creates: bool) {
    && !EmptyList(e)
    && ok == !(e.Some? && KindOf(e.value.content) != KHash)
    && (!ok ==> rec == RecOf(e))
    && (ok ==> rec == if e.None? && !creates then NOTHING else Hashed(FieldsOf(e), DeadlineOf(e)))
  }

  /** deleteExpired and hAssert, or hEnsure. */
  method Open(s: Store, id: Id, now: int, creates: bool) returns (ok: bool)
    requires s.Valid()
    modifies s
    ensures OnlyAt(old(s.db), s.db, id)
    ensures Opened(Lookup(old(s.View()), id, now), Project(s.db, id), ok, creates)
  {
    hide Inv, SpaceOf, Lookup, Project, OnlyAt;
    if creates {
      ok := s.Ensure(id, now, KHash);
    } else {
      ok := s.Prepare(id, now, KHash);
    }
  }

  lemma AddIs(m: map<string, string>, pairs: map<string, string>)
    ensures DoHash(HashOp.HSet(pairs), m) == (m + pairs, Int(|m + pairs| - |m|))
  {
    hide SetOf;
  }

  lemma DropIs(m: map<string, string>, names: seq<string>)
    ensures DoHash(HashOp.HDel(names), m) == (m - SetOf(names), Int(|m| - |m - SetOf(names)|))
  {
    hide SetOf;
  }

  method HSet(s: Store, id: Id, now: int, pairs: map<string, string>) returns (r: Reply)
    requires s.Valid()
    modifies s
    ensures s.Valid() && Performed(old(s.View()), s.View(), id, now, OnHash(HashOp.HSet(pairs)), r)
  {
    hide Inv, SpaceOf, Lookup, Project, OnlyAt, Performed, RecOf, DoHash, Hashed;
    ghost var op := HashOp.HSet(pairs);
    ghost var e := Lookup(s.View(), id, now);
    var ok := Open(s, id, now, true);
    if !ok {
      StoreLists.FinishMismatch(old(s.db), s.db, id, now, OnHash(op), e);
      return WrongType;
    }
    ghost var ready := s.db;
    var added := PutAll(s, id, pairs, FieldsOf(e), DeadlineOf(e));
    Chain(old(s.db), ready, s.db, id);
    AddIs(FieldsOf(e), pairs);
    r := Int(added);
    FinishHash(old(s.db), s.db, id, now, op, e, FieldsOf(e) + pairs, r);
  }

  /** The loop of HSET, over the pairs in whatever order the map gives them. */
  method PutAll(s: Store, id: Id, pairs: map<string, string>, ghost m: map<string, string>, ghost deadline: Option<int>)
    returns (added: int)
    requires Project(s.db, id) == Hashed(m, deadline)
    modifies s
    ensures OnlyAt(old(s.db), s.db, id) && Project(s.db, id) == Hashed(m + pairs, deadline)
    ensures added == |m + pairs| - |m|
  {
    hide Project, OnlyAt;
    SameEverywhere(s.db, id);
    added := 0;
    var rest := pairs;
    PutEnds(m, pairs, map[]);
    while rest != map[]
      invariant rest.Keys <= pairs.Keys
      invariant OnlyAt(old(s.db), s.db, id) && Project(s.db, id) == Hashed(m + (pairs - rest.Keys), deadline)
      invariant added == |m + (pairs - rest.Keys)| - |m|
      decreases |rest|
    {
      var field :| field in rest;
      PutOne(m, pairs, rest, field);
      Smaller(rest, field);
      var fields := s.SelectFields(id);
      if field !in fields {
        added := added + 1;
      }
      ghost var was := s.db;
      s.PutField(id, field, pairs[field]);
      Chain(old(s.db), was, s.db, id);
      rest := rest - {field};
    }
  }

  method HDel(s: Store, id: Id, now: int, names: seq<string>) returns (r: Reply)
    requires s.Valid()
    modifies s
    ensures s.Valid() && Performed(old(s.View()), s.View(), id, now, OnHash(HashOp.HDel(names)), r)
  {
    hide Inv, SpaceOf, Lookup, Project, OnlyAt, Performed, RecOf, SetOf, DoHash;
    ghost var op := HashOp.HDel(names);
    ghost var e := Lookup(s.View(), id, now);
    var ok := Open(s, id, now, false);
    if !ok {
      StoreLists.FinishMismatch(old(s.db), s.db, id, now, OnHash(op), e);
      return WrongType;
    }
    ghost var ready := s.db;
    var removed := DropAll(s, id, names, FieldsOf(e));
    Chain(old(s.db), ready, s.db, id);
    if e.None? {
      NothingToDrop(FieldsOf(e), SetOf(names));
    }
    DropIs(FieldsOf(e), names);
    r := Int(removed);
    FinishHash(old(s.db), s.db, id, now, op, e, FieldsOf(e) - SetOf(names), r);
  }

  /** The loop of HDEL; a repeated field is found only once. */
  method DropAll(s: Store, id: Id, names: seq<string>, ghost m: map<string, string>) returns (removed: int)
    requires Project(s.db, id).fields == m
    modifies s
    ensures OnlyAt(old(s.db), s.db, id) && Project(s.db, id) == old(Project(s.db, id)).(fields := m - SetOf(names))
    ensures removed == |m| - |m - SetOf(names)|
  {
    hide Project, OnlyAt, SetOf;
    SameEverywhere(s.db, id);
    removed := 0;
    SetOfAll(names);
    assert m - {} == m;
    for i := 0 to |names|
      invariant OnlyAt(old(s.db), s.db, id)
      invariant Project(s.db, id) == old(Project(s.db, id)).(fields := m - SetOf(names[..i]))
      invariant removed == |m| - |m - SetOf(names[..i])|
    {
      SetOfSnoc(names, i);
      DropOne(m, SetOf(names[..i]), names[i]);
      ghost var was := s.db;
      var n := s.DeleteField(id, names[i]);
      Chain(old(s.db), was, s.db, id);
      removed := removed + n;
    }
  }

  method Query(m: map<string, string>, op: HashOp) returns (r: Reply)
    requires op.HGet? || op.HGetAll? || op.HLen?
    ensures DoHash(op, m) == (m, r)
  {
    if op.HGet? {
      r := if op.field in m then Text(m[op.field]) else Missing;
    } else if op.HLen? {
      r := Int(|m|);
    } else {
      r := Fields(m);
    }
  }

  /** The three reads: after the checks they only look at the rows. */
  method ReadFields(s: Store, id: Id, now: int, op: HashOp) returns (r: Reply)
    requires s.Valid() && (op.HGet? || op.HGetAll? || op.HLen?)
    modifies s
    ensures s.Valid() && Performed(old(s.View()), s.View(), id, now, OnHash(op), r)
  {
    hide Inv, SpaceOf, Lookup, Project, OnlyAt, Performed, RecOf;
    ghost var e := Lookup(s.View(), id, now);
    var ok := Open(s, id, now, false);
    if !ok {
      StoreLists.FinishMismatch(old(s.db), s.db, id, now, OnHash(op), e);
      return WrongType;
    }
    var m := s.SelectFields(id);
    r := Query(m, op);
    FinishHash(old(s.db), s.db, id, now, op, e, FieldsOf(e), r);
  }
}

/** sets.go: the methods on one key. */
module StoreSets {
  import opened Decimal
  import opened Keyspace
  import opened Database
  import opened StoreCore
  import opened RowLoops
  import StoreLists

  /** The rows of a key of type set. */
  function Gathered(m: set<string>, deadline: Option<int>): Rec {
    NOTHING.(key := Some(KeyRow(KSet, deadline)), members := Units(m))
  }

  lemma NoMembers()
    ensures Units({}) == map[]
  {
  }

  lemma FinishSet(d: Db, d': Db, id: Id, now: int, op: SetOp, e: Option<Entry>, m: set<string>, r: Reply)
    requires Inv(d) && OnlyAt(d, d', id) && e == Lookup(SpaceOf(d), id, now)
    requires e.Some? ==> e.value.content.Set?
    requires DoSet(op, MembersOf(e)) == (m, r)
    requires Project(d', id) == if e.None? && !op.SAdd? then NOTHING else Gathered(m, DeadlineOf(e))
    ensures Inv(d') && Performed(SpaceOf(d), SpaceOf(d'), id, now, OnSet(op), r)
  {
    hide Inv, SpaceOf, Lookup, Project, OnlyAt, Performed, DoSet;
    Finish(d, d', id, now, OnSet(op), Keyspace.Store(e, op.SAdd?, Content.Set(m)), r);
  }

  ghost predicate Opened(e: Option<Entry>, rec: Rec, ok: bool, creates: bool) {
    && !EmptyList(e)
    && ok == !(e.Some? && KindOf(e.value.content) != KSet)
    && (!ok ==> rec == RecOf(e))
    && (ok ==> rec == if e.None? && !creates then NOTHING else Gathered(MembersOf(e), DeadlineOf(e)))
  }

  /** deleteExpired and sAssert, or sEnsure. */
  method Open(s: Store, id: Id, now: int, creates: bool) returns (ok: bool)
    requires s.Valid()
    modifies s
    ensures OnlyAt(old(s.db), s.db, id)
    ensures Opened(Lookup(old(s.View()), id, now), Project(s.db, id), ok, creates)
  {
    hide Inv, SpaceOf, Lookup, Project, OnlyAt;
    NoMembers();
    if creates {
      ok := s.Ensure(id, now, KSet);
    } else {
      ok := s.Prepare(id, now, KSet);
    }
  }

  lemma AddIs(m: set<string>, names: seq<string>)
    ensures DoSet(SetOp.SAdd(names), m) == (m + SetOf(names), Int(|m + SetOf(names)| - |m|))
  {
    hide SetOf;
  }

  lemma DropIs(m: set<string>, names: seq<string>)
    ensures DoSet(SetOp.SRem(names), m) == (m - SetOf(names), Int(|m| - |m - SetOf(names)|))
  {
    hide SetOf;
  }

  method SAdd(s: Store, id: Id, now: int, names: seq<string>) returns (r: Reply)
    requires s.Valid()
    modifies s
    ensures s.Valid() && Performed(old(s.View()), s.View(), id, now, OnSet(SetOp.SAdd(names)), r)
  {
    hide Inv, SpaceOf, Lookup, Project, OnlyAt, Performed, RecOf, SetOf, DoSet, Units, Gathered;
    ghost var op := SetOp.SAdd(names);
    ghost var e := Lookup(s.View(), id, now);
    var ok := Open(s, id, now, true);
    if !ok {
      StoreLists.FinishMismatch(old(s.db), s.db, id, now, OnSet(op), e);
      return WrongType;
    }
    ghost var ready := s.db;
    var added := InsertAll(s, id, names, MembersOf(e), DeadlineOf(e));
    Chain(old(s.db), ready, s.db, id);
    AddIs(MembersOf(e), names);
    r := Int(added);
    FinishSet(old(s.db), s.db, id, now, op, e, MembersOf(e) + SetOf(names), r);
  }

  lemma InsertOne(m: set<string>, more: set<string>, x: string)
    ensures Units(m + more)[x := ()] == Units(m + (more + {x}))
    ensures |m + (more + {x})| == |m + more| + if x in m + more then 0 else 1
  {
    assert m + (more + {x}) == (m + more) + {x};
    if x in m + more {
      assert (m + more) + {x} == m + more;
    }
  }

  lemma RemoveOne(m: set<string>, gone: set<string>, x: string)
    ensures Units(m - gone) - {x} == Units(m - (gone + {x}))
    ensures |m - (gone + {x})| == |m - gone| - if x in m - gone then 1 else 0
  {
    assert m - (gone + {x}) == (m - gone) - {x};
  }

  /** The loop of SADD; a repeated member is new only once. */
  method InsertAll(s: Store, id: Id, names: seq<string>, ghost m: set<string>, ghost deadline: Option<int>)
    returns (added: int)
    requires Project(s.db, id) == Gathered(m, deadline)
    modifies s
    ensures OnlyAt(old(s.db), s.db, id) && Project(s.db, id) == Gathered(m + SetOf(names), deadline)
    ensures added == |m + SetOf(names)| - |m|
  {
    hide Project, OnlyAt, SetOf, Units;
    SameEverywhere(s.db, id);
    added := 0;
    SetOfAll(names);
    assert m + {} == m;
    for i := 0 to |names|
      invariant OnlyAt(old(s.db), s.db, id)
      invariant Project(s.db, id) == Gathered(m + SetOf(names[..i]), deadline)
      invariant added == |m + SetOf(names[..i])| - |m|
    {
      SetOfSnoc(names, i);
      InsertOne(m, SetOf(names[..i]), names[i]);
      ghost var was := s.db;
      var n := s.InsertMember(id, names[i]);
      Chain(old(s.db), was, s.db, id);
      added := added + n;
    }
  }

  method SRem(s: Store, id: Id, now: int, names: seq<string>) returns (r: Reply)
    requires s.Valid()
    modifies s
    ensures s.Valid() && Performed(old(s.View()), s.View(), id, now, OnSet(SetOp.SRem(names)), r)
  {
    hide Inv, SpaceOf, Lookup, Project, OnlyAt, Performed, RecOf, SetOf, DoSet, Units;
    ghost var op := SetOp.SRem(names);
    ghost var e := Lookup(s.View(), id, now);
    var ok := Open(s, id, now, false);
    if !ok {
      StoreLists.FinishMismatch(old(s.db), s.db, id, now, OnSet(op), e);
      return WrongType;
    }
    NoMembers();
    ghost var ready := s.db;
    var removed := RemoveAll(s, id, names, MembersOf(e));
    Chain(old(s.db), ready, s.db, id);
    DropIs(MembersOf(e), names);
    r := Int(removed);
    assert e.None? ==> MembersOf(e) - SetOf(names) == {};
    FinishSet(old(s.db), s.db, id, now, op, e, MembersOf(e) - SetOf(names), r);
  }

  /** The loop of SREM. */
  method RemoveAll(s: Store, id: Id, names: seq<string>, ghost m: set<string>) returns (removed: int)
    requires Project(s.db, id).members == Units(m)
    modifies s
    ensures OnlyAt(old(s.db), s.db, id)
    ensures Project(s.db, id) == old(Project(s.db, id)).(members := Units(m - SetOf(names)))
    ensures removed == |m| - |m - SetOf(names)|
  {
    hide Project, OnlyAt, SetOf, Units;
    SameEverywhere(s.db, id);
    removed := 0;
    SetOfAll(names);
    assert m - {} == m;
    for i := 0 to |names|
      invariant OnlyAt(old(s.db), s.db, id)
      invariant Project(s.db, id) == old(Project(s.db, id)).(members := Units(m - SetOf(names[..i])))
      invariant removed == |m| - |m - SetOf(names[..i])|
    {
      SetOfSnoc(names, i);
      RemoveOne(m, SetOf(names[..i]), names[i]);
      ghost var was := s.db;
      var n := s.DeleteMember(id, names[i]);
      Chain(old(s.db), was, s.db, id);
      removed := removed + n;
    }
  }

  method Query(m: set<string>, op: SetOp) returns (r: Reply)
    requires op.SMembers? || op.SIsMember? || op.SCard?
    ensures DoSet(op, m) == (m, r)
  {
    if op.SMembers? {
      r := Members(m);
    } else if op.SIsMember? {
      r := Bool(op.name in m);
    } else {
      r := Int(|m|);
    }
  }

  method ReadMembers(s: Store, id: Id, now: int, op: SetOp) returns (r: Reply)
    requires s.Valid() && (op.SMembers? || op.SIsMember? || op.SCard?)
    modifies s
    ensures s.Valid() && Performed(old(s.View()), s.View(), id, now, OnSet(op), r)
  {
    hide Inv, SpaceOf, Lookup, Project, OnlyAt, Performed, RecOf;
    ghost var e := Lookup(s.View(), id, now);
    var ok := Open(s, id, now, false);
    if !ok {
      StoreLists.FinishMismatch(old(s.db), s.db, id, now, OnSet(op), e);
      return WrongType;
    }
    var m := s.SelectMembers(id);
    NoMembers();
    assert m == MembersOf(e);
    r := Query(m, op);
    FinishSet(old(s.db), s.db, id, now, op, e, MembersOf(e), r);
  }
}

/** zsets.go. */
module StoreZSets {
  import opened Decimal
  import opened ListEdits
  import opened Keyspace
  import opened Ranking
  import opened Database
  import opened StoreCore
  import opened RowLoops
  import StoreLists

  /** The rows of a key of type zset. */
  function Scored(m: Table, deadline: Option<int>): Rec {
    NOTHING.(key := Some(KeyRow(KZSet, deadline)), scores := m)
  }

  lemma FinishZSet(d: Db, d': Db, id: Id, now: int, op: ZOp, e: Option<Entry>, m: Table, r: Reply)
    requires Inv(d) && OnlyAt(d, d', id) && e == Lookup(SpaceOf(d), id, now)
    requires e.Some? ==> e.value.content.ZSet?
    requires DoZSet(op, ScoresOf(e)) == (m, r)
    requires Project(d', id) == if e.None? && !op.ZAdd? then NOTHING else Scored(m, DeadlineOf(e))
    ensures Inv(d') && Performed(SpaceOf(d), SpaceOf(d'), id, now, OnZSet(op), r)
  {
    hide Inv, SpaceOf, Lookup, Project, OnlyAt, Performed, DoZSet;
    Finish(d, d', id, now, OnZSet(op), Keyspace.Store(e, op.ZAdd?, ZSet(m)), r);
  }

  ghost predicate Opened(e: Option<Entry>, rec: Rec, ok: bool, creates: bool) {
    && !EmptyList(e)
    && ok == !(e.Some? && KindOf(e.value.content) != KZSet)
    && (!ok ==> rec == RecOf(e))
    && (ok ==> rec == if e.None? && !creates then NOTHING else Scored(ScoresOf(e), DeadlineOf(e)))
  }

  /** deleteExpired and zAssert, or zEnsure. */
  method Open(s: Store, id: Id, now: int, creates: bool) returns (ok: bool)
    requires s.Valid()
    modifies s
    ensures OnlyAt(old(s.db), s.db, id)
    ensures Opened(Lookup(old(s.View()), id, now), Project(s.db, id), ok, creates)
  {
    hide Inv, SpaceOf, Lookup, Project, OnlyAt;
    if creates {
      ok := s.Ensure(id, now, KZSet);
    } else {
      ok := s.Prepare(id, now, KZSet);
    }
  }

  lemma AddIs(m: Table, scores: Table, nx: bool, xx: bool)
    ensures var r := m + Admitted(m, scores, nx, xx);
      DoZSet(ZOp.ZAdd(scores, nx, xx), m) == (r, Int(|r| - |m|))
  {
    hide Admitted, Ranked, Between, Below, Range, SetOf;
  }

  lemma DropIs(m: Table, names: seq<string>)
    ensures DoZSet(ZOp.ZRem(names), m) == (m - SetOf(names), Int(|m| - |m - SetOf(names)|))
  {
    hide Admitted, Ranked, Between, Below, Range, SetOf;
  }

  method ZAdd(s: Store, id: Id, now: int, scores: Table, nx: bool, xx: bool) returns (r: Reply)
    requires s.Valid()
    modifies s
    ensures s.Valid() && Performed(old(s.View()), s.View(), id, now, OnZSet(ZOp.ZAdd(scores, nx, xx)), r)
  {
    hide Inv, SpaceOf, Lookup, Project, OnlyAt, Performed, RecOf, DoZSet, Admitted, Scored;
    ghost var op := ZOp.ZAdd(scores, nx, xx);
    ghost var e := Lookup(s.View(), id, now);
    var ok := Open(s, id, now, true);
    if !ok {
      StoreLists.FinishMismatch(old(s.db), s.db, id, now, OnZSet(op), e);
      return WrongType;
    }
    ghost var ready := s.db;
    var added := PutAll(s, id, scores, nx, xx, ScoresOf(e), DeadlineOf(e));
    Chain(old(s.db), ready, s.db, id);
    AddIs(ScoresOf(e), scores, nx, xx);
    r := Int(added);
    FinishZSet(old(s.db), s.db, id, now, op, e, ScoresOf(e) + Admitted(ScoresOf(e), scores, nx, xx), r);
  }

  /** The pairs that have been dealt with, as far as the options admit them. */
  ghost function Merged(m: Table, scores: Table, rest: Table, nx: bool, xx: bool): Table {
    m + Admitted(m, scores - rest.Keys, nx, xx)
  }

  lemma MergeOne(m: Table, scores: Table, rest: Table, nx: bool, xx: bool, x: string)
    requires x in rest && rest.Keys <= scores.Keys
    ensures x in Merged(m, scores, rest, nx, xx) <==> x in m
    ensures Merged(m, scores, rest - {x}, nx, xx)
         == if (nx && x in m) || (xx && x !in m) then Merged(m, scores, rest, nx, xx)
            else Merged(m, scores, rest, nx, xx)[x := scores[x]]
  {
  }

  lemma MergeEnds(m: Table, scores: Table, nx: bool, xx: bool)
    ensures Merged(m, scores, scores, nx, xx) == m
    ensures Merged(m, scores, map[], nx, xx) == m + Admitted(m, scores, nx, xx)
  {
    var none: Table := map[];
    assert scores - none.Keys == scores;
  }

  /** The loop of ZADD, over the pairs in whatever order the map gives them. */
  method PutAll(s: Store, id: Id, scores: Table, nx: bool, xx: bool, ghost m: Table, ghost deadline: Option<int>)
    returns (added: int)
    requires Project(s.db, id) == Scored(m, deadline)
    modifies s
    ensures OnlyAt(old(s.db), s.db, id)
    ensures Project(s.db, id) == Scored(m + Admitted(m, scores, nx, xx), deadline)
    ensures added == |m + Admitted(m, scores, nx, xx)| - |m|
  {
    hide Project, OnlyAt, Merged, Admitted;
    SameEverywhere(s.db, id);
    added := 0;
    var rest := scores;
    MergeEnds(m, scores, nx, xx);
    while rest != map[]
      invariant rest.Keys <= scores.Keys
      invariant OnlyAt(old(s.db), s.db, id) && Project(s.db, id) == Scored(Merged(m, scores, rest, nx, xx), deadline)
      invariant added == |Merged(m, scores, rest, nx, xx)| - |m|
      decreases |rest|
    {
      var name :| name in rest;
      Smaller(rest, name);
      MergeOne(m, scores, rest, nx, xx, name);
      var table := s.SelectScores(id);
      var present := name in table;
      rest := rest - {name};
      if (nx && present) || (xx && !present) {
        continue;
      }
      if !present {
        added := added + 1;
      }
      ghost var was := s.db;
      s.PutScore(id, name, scores[name]);
      Chain(old(s.db), was, s.db, id);
    }
  }

  method ZRem(s: Store, id: Id, now: int, names: seq<string>) returns (r: Reply)
    requires s.Valid()
    modifies s
    ensures s.Valid() && Performed(old(s.View()), s.View(), id, now, OnZSet(ZOp.ZRem(names)), r)
  {
    hide Inv, SpaceOf, Lookup, Project, OnlyAt, Performed, RecOf, SetOf, DoZSet;
    ghost var op := ZOp.ZRem(names);
    ghost var e := Lookup(s.View(), id, now);
    var ok := Open(s, id, now, false);
    if !ok {
      StoreLists.FinishMismatch(old(s.db), s.db, id, now, OnZSet(op), e);
      return WrongType;
    }
    ghost var ready := s.db;
    var removed := DropAll(s, id, names, ScoresOf(e));
    Chain(old(s.db), ready, s.db, id);
    if e.None? {
      NothingToDrop(ScoresOf(e), SetOf(names));
    }
    DropIs(ScoresOf(e), names);
    r := Int(removed);
    FinishZSet(old(s.db), s.db, id, now, op, e, ScoresOf(e) - SetOf(names), r);
  }

  /** The loop of ZREM. */
  method DropAll(s: Store, id: Id, names: seq<string>, ghost m: Table) returns (removed: int)
    requires Project(s.db, id).scores == m
    modifies s
    ensures OnlyAt(old(s.db), s.db, id) && Project(s.db, id) == old(Project(s.db, id)).(scores := m - SetOf(names))
    ensures removed == |m| - |m - SetOf(names)|
  {
    hide Project, OnlyAt, SetOf;
    SameEverywhere(s.db, id);
    removed := 0;
    SetOfAll(names);
    assert m - {} == m;
    for i := 0 to |names|
      invariant OnlyAt(old(s.db), s.db, id)
      invariant Project(s.db, id) == old(Project(s.db, id)).(scores := m - SetOf(names[..i]))
      invariant removed == |m| - |m - SetOf(names[..i])|
    {
      SetOfSnoc(names, i);
      DropOne(m, SetOf(names[..i]), names[i]);
      ghost var was := s.db;
      var n := s.DeleteScore(id, names[i]);
      Chain(old(s.db), was, s.db, id);
      removed := removed + n;
    }
  }

  /** The index arithmetic of ZRANGE, branch by branch: the OFFSET, and OFFSET plus LIMIT. */
  method Window(count: nat, first: Int64, last: Int64) returns (lo: int, hi: int)
    ensures (lo, hi) == Span(count, first, last)
  {
    var start: int, stop: int := first, last;
    if start < 0 {
      start := count + start;
    }
    if stop < 0 {
      stop := count + stop;
    }
    if start < 0 {
      start := 0;
    }
    if stop >= count {
      stop := count - 1;
    }
    if start > stop {
      return 0, 0;
    }
    return start, start + (stop - start + 1);
  }

  lemma RankedSize(z: Table)
    ensures |Ranked(z)| == |z|
  {
    RankedIsRanking(z);
  }

  method Query(m: Table, op: ZOp) returns (r: Reply)
    requires !op.ZAdd? && !op.ZRem?
    ensures DoZSet(op, m) == (m, r)
  {
    hide Ranked, Between, Below;
    match op {
      case ZScore(name) => r := if name in m then Points(m[name]) else Missing;
      case ZRank(name) => r := if name in m then Int(|Below(m, name)|) else Missing;
      case ZRange(start, stop) =>
        var ranked := Ranked(m);
        var lo, hi := Window(|ranked|, start, stop);
        r := Texts(ranked[lo..hi]);
      case ZRangeByScore(min, max) => r := Texts(Ranked(Between(m, min, max)));
      case ZCount(min, max) =>
        RankedSize(Between(m, min, max));
        r := Int(|Ranked(Between(m, min, max))|);
      case ZCard => r := Int(|m|);
    }
  }

  /** ZSCORE, ZRANK, ZRANGE, ZRANGEBYSCORE, ZCOUNT and ZCARD: after the checks they only look at the rows. */
  method ReadScores(s: Store, id: Id, now: int, op: ZOp) returns (r: Reply)
    requires s.Valid() && !op.ZAdd? && !op.ZRem?
    modifies s
    ensures s.Valid() && Performed(old(s.View()), s.View(), id, now, OnZSet(op), r)
  {
    hide Inv, SpaceOf, Lookup, Project, OnlyAt, Performed, RecOf, DoZSet;
    ghost var e := Lookup(s.View(), id, now);
    var ok := Open(s, id, now, false);
    if !ok {
      StoreLists.FinishMismatch(old(s.db), s.db, id, now, OnZSet(op), e);
      return WrongType;
    }
    var m := s.SelectScores(id);
    r := Query(m, op);
    FinishZSet(old(s.db), s.db, id, now, op, e, ScoresOf(e), r);
  }
}
