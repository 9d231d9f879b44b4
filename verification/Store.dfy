/** The store object: its database, the SQL statements it issues, and the steps shared by its methods. */
module StoreCore {
  import opened Decimal
  import opened Keyspace
  import opened Ranking
  import opened Database

  /** The keyspace and the reply are those of the operation on what is visible under `id`. */
  ghost predicate Performed(before: Space, after: Space, id: Id, now: int, op: Op, r: Reply) {
    var (e, reply) := Do(op, Lookup(before, id, now), now);
    after == Put(before, id, e) && r == reply
  }

  lemma PerformedIsStep(before: Space, after: Space, id: Id, now: int, op: Op, r: Reply)
    requires Performed(before, after, id, now, op, r)
    ensures Step(before, now, id.db, One(id.key, op)) == (after, r)
  {
  }

  /** A method has done its operation once the rows of its key are those of the resulting entry. */
  lemma Finish(d: Db, d': Db, id: Id, now: int, op: Op, e: Option<Entry>, r: Reply)
    requires Inv(d) && OnlyAt(d, d', id) && Project(d', id) == RecOf(e) && !EmptyList(e)
    requires Do(op, Lookup(SpaceOf(d), id, now), now) == (e, r)
    ensures Inv(d') && Performed(SpaceOf(d), SpaceOf(d'), id, now, op, r)
  {
    Rewritten(d, d', id, e);
  }

  lemma Chain(d: Db, d': Db, d'': Db, id: Id)
    requires OnlyAt(d, d', id) && OnlyAt(d', d'', id)
    ensures OnlyAt(d, d'', id)
  {
    hide Project;
  }

  lemma SameEverywhere(d: Db, id: Id)
    ensures OnlyAt(d, d, id)
  {
  }

  lemma KeyColumn(d: Db, id: Id)
    ensures Project(d, id).key == if id in d.keys then Some(d.keys[id]) else None
  {
  }

  class Store {
    var db: Db

    ghost predicate Valid()
      reads this
    {
      Inv(db)
    }

    ghost function View(): Space
      reads this
    {
      SpaceOf(db)
    }

    /** An empty schema. */
    constructor ()
      ensures Valid() && View() == map[]
    {
      db := Db(map[], map[], map[], map[], map[], map[]);
      new;
      assert forall id :: Project(db, id) == NOTHING;
    }

    // -------------------------------------------------------------- statements on the rows of one key

    /** INSERT INTO keys ... ON CONFLICT DO UPDATE. */
    method UpsertKey(id: Id, row: KeyRow)
      modifies this
      ensures OnlyAt(old(db), db, id) && Project(db, id) == old(Project(db, id)).(key := Some(row))
    {
      db := db.(keys := db.keys[id := row]);
    }

    /** INSERT INTO keys(key, db, type) ... ON CONFLICT DO UPDATE SET type: an existing deadline stays. */
    method UpsertType(id: Id, kind: Kind)
      modifies this
      ensures OnlyAt(old(db), db, id)
      ensures Project(db, id) == old(Project(db, id)).(key := Some(KeyRow(kind,
                if old(Project(db, id)).key.Some? then old(Project(db, id)).key.value.expires else None)))
    {
      db := db.(keys := db.keys[id := KeyRow(kind, if id in db.keys then db.keys[id].expires else None)]);
    }

    /** INSERT INTO keys ... ON CONFLICT DO NOTHING. */
    method InsertKey(id: Id, kind: Kind)
      modifies this
      ensures OnlyAt(old(db), db, id)
      ensures Project(db, id) == if old(Project(db, id)).key.Some? then old(Project(db, id))
                                 else old(Project(db, id)).(key := Some(KeyRow(kind, None)))
    {
      if id !in db.keys {
        db := db.(keys := db.keys[id := KeyRow(kind, None)]);
      }
    }

    /** DELETE FROM keys WHERE key=? AND db=?, with its cascade; `n` is the number of rows affected. */
    method DeleteKey(id: Id) returns (n: nat)
      modifies this
      ensures OnlyAt(old(db), db, id) && Project(db, id) == NOTHING
      ensures n == if old(Project(db, id)).key.Some? then 1 else 0
      ensures old(Valid()) ==> Valid() && View() == old(View()) - {id}
    {
      hide Inv, SpaceOf, Lookup, Project, Deleted;
      KeyColumn(db, id);
      n := if id in db.keys then 1 else 0;
      DeletedRows(db, {id});
      if Inv(db) {
        DeletedSpace(db, {id});
      }
      db := Deleted(db, {id});
    }

    /** UPDATE keys SET expires_at=? WHERE key=? AND db=?; `n` is the number of rows affected. */
    method UpdateExpires(id: Id, expires: Option<int>) returns (n: nat)
      modifies this
      ensures OnlyAt(old(db), db, id)
      ensures n == if old(Project(db, id)).key.Some? then 1 else 0
      ensures Project(db, id) == var was := old(Project(db, id));
                if was.key.Some? then was.(key := Some(was.key.value.(expires := expires))) else was
    {
      n := 0;
      if id in db.keys {
        db := db.(keys := db.keys[id := db.keys[id].(expires := expires)]);
        n := 1;
      }
    }

    /** SELECT type, expires_at FROM keys WHERE key=? AND db=?. */
    method SelectKey(id: Id) returns (row: Option<KeyRow>)
      ensures row == Project(db, id).key
    {
      row := if id in db.keys then Some(db.keys[id]) else None;
    }

    /** INSERT INTO one child table SELECT the rows of `src` as rows of `dst`. */
    method CopyRows(src: Id, dst: Id, kind: Kind)
      requires Project(db, dst) == NOTHING.(key := Project(db, dst).key) && Project(db, dst).key.Some?
      modifies this
      ensures OnlyAt(old(db), db, dst)
      ensures var from, to := old(Project(db, src)), old(Project(db, dst));
        Project(db, dst) == match kind
          case KString => to.(text := from.text)
          case KList => to.(items := from.items)
          case KHash => to.(fields := from.fields)
          case KSet => to.(members := from.members)
          case KZSet => to.(scores := from.scores)
    {
      hide Rows, Copied;
      match kind {
        case KString =>
          if src in db.strings {
            db := db.(strings := db.strings[dst := db.strings[src]]);
          }
        case KList =>
          RowsCopied(db.lists, src, dst);
          db := db.(lists := Copied(db.lists, src, dst));
        case KHash =>
          RowsCopied(db.hashes, src, dst);
          db := db.(hashes := Copied(db.hashes, src, dst));
        case KSet =>
          RowsCopied(db.sets, src, dst);
          db := db.(sets := Copied(db.sets, src, dst));
        case KZSet =>
          RowsCopied(db.zsets, src, dst);
          db := db.(zsets := Copied(db.zsets, src, dst));
      }
    }

    /** INSERT INTO strings ... ON CONFLICT DO UPDATE; the foreign key needs the parent row. */
    method PutString(id: Id, text: string)
      requires Project(db, id).key.Some?
      modifies this
      ensures OnlyAt(old(db), db, id) && Project(db, id) == old(Project(db, id)).(text := Some(text))
    {
      db := db.(strings := db.strings[id := text]);
    }

    /** SELECT value FROM strings WHERE key=? AND db=?. */
    method SelectString(id: Id) returns (text: Option<string>)
      ensures text == Project(db, id).text
    {
      text := if id in db.strings then Some(db.strings[id]) else None;
    }

    /** SELECT value FROM lists ... ORDER BY idx ASC. */
    method SelectItems(id: Id) returns (all: seq<string>)
      ensures all == ByIndex(Project(db, id).items)
    {
      all := ByIndex(Rows(db.lists, id));
    }

    /** SELECT field, value FROM hashes. */
    method SelectFields(id: Id) returns (m: map<string, string>)
      ensures m == Project(db, id).fields
    {
      m := Rows(db.hashes, id);
    }

    /** SELECT member FROM sets. */
    method SelectMembers(id: Id) returns (m: set<string>)
      ensures m == Project(db, id).members.Keys
    {
      m := Rows(db.sets, id).Keys;
    }

    /** SELECT member, score FROM zsets. */
    method SelectScores(id: Id) returns (m: Table)
      ensures m == Project(db, id).scores
    {
      m := Rows(db.zsets, id);
    }

    /** DELETE FROM lists WHERE key=? AND db=?. */
    method DeleteItems(id: Id)
      modifies this
      ensures OnlyAt(old(db), db, id) && Project(db, id) == old(Project(db, id)).(items := map[])
    {
      hide Rows, Without;
      RowsWithout(db.lists, {id});
      db := db.(lists := Without(db.lists, {id}));
    }

    /** INSERT INTO lists; the primary key must be new and the foreign key needs the parent row. */
    method InsertItem(id: Id, i: int, text: string)
      requires Project(db, id).key.Some? && i !in Project(db, id).items
      modifies this
      ensures OnlyAt(old(db), db, id)
      ensures Project(db, id) == old(Project(db, id)).(items := old(Project(db, id)).items[i := text])
    {
      RowsPut(db.lists, id, i, text);
      db := db.(lists := db.lists[Pk(id, i) := text]);
    }

    /** INSERT INTO hashes ... ON CONFLICT DO UPDATE. */
    method PutField(id: Id, field: string, text: string)
      requires Project(db, id).key.Some?
      modifies this
      ensures OnlyAt(old(db), db, id)
      ensures Project(db, id) == old(Project(db, id)).(fields := old(Project(db, id)).fields[field := text])
    {
      RowsPut(db.hashes, id, field, text);
      db := db.(hashes := db.hashes[Pk(id, field) := text]);
    }

    /** DELETE FROM hashes ... AND field=?; `n` is the number of rows affected. */
    method DeleteField(id: Id, field: string) returns (n: nat)
      modifies this
      ensures OnlyAt(old(db), db, id)
      ensures Project(db, id) == old(Project(db, id)).(fields := old(Project(db, id)).fields - {field})
      ensures n == if field in old(Project(db, id)).fields then 1 else 0
    {
      n := if Pk(id, field) in db.hashes then 1 else 0;
      RowsDrop(db.hashes, id, field);
      db := db.(hashes := db.hashes - {Pk(id, field)});
    }

    /** INSERT INTO sets ... ON CONFLICT DO NOTHING; `n` is the number of rows affected. */
    method InsertMember(id: Id, name: string) returns (n: nat)
      requires Project(db, id).key.Some?
      modifies this
      ensures OnlyAt(old(db), db, id)
      ensures Project(db, id) == old(Project(db, id)).(members := old(Project(db, id)).members[name := ()])
      ensures n == if name in old(Project(db, id)).members then 0 else 1
    {
      n := if Pk(id, name) in db.sets then 0 else 1;
      RowsPut(db.sets, id, name, ());
      db := db.(sets := db.sets[Pk(id, name) := ()]);
    }

    /** DELETE FROM sets ... AND member=?. */
    method DeleteMember(id: Id, name: string) returns (n: nat)
      modifies this
      ensures OnlyAt(old(db), db, id)
      ensures Project(db, id) == old(Project(db, id)).(members := old(Project(db, id)).members - {name})
      ensures n == if name in old(Project(db, id)).members then 1 else 0
    {
      n := if Pk(id, name) in db.sets then 1 else 0;
      RowsDrop(db.sets, id, name);
      db := db.(sets := db.sets - {Pk(id, name)});
    }

    /** INSERT INTO zsets, or UPDATE zsets SET score. */
    method PutScore(id: Id, name: string, score: Score)
      requires Project(db, id).key.Some?
      modifies this
      ensures OnlyAt(old(db), db, id)
      ensures Project(db, id) == old(Project(db, id)).(scores := old(Project(db, id)).scores[name := score])
    {
      RowsPut(db.zsets, id, name, score);
      db := db.(zsets := db.zsets[Pk(id, name) := score]);
    }

    /** DELETE FROM zsets ... AND member=?. */
    method DeleteScore(id: Id, name: string) returns (n: nat)
      modifies this
      ensures OnlyAt(old(db), db, id)
      ensures Project(db, id) == old(Project(db, id)).(scores := old(Project(db, id)).scores - {name})
      ensures n == if name in old(Project(db, id)).scores then 1 else 0
    {
      n := if Pk(id, name) in db.zsets then 1 else 0;
      RowsDrop(db.zsets, id, name);
      db := db.(zsets := db.zsets - {Pk(id, name)});
    }

    // -------------------------------------------------------------- steps shared by the methods

    /** aliveWhere: expires_at IS NULL OR expires_at > now. */
    predicate AliveRow(id: Id, now: int)
      reads this
    {
      id in db.keys && (db.keys[id].expires.None? || db.keys[id].expires.value > now)
    }

    /** The type of a key, or None if it is missing or expired. */
    method KeyType(id: Id, now: int) returns (kind: Option<Kind>)
      requires Valid()
      ensures kind == var e := Lookup(View(), id, now); if e.None? then None else Some(KindOf(e.value.content))
    {
      hide Inv, SpaceOf, Project;
      KeyColumn(db, id);
      StoredEntry(db, id);
      kind := if AliveRow(id, now) then Some(db.keys[id].kind) else None;
    }

    /** Lazy expiry. Afterwards the rows of `id` are those of what is visible there. */
    method DeleteExpired(id: Id, now: int)
      requires Valid()
      modifies this
      ensures Valid() && View() == Reap(old(View()), {id}, now)
      ensures OnlyAt(old(db), db, id) && Project(db, id) == RecOf(Lookup(old(View()), id, now))
      ensures Lookup(View(), id, now) == Lookup(old(View()), id, now) && !EmptyList(Lookup(View(), id, now))
    {
      hide Inv, SpaceOf, Project, Deleted;
      KeyColumn(db, id);
      StoredEntry(db, id);
      if id in db.keys && db.keys[id].expires.Some? && db.keys[id].expires.value <= now {
        DeletedRows(db, {id});
        DeletedSpace(db, {id});
        db := Deleted(db, {id});
      }
      assert View() == Reap(old(View()), {id}, now);
    }

    /** deleteExpired and then assertType: how every typed method begins. `ok` is false for the wrong type. */
    method Prepare(id: Id, now: int, want: Kind) returns (ok: bool)
      requires Valid()
      modifies this
      ensures var e := Lookup(old(View()), id, now);
        && OnlyAt(old(db), db, id) && Project(db, id) == RecOf(e) && !EmptyList(e)
        && ok == !(e.Some? && KindOf(e.value.content) != want)
    {
      hide Inv, SpaceOf, Lookup, Project, OnlyAt, RecOf;
      DeleteExpired(id, now);
      var kind := KeyType(id, now);
      ok := kind.None? || kind.value == want;
    }

    /** Prepare, and then create the key if it is absent: how the methods that add elements begin. */
    method Ensure(id: Id, now: int, want: Kind) returns (ok: bool)
      requires Valid()
      modifies this
      ensures var e := Lookup(old(View()), id, now);
        && OnlyAt(old(db), db, id) && !EmptyList(e)
        && ok == !(e.Some? && KindOf(e.value.content) != want)
        && Project(db, id) == if ok && e.None? then NOTHING.(key := Some(KeyRow(want, None))) else RecOf(e)
    {
      hide Inv, SpaceOf, Project;
      ok := Prepare(id, now, want);
      if ok {
        InsertKey(id, want);
      }
    }
  }
}

/** strings.go, and the string methods of store.go. */
module StoreStrings {
  import opened Decimal
  import opened Keyspace
  import opened Database
  import opened StoreCore

  method Get(s: Store, id: Id, now: int) returns (r: Reply)
    requires s.Valid()
    modifies s
    ensures s.Valid() && Performed(old(s.View()), s.View(), id, now, OnString(StrOp.Get), r)
  {
    hide Inv, SpaceOf, Lookup, Project, OnlyAt, Performed;
    ghost var e := Lookup(s.View(), id, now);
    var ok := s.Prepare(id, now, KString);
    var row := s.SelectString(id);
    if !ok {
      r := WrongType;
    } else if row.Some? {
      r := Text(row.value);
    } else {
      r := Missing;
    }
    Finish(old(s.db), s.db, id, now, OnString(StrOp.Get), e, r);
  }

  method StrLen(s: Store, id: Id, now: int) returns (r: Reply)
    requires s.Valid()
    modifies s
    ensures s.Valid() && Performed(old(s.View()), s.View(), id, now, OnString(StrOp.StrLen), r)
  {
    hide Inv, SpaceOf, Lookup, Project, OnlyAt, Performed;
    ghost var e := Lookup(s.View(), id, now);
    var ok := s.Prepare(id, now, KString);
    var row := s.SelectString(id);
    if !ok {
      r := WrongType;
    } else if row.Some? {
      r := Int(|row.value|);
    } else {
      r := Int(0);
    }
    Finish(old(s.db), s.db, id, now, OnString(StrOp.StrLen), e, r);
  }

  method Set(s: Store, id: Id, now: int, value: string, expires: Option<int>, nx: bool, xx: bool) returns (r: Reply)
    requires s.Valid()
    modifies s
    ensures s.Valid() && Performed(old(s.View()), s.View(), id, now, OnString(SetText(value, expires, nx, xx)), r)
  {
    hide Inv, SpaceOf, Project, Performed;
    ghost var e := Lookup(s.View(), id, now);
    ghost var op := OnString(SetText(value, expires, nx, xx));
    var ok := s.Prepare(id, now, KString);
    if !ok {
      Finish(old(s.db), s.db, id, now, op, e, WrongType);
      return WrongType;
    }
    KeyColumn(s.db, id);
    var present := s.AliveRow(id, now);
    if (nx && present) || (xx && !present) {
      Finish(old(s.db), s.db, id, now, op, e, Bool(false)); // the transaction is rolled back
      return Bool(false);
    }
    s.UpsertKey(id, KeyRow(KString, expires));
    s.PutString(id, value);
    r := Bool(true);
    Finish(old(s.db), s.db, id, now, op, Some(Entry(Str(value), expires)), r);
  }

  /** The UPDATE of an existing row, or the INSERTs of a new key. */
  method SaveText(s: Store, id: Id, isNew: bool, text: string, ghost e: Option<Entry>)
    requires Project(s.db, id) == RecOf(e) && (e.Some? ==> e.value.content.Str?) && isNew == e.None?
    modifies s
    ensures OnlyAt(old(s.db), s.db, id) && Project(s.db, id) == RecOf(Some(Entry(Str(text), DeadlineOf(e))))
  {
    hide Project;
    if isNew {
      s.UpsertType(id, KString);
    }
    s.PutString(id, text);
  }

  method IncrBy(s: Store, id: Id, now: int, delta: Int64) returns (r: Reply)
    requires s.Valid()
    modifies s
    ensures s.Valid() && Performed(old(s.View()), s.View(), id, now, OnString(StrOp.IncrBy(delta)), r)
  {
    hide Inv, SpaceOf, Lookup, Project, OnlyAt, Performed, ParseInt, FormatInt, Wrap;
    ghost var e := Lookup(s.View(), id, now);
    ghost var op := OnString(StrOp.IncrBy(delta));
    var ok := s.Prepare(id, now, KString);
    if !ok {
      Finish(old(s.db), s.db, id, now, op, e, WrongType);
      return WrongType;
    }
    var raw := s.SelectString(id);
    var cur := if raw.Some? then ParseInt(raw.value) else Some(0);
    if cur.None? {
      Finish(old(s.db), s.db, id, now, op, e, NotInteger); // the transaction is rolled back
      return NotInteger;
    }
    var next := Wrap(cur.value + delta);
    ghost var ready := s.db;
    SaveText(s, id, raw.None?, FormatInt(next), e);
    Chain(old(s.db), ready, s.db, id);
    r := Int(next);
    Finish(old(s.db), s.db, id, now, op, Some(Entry(Str(FormatInt(next)), DeadlineOf(e))), r);
  }

  method Append(s: Store, id: Id, now: int, suffix: string) returns (r: Reply)
    requires s.Valid()
    modifies s
    ensures s.Valid() && Performed(old(s.View()), s.View(), id, now, OnString(StrOp.Append(suffix)), r)
  {
    hide Inv, SpaceOf, Lookup, Project, Performed;
    ghost var e := Lookup(s.View(), id, now);
    ghost var op := OnString(StrOp.Append(suffix));
    var ok := s.Prepare(id, now, KString);
    if !ok {
      Finish(old(s.db), s.db, id, now, op, e, WrongType);
      return WrongType;
    }
    var row := s.SelectString(id);
    var text := (if row.Some? then row.value else "") + suffix;
    SaveText(s, id, row.None?, text, e);
    r := Int(|text|);
    Finish(old(s.db), s.db, id, now, op, Some(Entry(Str(text), DeadlineOf(e))), r);
  }
}
