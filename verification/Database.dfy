/** The six relational tables, and the abstract entry that the rows of one key stand for. */
module Database {
  import opened Decimal
  import opened Keyspace
  import opened Ranking

  datatype KeyRow = KeyRow(kind: Kind, expires: Option<int>)

  /** Primary key of the child tables: the parent key and the list index, field or member. */
  datatype Pk<K> = Pk(id: Id, sub: K)

  datatype Db = Db(
    keys: map<Id, KeyRow>,
    strings: map<Id, string>,
    lists: map<Pk<int>, string>,
    hashes: map<Pk<string>, string>,
    sets: map<Pk<string>, ()>,
    zsets: map<Pk<string>, Score>)

  // ---------------------------------------------------------------- child tables

  /** The rows of one parent key. */
  function Rows<K(==,!new), V>(t: map<Pk<K>, V>, id: Id): (r: map<K, V>)
    ensures forall k :: k in r <==> Pk(id, k) in t
    ensures forall k :: k in r ==> r[k] == t[Pk(id, k)]
  {
    map pk | pk in t && pk.id == id :: pk.sub := t[pk]
  }

  lemma RowsPut<K(!new), V>(t: map<Pk<K>, V>, id: Id, k: K, v: V)
    ensures Rows(t[Pk(id, k) := v], id) == Rows(t, id)[k := v]
    ensures forall x :: x != id ==> Rows(t[Pk(id, k) := v], x) == Rows(t, x)
  {
  }

  lemma RowsDrop<K(!new), V>(t: map<Pk<K>, V>, id: Id, k: K)
    ensures Rows(t - {Pk(id, k)}, id) == Rows(t, id) - {k}
    ensures forall x :: x != id ==> Rows(t - {Pk(id, k)}, x) == Rows(t, x)
  {
  }

  /** The table without the rows of the given parents. */
  function Without<K(==,!new), V>(t: map<Pk<K>, V>, ids: set<Id>): (r: map<Pk<K>, V>)
    ensures forall pk :: pk in r <==> pk in t && pk.id !in ids
    ensures forall pk :: pk in r ==> r[pk] == t[pk]
  {
    map pk | pk in t && pk.id !in ids :: t[pk]
  }

  lemma RowsWithout<K(!new), V>(t: map<Pk<K>, V>, ids: set<Id>)
    ensures forall x :: Rows(Without(t, ids), x) == if x in ids then map[] else Rows(t, x)
  {
    forall x ensures Rows(Without(t, ids), x) == if x in ids then map[] else Rows(t, x) {
      var r := Rows(Without(t, ids), x);
      if x in ids {
        assert forall k :: k !in r;
      }
    }
  }

  /** INSERT ... SELECT: the rows of `src` once more under `dst`. */
  function Copied<K(==,!new), V>(t: map<Pk<K>, V>, src: Id, dst: Id): (r: map<Pk<K>, V>)
  {
    t + map pk | pk in t && pk.id == src :: Pk(dst, pk.sub) := t[pk]
  }

  lemma RowsCopied<K(!new), V>(t: map<Pk<K>, V>, src: Id, dst: Id)
    requires Rows(t, dst) == map[]
    ensures Rows(Copied(t, src, dst), dst) == Rows(t, src)
    ensures forall x :: x != dst ==> Rows(Copied(t, src, dst), x) == Rows(t, x)
  {
    var c := Copied(t, src, dst);
    forall k ensures Pk(dst, k) in c <==> Pk(src, k) in t {
      assert k !in Rows(t, dst);
      if Pk(src, k) in t {
        assert Pk(dst, Pk(src, k).sub) in c;
      }
    }
    forall k | Pk(src, k) in t ensures c[Pk(dst, k)] == t[Pk(src, k)] {
      assert Pk(dst, Pk(src, k).sub) in c;
    }
    forall x, k | x != dst ensures Pk(x, k) in c <==> Pk(x, k) in t {
    }
  }

  // ---------------------------------------------------------------- list rows

  /** The rows that hold `xs`, indexed from `a` on. */
  function Indexed(a: int, xs: seq<string>): (m: map<int, string>)
    ensures forall i :: i in m <==> a <= i < a + |xs|
    ensures forall i :: i in m ==> m[i] == xs[i - a]
  {
    map i: int | a <= i < a + |xs| && Slot(a, |xs|, i) :: xs[i - a]
  }

  /** `i` is one of `n` consecutive indices from `a` on. */
  predicate Slot(a: int, n: nat, i: int) { a <= i < a + n }

  lemma {:induction false} LeastOf(s: set<int>)
    requires s != {}
    ensures exists k :: k in s && forall j :: j in s ==> k <= j
    decreases |s|
  {
    assert (forall x :: x !in s) ==> s == {};
    var a :| a in s;
    var rest := s - {a};
    if rest == {} {
      assert s == {a};
    } else {
      LeastOf(rest);
      var b :| b in rest && forall j :: j in rest ==> b <= j;
      assert s == rest + {a};
      var k := if a < b then a else b;
      assert k in s && forall j :: j in s ==> k <= j;
    }
  }

  lemma LeastExists(m: map<int, string>)
    requires m != map[]
    ensures exists k :: IsLeast(m, k)
  {
    LeastOf(m.Keys);
    var k :| k in m.Keys && forall j :: j in m.Keys ==> k <= j;
    assert IsLeast(m, k);
  }

  predicate IsLeast(m: map<int, string>, k: int) {
    k in m && forall j :: j in m ==> k <= j
  }

  /** SELECT value ... ORDER BY idx ASC. */
  function ByIndex(m: map<int, string>): seq<string>
    decreases |m|
  {
    if m == map[] then []
    else
      LeastExists(m);
      var k :| IsLeast(m, k);
      assert (m - {k}).Keys == m.Keys - {k};
      [m[k]] + ByIndex(m - {k})
  }

  lemma {:induction false} ByIndexOfIndexed(a: int, xs: seq<string>)
    ensures ByIndex(Indexed(a, xs)) == xs
    decreases |xs|
  {
    var m := Indexed(a, xs);
    if xs == [] {
      assert m == map[];
    } else {
      assert a in m;
      LeastExists(m);
      var k :| IsLeast(m, k);
      assert k == a;
      assert m - {a} == Indexed(a + 1, xs[1..]);
      ByIndexOfIndexed(a + 1, xs[1..]);
      assert xs == [xs[0]] + xs[1..];
    }
  }

  // ---------------------------------------------------------------- the rows of one key

  /** All rows, of all tables, that belong to one key. */
  datatype Rec = Rec(
    key: Option<KeyRow>,
    text: Option<string>,
    items: map<int, string>,
    fields: map<string, string>,
    members: map<string, ()>,
    scores: Table)

  const NOTHING := Rec(None, None, map[], map[], map[], map[])

  function Project(d: Db, id: Id): Rec {
    Rec(if id in d.keys then Some(d.keys[id]) else None,
        if id in d.strings then Some(d.strings[id]) else None,
        Rows(d.lists, id),
        Rows(d.hashes, id),
        Rows(d.sets, id),
        Rows(d.zsets, id))
  }

  function Units(names: set<string>): (m: map<string, ()>)
    ensures m.Keys == names
  {
    map k | k in names :: ()
  }

  /** The rows an entry is stored as. */
  function RecOf(e: Option<Entry>): Rec {
    if e.None? then NOTHING
    else
      var r := NOTHING.(key := Some(KeyRow(KindOf(e.value.content), e.value.deadline)));
      match e.value.content
      case Str(text) => r.(text := Some(text))
      case List(items) => r.(items := Indexed(0, items))
      case Hash(fields) => r.(fields := fields)
      case Set(names) => r.(members := Units(names))
      case ZSet(scores) => r.(scores := scores)
  }

  /** The entry that rows stand for. */
  function EntryOf(r: Rec): Option<Entry> {
    if r.key.None? then None
    else
      var content := match r.key.value.kind
        case KString => Str(if r.text.Some? then r.text.value else "")
        case KList => List(ByIndex(r.items))
        case KHash => Hash(r.fields)
        case KSet => Set(r.members.Keys)
        case KZSet => ZSet(r.scores);
      Some(Entry(content, r.key.value.expires))
  }

  lemma EntryOfRecOf(e: Option<Entry>)
    ensures EntryOf(RecOf(e)) == e
  {
    if e.Some? && e.value.content.List? {
      ByIndexOfIndexed(0, e.value.content.items);
    }
  }

  predicate EmptyList(e: Option<Entry>) {
    e.Some? && e.value.content == List([])
  }

  /** The table invariant for one key: its rows are exactly those of an entry. So every data row has its
      `keys` row and sits in the one table its type names, a string has its one row, and the indices of a
      list are 0..n-1 with n > 0. */
  ghost predicate WellStored(r: Rec) {
    r == RecOf(EntryOf(r)) && !EmptyList(EntryOf(r))
  }

  ghost predicate Inv(d: Db) {
    forall id :: WellStored(Project(d, id))
  }

  /** The list rows of `id` have exactly the indices 0..n-1. */
  ghost predicate ListRows(d: Db, id: Id, n: nat) {
    forall i :: Pk(id, i) in d.lists <==> 0 <= i < n
  }

  /** What the invariant says in terms of the tables: a string key has its one row and no other key has
      one, ... */
  lemma InvMeansStrings(d: Db, id: Id)
    requires Inv(d)
    ensures id in d.strings <==> id in d.keys && d.keys[id].kind == KString
  {
    assert WellStored(Project(d, id));
  }

  /** ... the rows of a list are numbered 0..n-1 with n > 0, and no other key has list rows, ... */
  lemma InvMeansLists(d: Db, id: Id) returns (n: nat)
    requires Inv(d)
    ensures ListRows(d, id, n)
    ensures n > 0 <==> id in d.keys && d.keys[id].kind == KList
  {
    var r := Project(d, id);
    assert WellStored(r);
    n := ItemRows(EntryOf(r));
    forall i ensures Pk(id, i) in d.lists <==> 0 <= i < n {
      assert i in r.items <==> Pk(id, i) in d.lists;
    }
  }

  /** ... and only hashes, sets and sorted sets have rows of their kinds. */
  lemma InvMeansOthers(d: Db, id: Id)
    requires Inv(d)
    ensures Rows(d.hashes, id) != map[] ==> id in d.keys && d.keys[id].kind == KHash
    ensures Rows(d.sets, id) != map[] ==> id in d.keys && d.keys[id].kind == KSet
    ensures Rows(d.zsets, id) != map[] ==> id in d.keys && d.keys[id].kind == KZSet
  {
    assert WellStored(Project(d, id));
    OtherRows(EntryOf(Project(d, id)));
  }

  lemma ItemRows(e: Option<Entry>) returns (n: nat)
    requires !EmptyList(e)
    ensures forall i :: i in RecOf(e).items <==> 0 <= i < n
    ensures n > 0 <==> RecOf(e).key.Some? && RecOf(e).key.value.kind == KList
  {
    n := if e.Some? && e.value.content.List? then |e.value.content.items| else 0;
  }

  lemma OtherRows(e: Option<Entry>)
    ensures var r := RecOf(e);
      && (r.fields != map[] ==> r.key.Some? && r.key.value.kind == KHash)
      && (r.members != map[] ==> r.key.Some? && r.key.value.kind == KSet)
      && (r.scores != map[] ==> r.key.Some? && r.key.value.kind == KZSet)
  {
  }

  /** The abstract keyspace of a database. */
  ghost function SpaceOf(d: Db): (s: Space)
    ensures forall id :: id in s <==> id in d.keys
    ensures forall id :: id in s ==> EntryOf(Project(d, id)) == Some(s[id])
  {
    map id | id in d.keys :: EntryOf(Project(d, id)).value
  }

  /** Only rows of `id` differ. */
  ghost predicate OnlyAt(d: Db, d': Db, id: Id) {
    forall x :: x != id ==> Project(d', x) == Project(d, x)
  }

  /** Rewriting the rows of one key into those of an entry is one update of the keyspace. */
  lemma Rewritten(d: Db, d': Db, id: Id, e: Option<Entry>)
    requires Inv(d) && OnlyAt(d, d', id) && Project(d', id) == RecOf(e) && !EmptyList(e)
    ensures Inv(d') && SpaceOf(d') == Put(SpaceOf(d), id, e)
  {
    EntryOfRecOf(e);
    forall x ensures WellStored(Project(d', x)) {
      if x != id {
        assert WellStored(Project(d, x));
      }
    }
    var s := Put(SpaceOf(d), id, e);
    forall x ensures EntryOf(Project(d', x)) == if x in s then Some(s[x]) else None {
      if x != id {
        EntryAt(d, x);
      }
    }
    SpaceFromEntries(d', s);
  }

  lemma EntryAt(d: Db, x: Id)
    ensures EntryOf(Project(d, x)) == if x in SpaceOf(d) then Some(SpaceOf(d)[x]) else None
  {
  }

  /** The keyspace is determined by the entries. */
  lemma SpaceFromEntries(d: Db, s: Space)
    requires forall x :: EntryOf(Project(d, x)) == if x in s then Some(s[x]) else None
    ensures SpaceOf(d) == s
  {
    forall x ensures x in SpaceOf(d) <==> x in s {
      assert EntryOf(Project(d, x)) == if x in s then Some(s[x]) else None;
    }
    forall x | x in s ensures SpaceOf(d)[x] == s[x] {
      assert EntryOf(Project(d, x)) == Some(s[x]);
    }
  }

  /** Under the invariant the rows of a key are those of its entry. */
  lemma StoredEntry(d: Db, id: Id)
    requires Inv(d)
    ensures Project(d, id) == RecOf(if id in SpaceOf(d) then Some(SpaceOf(d)[id]) else None)
    ensures id in SpaceOf(d) ==> SpaceOf(d)[id].content != List([])
  {
    assert WellStored(Project(d, id));
  }

  /** DELETE FROM keys, with ON DELETE CASCADE on all five child tables. */
  function Deleted(d: Db, ids: set<Id>): Db {
    Db(d.keys - ids, d.strings - ids, Without(d.lists, ids), Without(d.hashes, ids),
       Without(d.sets, ids), Without(d.zsets, ids))
  }

  lemma DeletedRows(d: Db, ids: set<Id>)
    ensures forall x :: Project(Deleted(d, ids), x) == if x in ids then NOTHING else Project(d, x)
  {
    RowsWithout(d.lists, ids);
    RowsWithout(d.hashes, ids);
    RowsWithout(d.sets, ids);
    RowsWithout(d.zsets, ids);
  }

  /** Deleting keys deletes exactly those keys, and leaves no row of theirs behind. */
  lemma DeletedSpace(d: Db, ids: set<Id>)
    requires Inv(d)
    ensures Inv(Deleted(d, ids)) && SpaceOf(Deleted(d, ids)) == SpaceOf(d) - ids
  {
    DeletedRows(d, ids);
    var d' := Deleted(d, ids);
    forall x ensures WellStored(Project(d', x)) {
      assert x in ids || (Project(d', x) == Project(d, x) && WellStored(Project(d, x)));
    }
    SpaceFromEntries(d', SpaceOf(d) - ids);
  }
}
