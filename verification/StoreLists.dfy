/** lists.go: every edit reads the rows of the list, computes the new sequence and rewrites the rows. */
module StoreLists {
  import opened Decimal
  import opened Sequences
  import opened ListEdits
  import opened Keyspace
  import opened Database
  import opened StoreCore

  /** The rows of a key of type list, its items possibly none yet. */
  function Listed(xs: seq<string>, deadline: Option<int>): Rec {
    NOTHING.(key := Some(KeyRow(KList, deadline)), items := Indexed(0, xs))
  }

  lemma NoItems()
    ensures Indexed(0, []) == map[]
  {
  }

  lemma FinishList(d: Db, d': Db, id: Id, now: int, op: ListOp, e: Option<Entry>, xs: seq<string>, r: Reply)
    requires Inv(d) && OnlyAt(d, d', id) && e == Lookup(SpaceOf(d), id, now)
    requires e.Some? ==> e.value.content.List?
    requires DoList(op, ItemsOf(e)) == (xs, r)
    requires Project(d', id) == if xs == [] then NOTHING else Listed(xs, DeadlineOf(e))
    ensures Inv(d') && Performed(SpaceOf(d), SpaceOf(d'), id, now, OnList(op), r)
  {
    hide Inv, SpaceOf, Lookup, Project, OnlyAt, Performed, DoList;
    var e' := Keyspace.Store(e, true, List(xs));
    assert Project(d', id) == RecOf(e');
    Finish(d, d', id, now, OnList(op), e', r);
  }

  /** lAssert refused. */
  lemma FinishMismatch(d: Db, d': Db, id: Id, now: int, op: Op, e: Option<Entry>)
    requires Inv(d) && OnlyAt(d, d', id) && e == Lookup(SpaceOf(d), id, now) && Mismatch(op, e)
    requires Project(d', id) == RecOf(e) && !EmptyList(e)
    ensures Inv(d') && Performed(SpaceOf(d), SpaceOf(d'), id, now, op, WrongType)
  {
    hide Inv, SpaceOf, Lookup, Project, OnlyAt, Performed;
    Finish(d, d', id, now, op, e, WrongType);
  }

  /** lAll. */
  method LAll(s: Store, id: Id, ghost xs: seq<string>) returns (all: seq<string>)
    requires Project(s.db, id).items == Indexed(0, xs)
    ensures all == xs
  {
    ByIndexOfIndexed(0, xs);
    all := s.SelectItems(id);
  }

  /** lRewrite: delete the rows, insert the values numbered from 0, and delete the key if there are none. */
  method LRewrite(s: Store, id: Id, values: seq<string>, ghost xs: seq<string>, ghost deadline: Option<int>)
    requires Project(s.db, id) == Listed(xs, deadline) || (values == [] && Project(s.db, id) == NOTHING)
    modifies s
    ensures OnlyAt(old(s.db), s.db, id)
    ensures Project(s.db, id) == if values == [] then NOTHING else Listed(values, deadline)
  {
    hide Project, ByIndex;
    NoItems();
    s.DeleteItems(id);
    for i := 0 to |values|
      invariant OnlyAt(old(s.db), s.db, id)
      invariant Project(s.db, id) == old(Project(s.db, id)).(items := Indexed(0, values[..i]))
    {
      s.InsertItem(id, i, values[i]);
      assert Indexed(0, values[..i])[i := values[i]] == Indexed(0, values[..i + 1]);
    }
    assert values[..|values|] == values;
    if |values| == 0 {
      var _ := s.DeleteKey(id);
    }
  }

  /** The rows and the items read, for the visible entry `e`. */
  ghost predicate Opened(e: Option<Entry>, rec: Rec, ok: bool, all: seq<string>) {
    && !EmptyList(e)
    && ok == !(e.Some? && KindOf(e.value.content) != KList)
    && rec == RecOf(e)
    && (ok ==> all == ItemsOf(e) && rec == if all == [] then NOTHING else Listed(all, DeadlineOf(e)))
  }

  /** deleteExpired, lAssert and lAll: how every method on an existing list begins. */
  method Open(s: Store, id: Id, now: int) returns (ok: bool, all: seq<string>)
    requires s.Valid()
    modifies s
    ensures OnlyAt(old(s.db), s.db, id)
    ensures Opened(Lookup(old(s.View()), id, now), Project(s.db, id), ok, all)
  {
    hide Inv, SpaceOf, Lookup, Project, OnlyAt, ByIndex;
    ghost var e := Lookup(s.View(), id, now);
    ok := s.Prepare(id, now, KList);
    all := [];
    if ok {
      NoItems();
      all := LAll(s, id, ItemsOf(e));
    }
  }

  /** The same when the key is created if it is absent. */
  ghost predicate OpenedToPush(e: Option<Entry>, rec: Rec, ok: bool, all: seq<string>) {
    && !EmptyList(e)
    && ok == !(e.Some? && KindOf(e.value.content) != KList)
    && (!ok ==> rec == RecOf(e))
    && (ok ==> all == ItemsOf(e) && rec == Listed(all, DeadlineOf(e)))
  }

  /** lEnsure and lAll: how the pushes begin. */
  method OpenToPush(s: Store, id: Id, now: int) returns (ok: bool, all: seq<string>)
    requires s.Valid()
    modifies s
    ensures OnlyAt(old(s.db), s.db, id)
    ensures OpenedToPush(Lookup(old(s.View()), id, now), Project(s.db, id), ok, all)
  {
    hide Inv, SpaceOf, Lookup, Project, OnlyAt, ByIndex;
    ghost var e := Lookup(s.View(), id, now);
    ok := s.Ensure(id, now, KList);
    all := [];
    if ok {
      NoItems();
      all := LAll(s, id, ItemsOf(e));
    }
  }

  method LPush(s: Store, id: Id, now: int, values: seq<string>) returns (r: Reply)
    requires s.Valid()
    modifies s
    ensures s.Valid() && Performed(old(s.View()), s.View(), id, now, OnList(ListOp.LPush(values)), r)
  {
    hide Inv, SpaceOf, Lookup, Project, Performed, Listed;
    ghost var e := Lookup(s.View(), id, now);
    var ok, existing := OpenToPush(s, id, now);
    if !ok {
      FinishMismatch(old(s.db), s.db, id, now, OnList(ListOp.LPush(values)), e);
      return WrongType;
    }
    var prepend := ReverseFill(values);
    var newList := prepend[..] + existing;
    LRewrite(s, id, newList, existing, DeadlineOf(e));
    r := Int(|newList|);
    FinishList(old(s.db), s.db, id, now, ListOp.LPush(values), e, newList, r);
  }

  method RPush(s: Store, id: Id, now: int, values: seq<string>) returns (r: Reply)
    requires s.Valid()
    modifies s
    ensures s.Valid() && Performed(old(s.View()), s.View(), id, now, OnList(ListOp.RPush(values)), r)
  {
    hide Inv, SpaceOf, Lookup, Project, Performed, Listed;
    ghost var e := Lookup(s.View(), id, now);
    var ok, existing := OpenToPush(s, id, now);
    if !ok {
      FinishMismatch(old(s.db), s.db, id, now, OnList(ListOp.RPush(values)), e);
      return WrongType;
    }
    var newList := existing + values;
    LRewrite(s, id, newList, existing, DeadlineOf(e));
    r := Int(|newList|);
    FinishList(old(s.db), s.db, id, now, ListOp.RPush(values), e, newList, r);
  }

  method LPop(s: Store, id: Id, now: int) returns (r: Reply)
    requires s.Valid()
    modifies s
    ensures s.Valid() && Performed(old(s.View()), s.View(), id, now, OnList(ListOp.LPop), r)
  {
    hide Inv, SpaceOf, Lookup, Project, Performed, Listed;
    ghost var e := Lookup(s.View(), id, now);
    var ok, items := Open(s, id, now);
    if !ok {
      FinishMismatch(old(s.db), s.db, id, now, OnList(ListOp.LPop), e);
      return WrongType;
    }
    if |items| == 0 {
      FinishList(old(s.db), s.db, id, now, ListOp.LPop, e, items, Missing);
      return Missing;
    }
    LRewrite(s, id, items[1..], items, DeadlineOf(e));
    r := Text(items[0]);
    FinishList(old(s.db), s.db, id, now, ListOp.LPop, e, items[1..], r);
  }

  method RPop(s: Store, id: Id, now: int) returns (r: Reply)
    requires s.Valid()
    modifies s
    ensures s.Valid() && Performed(old(s.View()), s.View(), id, now, OnList(ListOp.RPop), r)
  {
    hide Inv, SpaceOf, Lookup, Project, Performed, Listed;
    ghost var e := Lookup(s.View(), id, now);
    var ok, items := Open(s, id, now);
    if !ok {
      FinishMismatch(old(s.db), s.db, id, now, OnList(ListOp.RPop), e);
      return WrongType;
    }
    if |items| == 0 {
      FinishList(old(s.db), s.db, id, now, ListOp.RPop, e, items, Missing);
      return Missing;
    }
    LRewrite(s, id, items[..|items| - 1], items, DeadlineOf(e));
    r := Text(items[|items| - 1]);
    FinishList(old(s.db), s.db, id, now, ListOp.RPop, e, items[..|items| - 1], r);
  }

  method LLen(s: Store, id: Id, now: int) returns (r: Reply)
    requires s.Valid()
    modifies s
    ensures s.Valid() && Performed(old(s.View()), s.View(), id, now, OnList(ListOp.LLen), r)
  {
    hide Inv, SpaceOf, Lookup, Project, OnlyAt, Performed, Listed;
    ghost var e := Lookup(s.View(), id, now);
    var ok, all := Open(s, id, now);
    if !ok {
      FinishMismatch(old(s.db), s.db, id, now, OnList(ListOp.LLen), e);
      return WrongType;
    }
    r := Int(|all|);
    FinishList(old(s.db), s.db, id, now, ListOp.LLen, e, all, r);
  }

  /** The index arithmetic of LRANGE and ZRANGE, branch by branch. */
  method Bounds(n: nat, first: Int64, last: Int64) returns (lo: int, hi: int)
    ensures (lo, hi) == Span(n, first, last)
  {
    var start: int, stop: int := first, last;
    if start < 0 {
      start := n + start;
    }
    if stop < 0 {
      stop := n + stop;
    }
    if start < 0 {
      start := 0;
    }
    if stop >= n {
      stop := n - 1;
    }
    if start > stop || start >= n {
      return 0, 0;
    }
    return start, stop + 1;
  }

  method LRange(s: Store, id: Id, now: int, start: Int64, stop: Int64) returns (r: Reply)
    requires s.Valid()
    modifies s
    ensures s.Valid() && Performed(old(s.View()), s.View(), id, now, OnList(ListOp.LRange(start, stop)), r)
  {
    hide Inv, SpaceOf, Lookup, Project, OnlyAt, Performed, Listed;
    ghost var e := Lookup(s.View(), id, now);
    var ok, all := Open(s, id, now);
    if !ok {
      FinishMismatch(old(s.db), s.db, id, now, OnList(ListOp.LRange(start, stop)), e);
      return WrongType;
    }
    var lo, hi := Bounds(|all|, start, stop);
    r := Texts(all[lo..hi]);
    FinishList(old(s.db), s.db, id, now, ListOp.LRange(start, stop), e, all, r);
  }

  method LIndex(s: Store, id: Id, now: int, index: Int64) returns (r: Reply)
    requires s.Valid()
    modifies s
    ensures s.Valid() && Performed(old(s.View()), s.View(), id, now, OnList(ListOp.LIndex(index)), r)
  {
    hide Inv, SpaceOf, Lookup, Project, OnlyAt, Performed, Listed;
    ghost var e := Lookup(s.View(), id, now);
    var ok, all := Open(s, id, now);
    if !ok {
      FinishMismatch(old(s.db), s.db, id, now, OnList(ListOp.LIndex(index)), e);
      return WrongType;
    }
    var i: int := index;
    if i < 0 {
      i := |all| + i;
    }
    r := if i < 0 || i >= |all| then Missing else Text(all[i]);
    FinishList(old(s.db), s.db, id, now, ListOp.LIndex(index), e, all, r);
  }

  method LSet(s: Store, id: Id, now: int, index: Int64, value: string) returns (r: Reply)
    requires s.Valid()
    modifies s
    ensures s.Valid() && Performed(old(s.View()), s.View(), id, now, OnList(ListOp.LSet(index, value)), r)
  {
    hide Inv, SpaceOf, Lookup, Project, Performed, Listed;
    ghost var e := Lookup(s.View(), id, now);
    var ok, all := Open(s, id, now);
    if !ok {
      FinishMismatch(old(s.db), s.db, id, now, OnList(ListOp.LSet(index, value)), e);
      return WrongType;
    }
    var i: int := index;
    if i < 0 {
      i := |all| + i;
    }
    if i < 0 || i >= |all| {
      FinishList(old(s.db), s.db, id, now, ListOp.LSet(index, value), e, all, OutOfRange);
      return OutOfRange;
    }
    var edited := all[i := value];
    LRewrite(s, id, edited, all, DeadlineOf(e));
    r := Done;
    FinishList(old(s.db), s.db, id, now, ListOp.LSet(index, value), e, edited, r);
  }

  /** The pivot search of LINSERT. */
  method FindPivot(all: seq<string>, pivot: string) returns (pos: int)
    ensures pos == if pivot in all then IndexOf(all, pivot) else -1
  {
    var i := 0;
    while i < |all|
      invariant i <= |all| && pivot !in all[..i]
    {
      if all[i] == pivot {
        IndexIs(all, pivot, i);
        return i;
      }
      i := i + 1;
    }
    assert all[..|all|] == all;
    return -1;
  }

  lemma InsertIs(all: seq<string>, before: bool, pivot: string, value: string)
    ensures var op, i := ListOp.LInsert(before, pivot, value), IndexOf(all, pivot);
      if pivot !in all then DoList(op, all) == (all, Int(-1))
      else
        var at := if before then i else i + 1;
        i < |all| && DoList(op, all) == (all[..at] + [value] + all[at..], Int(|all| + 1))
  {
    hide IndexOf, Norm, Range, Rem, Reverse;
    assert all[..|all|] == all;
  }

  method LInsert(s: Store, id: Id, now: int, before: bool, pivot: string, value: string) returns (r: Reply)
    requires s.Valid()
    modifies s
    ensures s.Valid() && Performed(old(s.View()), s.View(), id, now, OnList(ListOp.LInsert(before, pivot, value)), r)
  {
    hide Inv, SpaceOf, Lookup, Project, Performed, Listed, DoList, IndexOf;
    ghost var op := ListOp.LInsert(before, pivot, value);
    ghost var e := Lookup(s.View(), id, now);
    var ok, all := Open(s, id, now);
    if !ok {
      FinishMismatch(old(s.db), s.db, id, now, OnList(op), e);
      return WrongType;
    }
    var pos := FindPivot(all, pivot);
    InsertIs(all, before, pivot, value);
    if pos == -1 {
      FinishList(old(s.db), s.db, id, now, op, e, all, Int(-1));
      return Int(-1);
    }
    var at := if before then pos else pos + 1;
    var newList := all[..at] + [value] + all[at..];
    LRewrite(s, id, newList, all, DeadlineOf(e));
    r := Int(|newList|);
    FinishList(old(s.db), s.db, id, now, op, e, newList, r);
  }

  method LRem(s: Store, id: Id, now: int, count: Int64, value: string) returns (r: Reply)
    requires s.Valid()
    modifies s
    ensures s.Valid() && Performed(old(s.View()), s.View(), id, now, OnList(ListOp.LRem(count, value)), r)
  {
    hide Inv, SpaceOf, Lookup, Project, Performed, Listed;
    ghost var op := ListOp.LRem(count, value);
    ghost var e := Lookup(s.View(), id, now);
    var ok, items := Open(s, id, now);
    if !ok {
      FinishMismatch(old(s.db), s.db, id, now, OnList(op), e);
      return WrongType;
    }
    var all := new string[|items|](i requires 0 <= i < |items| => items[i]);
    assert all[..] == items;
    var result, m, removed := RemoveValue(all, count, value);
    LRewrite(s, id, result[..m], items, DeadlineOf(e));
    r := Int(removed);
    FinishList(old(s.db), s.db, id, now, op, e, Rem(items, value, count), r);
  }
}
