/** What each command does to what the others then see: laws between commands, in terms of the values alone. */
module Laws {
  import opened Decimal
  import opened Sequences
  import opened ListEdits
  import opened Ranking
  import opened Keyspace
  import opened Runs
  import Glob

  /** One operation on one key. */
  ghost function Ask(s: Space, now: int, id: Id, op: Op): (Space, Reply) {
    Step(s, now, id.db, One(id.key, op))
  }

  // ---------------------------------------------------------------- deadlines

  /** The keyspace with `id` holding `c` until `d`. */
  function With(s: Space, id: Id, c: Content, d: Option<int>): Space {
    s[id := Entry(c, d)]
  }

  /** EXPIREAT gives a live key of any type the deadline and leaves its content; of a key that is not there it
      says so. */
  lemma ExpireSets(s: Space, now: int, id: Id, at: int)
    ensures Lookup(s, id, now).Some? ==>
      Ask(s, now, id, OnKey(ExpireAt(at))) == (With(s, id, s[id].content, Some(at)), Bool(true))
    ensures Lookup(s, id, now) == None ==> Ask(s, now, id, OnKey(ExpireAt(at))) == (s - {id}, Bool(false))
  {
  }

  /** PERSIST clears the deadline of a live key, and says whether there was one. */
  lemma PersistClears(s: Space, now: int, id: Id)
    ensures Lookup(s, id, now).Some? ==>
      Ask(s, now, id, OnKey(Persist)) == (With(s, id, s[id].content, None), Bool(s[id].deadline != None))
    ensures Lookup(s, id, now) == None ==> Ask(s, now, id, OnKey(Persist)) == (s - {id}, Bool(false))
  {
    if id in s && s[id].deadline == None {
      assert With(s, id, s[id].content, None) == s;
    }
  }

  /** SET writes the text and the deadline, none if it names none, unless NX finds a key or XX finds none. */
  lemma SetWrites(s: Space, now: int, id: Id, v: string, expires: Option<int>, nx: bool, xx: bool)
    requires Lookup(s, id, now).Some? ==> s[id].content.Str?
    ensures var e, (s', r) := Lookup(s, id, now), Ask(s, now, id, OnString(SetText(v, expires, nx, xx)));
      && (nx && e.Some? ==> r == Bool(false) && s' == s)
      && (xx && e == None ==> r == Bool(false) && s' == s - {id})
      && ((nx ==> e == None) && (xx ==> e.Some?) ==> r == Bool(true) && s' == With(s, id, Str(v), expires))
  {
    var e := Lookup(s, id, now);
    if e.Some? {
      assert Put(s, id, e) == s;
    }
  }

  /** The commands that give a key its deadline, and that deadline. */
  predicate Sets(op: Op, d: Option<int>) {
    || (d.Some? && op == OnKey(ExpireAt(d.value)))
    || (op == OnKey(Persist) && d == None)
    || (op.OnString? && op.s.SetText? && op.s.expires == d && !op.s.nx)
  }

  /** After EXPIREAT, PERSIST or SET on a live key, through every run that does not touch the deadline again,
      PTTL and TTL count down to the deadline that it has set, or say that there is none; from the deadline on
      the key is gone. */
  lemma DeadlineIsSet(s: Space, now: int, id: Id, op: Op, d: Option<int>, events: seq<Event>, t: int)
    requires Sets(op, d) && NoEmptyLists(s) && Lookup(s, id, now).Some?
    requires op.OnString? ==> s[id].content.Str?
    requires HarmlessRun(Ask(s, now, id, op).0, events, id) && Monotone(now, events) && EndTime(now, events) <= t
    requires events == [] || !Past(d, EndTime(now, events))
    ensures CountsDown(RunAll(s, [Call(now, id.db, One(id.key, op))] + events).0, id, d, t)
  {
    hide HarmlessRun, CountsDown, EndTime, Monotone, RunAll;
    var (s1, r) := Ask(s, now, id, op);
    ExpireSets(s, now, id, if d.Some? then d.value else 0);
    PersistClears(s, now, id);
    if op.OnString? {
      SetWrites(s, now, id, op.s.value, op.s.expires, op.s.nx, op.s.xx);
    }
    StepKeepsListsNonEmpty(s, now, id.db, One(id.key, op));
    assert Due(s1, id, d);
    DeadlineSurvives(s1, events, id, d, now, t);
    var all := [Call(now, id.db, One(id.key, op))] + events;
    assert all[0] == Call(now, id.db, One(id.key, op)) && all[1..] == events;
    AfterFirst(s, all);
    DoAnswers(op, Lookup(s, id, now), now);
  }

  /** TYPE tells the type of a live key. */
  lemma TypeTells(s: Space, now: int, id: Id)
    ensures var e, r := Lookup(s, id, now), Ask(s, now, id, OnKey(TypeOf)).1;
      r == TypeName(
        if e == None then None
        else if e.value.content.Str? then Some(KString)
        else if e.value.content.List? then Some(KList)
        else if e.value.content.Hash? then Some(KHash)
        else if e.value.content.Set? then Some(KSet)
        else Some(KZSet))
  {
  }

  /** An operation of one type on a live key of another is refused, and changes nothing. */
  lemma TypesDoNotMix(s: Space, now: int, id: Id, op: Op)
    requires Lookup(s, id, now).Some?
    requires var c := s[id].content;
      || (op.OnString? && !c.Str?) || (op.OnList? && !c.List?) || (op.OnHash? && !c.Hash?)
      || (op.OnSet? && !c.Set?) || (op.OnZSet? && !c.ZSet?)
    ensures Ask(s, now, id, op) == (s, WrongType)
  {
    assert Put(s, id, Lookup(s, id, now)) == s;
  }

  /** Of an operation on its own type or on none, the reply is another. */
  lemma TypesFit(s: Space, now: int, id: Id, op: Op)
    requires Lookup(s, id, now).Some? ==>
      var c := s[id].content;
      || op.OnKey? || (op.OnString? && c.Str?) || (op.OnList? && c.List?) || (op.OnHash? && c.Hash?)
      || (op.OnSet? && c.Set?) || (op.OnZSet? && c.ZSet?)
    ensures Ask(s, now, id, op).1 != WrongType
  {
    hide DoKey, DoString, DoList, DoHash, DoSet, DoZSet, Store;
    var e := Lookup(s, id, now);
    match op {
      case OnKey(k) => KeyFits(k, e, now);
      case OnString(t) => StringFits(t, e);
      case OnList(l) => ListFits(l, ItemsOf(e));
      case OnHash(h) => TableFits(h, FieldsOf(e), SCard, {}, ZCard, map[]);
      case OnSet(m) => TableFits(HLen, map[], m, MembersOf(e), ZCard, map[]);
      case OnZSet(z) => TableFits(HLen, map[], SCard, {}, z, ScoresOf(e));
    }
  }

  lemma KeyFits(op: KeyOp, e: Option<Entry>, now: int)
    ensures DoKey(op, e, now).1 != WrongType
  {
  }

  lemma StringFits(op: StrOp, e: Option<Entry>)
    requires e.Some? ==> e.value.content.Str?
    ensures DoString(op, e).1 != WrongType
  {
    hide ParseInt, FormatInt, Wrap;
  }

  lemma ListFits(op: ListOp, s: seq<string>)
    ensures DoList(op, s).1 != WrongType
  {
    hide Norm, Range, Sequences.IndexOf, Rem, Reverse;
  }

  lemma TableFits(h: HashOp, f: map<string, string>, m: SetOp, names: set<string>, z: ZOp, scores: Table)
    ensures DoHash(h, f).1 != WrongType && DoSet(m, names).1 != WrongType && DoZSet(z, scores).1 != WrongType
  {
    hide Admitted, Below, Ranked, Range, Between, SetOf;
  }

  // ---------------------------------------------------------------- strings

  /** GET gives what the last SET has written; STRLEN its length; APPEND lengthens it at the end and keeps the
      deadline. */
  lemma StringsRead(s: Space, now: int, id: Id, text: string, d: Option<int>, suffix: string)
    requires !Past(d, now)
    ensures var s1 := With(s, id, Str(text), d);
      && Ask(s1, now, id, OnString(Get)) == (s1, Text(text))
      && Ask(s1, now, id, OnString(StrLen)) == (s1, Int(|text|))
      && Ask(s1, now, id, OnString(Append(suffix))) == (With(s, id, Str(text + suffix), d), Int(|text| + |suffix|))
  {
    var s1 := With(s, id, Str(text), d);
    assert Put(s1, id, Some(s1[id])) == s1;
    assert s1[id := Entry(Str(text + suffix), d)] == With(s, id, Str(text + suffix), d);
  }

  lemma NoStringRead(s: Space, now: int, id: Id, suffix: string)
    requires Lookup(s, id, now) == None
    ensures Ask(s, now, id, OnString(Get)) == (s - {id}, Missing)
    ensures Ask(s, now, id, OnString(StrLen)) == (s - {id}, Int(0))
    ensures Ask(s, now, id, OnString(Append(suffix))) == (With(s, id, Str(suffix), None), Int(|suffix|))
  {
    assert "" + suffix == suffix;
  }

  /** On a key that holds `n`, the command leaves and replies `n'`, and keeps the deadline. */
  ghost predicate CountsTo(s: Space, now: int, id: Id, d: Option<int>, n: int, c: Counting, n': int) {
    Ask(With(s, id, Str(FormatInt(n)), d), now, id, OnString(IncrBy(Delta(c))))
    == (With(s, id, Str(FormatInt(n')), d), Int(n'))
  }

  /** INCR adds one, DECR takes one away, INCRBY and DECRBY as much as they say, as long as it is an int64. */
  lemma CountingCounts(s: Space, now: int, id: Id, n: Int64, d: Option<int>, m: Int64)
    requires !Past(d, now)
    ensures n < INT64_MAX ==> CountsTo(s, now, id, d, n, Incr, n + 1)
    ensures n > INT64_MIN ==> CountsTo(s, now, id, d, n, Decr, n - 1)
    ensures IsInt64(n + m) ==> CountsTo(s, now, id, d, n, IncrByN(m), n + m)
    ensures IsInt64(n - m) ==> CountsTo(s, now, id, d, n, DecrByN(m), n - m)
  {
    hide CountsTo;
    CountsBy(s, now, id, n, d, Incr);
    CountsBy(s, now, id, n, d, Decr);
    CountsBy(s, now, id, n, d, IncrByN(m));
    CountsBy(s, now, id, n, d, DecrByN(m));
    assert IsInt64(n);
    assert n < INT64_MAX ==> IsInt64(n + 1);
    assert n > INT64_MIN ==> IsInt64(n - 1);
    assert Signed(Incr) == 1 && Signed(Decr) == -1;
  }

  lemma CountsBy(s: Space, now: int, id: Id, n: Int64, d: Option<int>, c: Counting)
    requires !Past(d, now)
    ensures IsInt64(n + Signed(c)) ==> CountsTo(s, now, id, d, n, c, n + Signed(c))
  {
    hide FormatInt, ParseInt, Wrap;
    ParseFormat(n);
    WrapDelta(n, c);
    var s1 := With(s, id, Str(FormatInt(n)), d);
    assert s1[id := Entry(Str(FormatInt(n + Signed(c))), d)] == With(s, id, Str(FormatInt(n + Signed(c))), d);
  }

  // ---------------------------------------------------------------- lists

  /** LRANGE with two positions inside the list gives the elements from the one to the other, both included. */
  lemma RangeInside(s: seq<string>, i: nat, j: nat)
    requires i <= j < |s|
    ensures Range(s, i, j) == s[i..j + 1]
    ensures Range(s, i - |s|, j - |s|) == s[i..j + 1]
  {
    var (lo, hi) := Span(|s|, i, j);
    assert InSpan(|s|, i, j, i) && InSpan(|s|, i, j, j) && !InSpan(|s|, i, j, i - 1) && !InSpan(|s|, i, j, j + 1);
  }

  /** Positions before the first element and after the last are brought inside; where nothing is left between
      them there is nothing. */
  lemma RangeOutside(s: seq<string>, i: int, j: int)
    ensures Range(s, 0, -1) == s
    ensures 0 <= i < |s| <= j ==> Range(s, i, j) == s[i..]
    ensures i < -|s| && 0 <= j < |s| ==> Range(s, i, j) == s[..j + 1]
    ensures 0 <= j < i || i >= |s| ==> Range(s, i, j) == []
  {
    assert s[0..|s|] == s;
  }

  /** RPUSH puts its values at the end in order, LPUSH each at the front in turn; the pops take off an end what
      a push has put there, and nothing from an empty list. */
  lemma PushesAndPops(s: seq<string>, vs: seq<string>, ws: seq<string>, v: string)
    ensures DoList(RPush(vs), s) == (s + vs, Int(|s| + |vs|))
    ensures DoList(LPush([v]), s) == ([v] + s, Int(1 + |s|))
    ensures DoList(LPush(vs + ws), s).0 == DoList(LPush(ws), DoList(LPush(vs), s).0).0
    ensures DoList(LPush(vs), s).1 == Int(|DoList(LPush(vs), s).0|)
    ensures DoList(RPop, s + [v]) == (s, Text(v)) && DoList(LPop, [v] + s) == (s, Text(v))
    ensures DoList(RPop, []) == DoList(LPop, []) == ([], Missing)
  {
    assert Reverse([v]) == [v];
    ReverseSplit(vs, ws);
    assert (Reverse(ws) + Reverse(vs)) + s == Reverse(ws) + (Reverse(vs) + s);
  }

  /** LINDEX and LSET count from 0 at the head and from -1 at the tail. */
  lemma Positions(s: seq<string>, i: Int64, v: string)
    requires IsInt64(|s|)
    ensures 0 <= i < |s| ==> DoList(LIndex(i), s) == (s, Text(s[i])) && DoList(LSet(i, v), s) == (s[i := v], Done)
    ensures -|s| <= i < 0 ==>
      DoList(LIndex(i), s) == (s, Text(s[|s| + i])) && DoList(LSet(i, v), s) == (s[|s| + i := v], Done)
    ensures i < -|s| || i >= |s| ==> DoList(LIndex(i), s) == (s, Missing) && DoList(LSet(i, v), s) == (s, OutOfRange)
    ensures DoList(LLen, s) == (s, Int(|s|))
    ensures forall j: Int64 :: DoList(LRange(i, j), s) == (s, Texts(Range(s, i, j)))
  {
  }

  /** LINSERT puts the value right before or right after the first pivot. */
  lemma Inserts(a: seq<string>, pivot: string, b: seq<string>, v: string)
    requires pivot !in a
    ensures DoList(LInsert(true, pivot, v), a + [pivot] + b) == (a + [v, pivot] + b, Int(|a| + |b| + 2))
    ensures DoList(LInsert(false, pivot, v), a + [pivot] + b) == (a + [pivot, v] + b, Int(|a| + |b| + 2))
    ensures forall before :: DoList(LInsert(before, pivot, v), a) == (a, Int(-1))
  {
    hide Sequences.IndexOf;
    var s := a + [pivot] + b;
    assert s[..|a|] == a && s[|a|] == pivot;
    IndexIs(s, pivot, |a|);
    assert pivot in s;
    assert s[|a|..] == [pivot] + b && s[..|a| + 1] == a + [pivot] && s[|a| + 1..] == b;
    assert a + [v] + ([pivot] + b) == a + [v, pivot] + b;
    assert (a + [pivot]) + [v] + b == a + [pivot, v] + b;
  }

  /** LREM leaves what the marks keep, from the end that the sign of the count says, and replies how many have
      gone. */
  lemma Removes(s: seq<string>, v: string, count: Int64)
    requires count > INT64_MIN
    ensures var (left, r) := DoList(LRem(count, v), s);
      && r == Int(|s| - |left|)
      && (count > 0 ==> left == Marked(s, HeadMarks(s, v, count)))
      && (count < 0 ==> left == Marked(s, TailMarks(s, v, 0 - count)))
      && (count == 0 ==> left == Marked(s, seq(|s|, i requires 0 <= i < |s| => s[i] != v)))
  {
    hide Rem, Marked, HeadMarks, TailMarks;
    RemSurvivors(s, v, count);
  }

  // ---------------------------------------------------------------- hashes, sets and sorted sets

  /** HGET sees what HSET wrote and HDEL removed, and all else as before; the replies are how many fields came
      or went. */
  lemma HashLaws(m: map<string, string>, pairs: map<string, string>, names: seq<string>, f: string)
    ensures DoHash(HGet(f), m) == (m, if f in m then Text(m[f]) else Missing) && DoHash(HGetAll, m) == (m, Fields(m))
    ensures DoHash(HLen, m) == (m, Int(|m|))
    ensures var (m', r) := DoHash(HSet(pairs), m);
      && (f in m' <==> f in m || f in pairs) && (f in m' ==> m'[f] == if f in pairs then pairs[f] else m[f])
      && r == Int(|m'| - |m|)
    ensures var (m', r) := DoHash(HDel(names), m);
      && (f in m' <==> f in m && f !in names) && (f in m' ==> m'[f] == m[f])
      && r == Int(|m| - |m'|)
  {
  }

  lemma SetLaws(m: set<string>, names: seq<string>, x: string)
    ensures DoSet(SMembers, m) == (m, Members(m)) && DoSet(SIsMember(x), m) == (m, Bool(x in m))
    ensures DoSet(SCard, m) == (m, Int(|m|))
    ensures var (m', r) := DoSet(SAdd(names), m); (x in m' <==> x in m || x in names) && r == Int(|m'| - |m|)
    ensures var (m', r) := DoSet(SRem(names), m); (x in m' <==> x in m && x !in names) && r == Int(|m| - |m'|)
  {
  }

  lemma ZSetLaws(m: Table, names: seq<string>, x: string)
    ensures DoZSet(ZScore(x), m) == (m, if x in m then Points(m[x]) else Missing) && DoZSet(ZCard, m) == (m, Int(|m|))
    ensures var (m', r) := DoZSet(ZRem(names), m);
      && (x in m' <==> x in m && x !in names) && (x in m' ==> m'[x] == m[x])
      && r == Int(|m| - |m'|)
  {
    hide Ranked, Below, Between, Range, Admitted;
  }

  /** ZADD writes the scores that NX and XX let through: of new members only, or of members that are there only. */
  lemma ZAddWrites(m: Table, scores: Table, nx: bool, xx: bool, x: string)
    ensures var (m', r) := DoZSet(ZAdd(scores, nx, xx), m);
      && r == Int(|m'| - |m|)
      && (x in m && nx ==> x in m' && m'[x] == m[x])
      && (x !in m && xx ==> x !in m')
      && (x in scores && (x in m ==> !nx) && (x !in m ==> !xx) ==> x in m' && m'[x] == scores[x])
      && (x !in scores ==> (x in m' <==> x in m) && (x in m ==> m'[x] == m[x]))
  {
    hide Ranked, Below, Between, Range, Admitted;
    assert DoZSet(ZAdd(scores, nx, xx), m).0 == m + Admitted(m, scores, nx, xx);
  }

  /** ZRANGE, ZRANK, ZRANGEBYSCORE and ZCOUNT read the ranking. */
  lemma ZSetReads(m: Table, i: Int64, j: Int64, x: string, min: Bound, max: Bound)
    ensures DoZSet(ZRange(i, j), m) == (m, Texts(Range(Ranked(m), i, j)))
    ensures DoZSet(ZRank(x), m) == (m, if x in m then Int(|Below(m, x)|) else Missing)
    ensures DoZSet(ZRangeByScore(min, max), m) == (m, Texts(Ranked(Between(m, min, max))))
    ensures DoZSet(ZCount(min, max), m) == (m, Int(|Ranked(Between(m, min, max))|))
  {
    hide Ranked, Below, Between, Range;
    RankedIsRanking(Between(m, min, max));
  }

  /** How a container lives under its key: only the adding commands make one, an emptied list goes, an emptied
      hash, set or sorted set stays, and the deadline stays. */
  lemma Containers(e: Option<Entry>, now: int, l: ListOp, h: HashOp, m: SetOp, z: ZOp)
    ensures IsList(e) ==>
      var c := DoList(l, ItemsOf(e));
      Do(OnList(l), e, now) == (if c.0 == [] then None else Some(Entry(List(c.0), DeadlineOf(e))), c.1)
    ensures e == None ==>
      var c := DoHash(h, map[]);
      Do(OnHash(h), e, now) == (if h.HSet? then Some(Entry(Hash(c.0), None)) else None, c.1)
    ensures e.Some? && e.value.content.Hash? ==>
      var c := DoHash(h, e.value.content.fields);
      Do(OnHash(h), e, now) == (Some(Entry(Hash(c.0), e.value.deadline)), c.1)
    ensures e == None ==>
      var c := DoSet(m, {});
      Do(OnSet(m), e, now) == (if m.SAdd? then Some(Entry(Set(c.0), None)) else None, c.1)
    ensures e.Some? && e.value.content.Set? ==>
      var c := DoSet(m, e.value.content.members);
      Do(OnSet(m), e, now) == (Some(Entry(Set(c.0), e.value.deadline)), c.1)
    ensures e == None ==>
      var c := DoZSet(z, map[]);
      Do(OnZSet(z), e, now) == (if z.ZAdd? then Some(Entry(ZSet(c.0), None)) else None, c.1)
    ensures e.Some? && e.value.content.ZSet? ==>
      var c := DoZSet(z, e.value.content.scores);
      Do(OnZSet(z), e, now) == (Some(Entry(ZSet(c.0), e.value.deadline)), c.1)
  {
    hide DoList, DoHash, DoSet, DoZSet;
  }

  // ---------------------------------------------------------------- many keys

  /** DEL takes away the named keys, dead or alive, and no other. */
  lemma Deletes(s: Space, now: int, db: nat, keys: seq<string>, id: Id)
    ensures var s' := Step(s, now, db, Del(keys)).0;
      && (id in s' <==> id in s && !(id.db == db && id.key in keys))
      && (id in s' ==> s'[id] == s[id])
  {
  }

  /** EXISTS counts each naming of a live key, and takes the dead rows that it names away. */
  lemma ExistsCounts(s: Space, now: int, db: nat, key: string, a: seq<string>, b: seq<string>, id: Id)
    ensures Step(s, now, db, Exists([key])).1 == Int(if Lookup(s, Id(db, key), now).Some? then 1 else 0)
    ensures Step(s, now, db, Exists([])).1 == Int(0)
    ensures Step(s, now, db, Exists(a + b)).1.n == Step(s, now, db, Exists(a)).1.n + Step(s, now, db, Exists(b)).1.n
    ensures var s' := Step(s, now, db, Exists(a)).0;
      && (id in s' <==> id in s && !(id.db == db && id.key in a && !AliveAt(s[id], now)))
      && (id in s' ==> s'[id] == s[id])
  {
    hide Ids, Reap;
    assert [key][0] == key && [key][1..] == [] && CountPresent(s, db, [], now) == 0;
    PresentConcat(s, db, a, b, now);
  }

  lemma {:induction false} PresentConcat(s: Space, db: nat, a: seq<string>, b: seq<string>, now: int)
    ensures CountPresent(s, db, a + b, now) == CountPresent(s, db, a, now) + CountPresent(s, db, b, now)
  {
    if a == [] {
      assert a + b == b;
    } else {
      assert (a + b)[1..] == a[1..] + b;
      PresentConcat(s, db, a[1..], b, now);
    }
  }

  /** FLUSHDB takes away all keys of its database and none of another, FLUSHALL all; then DBSIZE is 0. */
  lemma Flushes(s: Space, now: int, db: nat, t: int, id: Id)
    ensures var s', r := Step(s, now, db, FlushDB).0, Step(s, now, db, FlushDB).1;
      && r == Done && (id in s' <==> id in s && id.db != db) && (id in s' ==> s'[id] == s[id])
      && Step(s', t, db, DBSize).1 == Int(0)
    ensures Step(s, now, db, FlushAll) == (map[], Done) && Step(map[], t, db, DBSize).1 == Int(0)
  {
    assert Names(Step(s, now, db, FlushDB).0, db, t) == {};
    assert Names(map[], db, t) == {};
  }

  /** KEYS gives exactly the live names that match, when matching none of them ends the program; `*` gives them
      all, and DBSIZE says how many they are. */
  lemma KeysGives(s: Space, now: int, db: nat, pattern: string, stack: nat)
    ensures var p, r := Glob.Bounded(Glob.Parse(pattern), stack), Step(s, now, db, Command.Keys(pattern, stack)).1;
      if exists k :: Lookup(s, Id(db, k), now).Some? && Glob.Expected(p, k) == Glob.Panic then r == Crashed
      else
        && r.Members?
        && forall k :: k in r.names <==> Lookup(s, Id(db, k), now).Some? && Glob.Expected(p, k) == Glob.Yes
    ensures var r := Step(s, now, db, Command.Keys("*", stack)).1;
      && r.Members? && (forall k :: k in r.names <==> Lookup(s, Id(db, k), now).Some?)
      && Step(s, now, db, DBSize).1 == Int(|r.names|)
  {
    hide Glob.Expected, Glob.Parse, Glob.Bounded;
    forall k ensures Glob.Expected(Glob.Bounded(Glob.Parse("*"), stack), k) == Glob.Yes {
      StarMatches(k, stack);
    }
    var r := Step(s, now, db, Command.Keys("*", stack)).1;
    assert r.Members? && r.names == Names(s, db, now);
  }

  lemma StarMatches(k: string, stack: nat)
    ensures Glob.Expected(Glob.Bounded(Glob.Parse("*"), stack), k) == Glob.Yes
  {
    Glob.Wildcards(k);
    assert "*"[1..] == "" && Glob.Parse("*") == Glob.Closed([Glob.Star]);
    assert [Glob.Star][1..] == [];
    assert Glob.Bounded(Glob.Closed([Glob.Star]), stack) == Glob.Closed([Glob.Star]);
  }

  /** SINTER and SDIFF take away the dead rows of all their keys but the first. */
  lemma FoldsClear(s: Space, now: int, db: nat, keys: seq<string>, id: Id)
    requires keys != []
    ensures var s1, s2 := Step(s, now, db, SInter(keys)).0, Step(s, now, db, SDiff(keys)).0;
      && s1 == s2
      && (id in s1 <==> id in s && !(id.db == db && id.key in keys[1..] && !AliveAt(s[id], now)))
      && (id in s1 ==> s1[id] == s[id])
  {
  }

  /** RENAME of a key that is not there says so and changes nothing that is seen. */
  lemma NothingToRename(s: Space, now: int, db: nat, src: string, dst: string)
    requires Lookup(s, Id(db, src), now) == None
    ensures Step(s, now, db, Rename(src, dst)) == (s - {Id(db, src)}, NoSuchKey)
  {
  }

  /** The sweep takes away exactly the dead rows. */
  lemma SweepClears(s: Space, now: int, id: Id)
    ensures id in Sweep(s, now) <==> id in s && (s[id].deadline == None || now < s[id].deadline.value)
    ensures id in Sweep(s, now) ==> Sweep(s, now)[id] == s[id]
  {
  }

  /** Looking a dead key up takes its row away: a DEL that follows does not count it. */
  lemma LookingUpClears(s: Space, now: int, id: Id, op: Op)
    requires id in s && !AliveAt(s[id], now) && op in {OnKey(TypeOf), OnString(Get), OnList(LLen), OnHash(HLen), OnSet(SCard)}
    ensures Ask(s, now, id, op).0 == s - {id}
    ensures Step(Ask(s, now, id, op).0, now, id.db, Del([id.key])).1 == Int(0)
    ensures Step(s, now, id.db, Del([id.key])).1 == Int(1)
  {
    hide Do;
    NothingComesOfNothing(op, now);
    assert (s - {id}).Keys * Ids(id.db, [id.key]) == {};
    assert s.Keys * Ids(id.db, [id.key]) == {id};
  }

  lemma NothingComesOfNothing(op: Op, now: int)
    requires op in {OnKey(TypeOf), OnString(Get), OnList(LLen), OnHash(HLen), OnSet(SCard)}
    ensures Do(op, None, now).0 == None
  {
  }
}
