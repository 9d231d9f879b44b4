/** What holds over whole runs of commands and sweeps on the keyspace. */
module Runs {
  import opened Decimal
  import opened ListEdits
  import opened Ranking
  import opened Sequences
  import opened Keyspace

  // ---------------------------------------------------------------- only live rows matter

  ghost predicate SameLive(s1: Space, s2: Space, now: int) {
    Live(s1, now) == Live(s2, now)
  }

  lemma SameLookup(s1: Space, s2: Space, now: int, id: Id)
    requires SameLive(s1, s2, now)
    ensures Lookup(s1, id, now) == Lookup(s2, id, now)
  {
    if id in Live(s1, now) {
      assert Live(s1, now)[id] == Live(s2, now)[id];
    }
  }

  lemma SameLiveFromLookups(s1: Space, s2: Space, now: int)
    requires forall id :: Lookup(s1, id, now) == Lookup(s2, id, now)
    ensures SameLive(s1, s2, now)
  {
    forall id ensures id in Live(s1, now) <==> id in Live(s2, now) {
      assert Lookup(s1, id, now) == Lookup(s2, id, now);
    }
    forall id | id in Live(s1, now) ensures Live(s1, now)[id] == Live(s2, now)[id] {
      assert Lookup(s1, id, now) == Lookup(s2, id, now);
    }
  }

  /** What is dead stays dead: views that agree now agree from now on. */
  lemma SameLiveLater(s1: Space, s2: Space, now: int, t: int)
    requires SameLive(s1, s2, now) && now <= t
    ensures SameLive(s1, s2, t)
  {
    forall id ensures Lookup(s1, id, t) == Lookup(s2, id, t) {
      SameLookup(s1, s2, now, id);
    }
    SameLiveFromLookups(s1, s2, t);
  }

  /** Removing dead rows, by a sweep or lazily, is not a visible change. */
  lemma RemovingDeadRows(s: Space, s': Space, now: int)
    requires forall id :: id in s' ==> id in s && s'[id] == s[id]
    requires forall id :: id in s && id !in s' ==> !AliveAt(s[id], now)
    ensures SameLive(s, s', now)
  {
    assert Live(s, now) == Live(s', now);
  }

  /** Is the row of the first key dead, but still there? */
  predicate DeadFirst(s: Space, now: int, db: nat, keys: seq<string>) {
    keys != [] && Id(db, keys[0]) in s && !AliveAt(s[Id(db, keys[0])], now)
  }

  ghost predicate NamesDead(s: Space, now: int, db: nat, keys: seq<string>) {
    exists id :: id in s && id in Ids(db, keys) && !AliveAt(s[id], now)
  }

  /** DEL counts rows, and SINTER and SDIFF read their first key, without looking at deadlines: does the
      command see a dead row by that? */
  ghost predicate SeesDead(s: Space, now: int, db: nat, cmd: Command) {
    match cmd
    case Del(keys) => NamesDead(s, now, db, keys)
    case SInter(keys) => DeadFirst(s, now, db, keys)
    case SDiff(keys) => DeadFirst(s, now, db, keys)
    case _ => false
  }

  lemma {:induction false} SamePresent(s1: Space, s2: Space, db: nat, keys: seq<string>, now: int)
    requires SameLive(s1, s2, now)
    ensures CountPresent(s1, db, keys, now) == CountPresent(s2, db, keys, now)
  {
    if keys != [] {
      SameLookup(s1, s2, now, Id(db, keys[0]));
      SamePresent(s1, s2, db, keys[1..], now);
    }
  }

  lemma SameNames(s1: Space, s2: Space, db: nat, now: int)
    requires SameLive(s1, s2, now)
    ensures Names(s1, db, now) == Names(s2, db, now)
  {
    forall k ensures k in Names(s1, db, now) <==> k in Names(s2, db, now) {
      SameLookup(s1, s2, now, Id(db, k));
    }
  }

  lemma {:induction false} UnionReaps(s: Space, db: nat, keys: seq<string>, now: int, acc: set<string>)
    ensures SameLive(s, Union(s, db, keys, now, acc).0, now)
    decreases |keys|
  {
    if keys != [] {
      var id := Id(db, keys[0]);
      var s' := Reap(s, {id}, now);
      RemovingDeadRows(s, s', now);
      UnionReaps(s', db, keys[1..], now, acc + MembersOf(Lookup(s, id, now)));
    }
  }

  lemma {:induction false} SameUnion(s1: Space, s2: Space, db: nat, keys: seq<string>, now: int, acc: set<string>)
    requires SameLive(s1, s2, now)
    ensures Union(s1, db, keys, now, acc).1 == Union(s2, db, keys, now, acc).1
    decreases |keys|
  {
    if keys != [] {
      var id := Id(db, keys[0]);
      SameLookup(s1, s2, now, id);
      var r1, r2 := Reap(s1, {id}, now), Reap(s2, {id}, now);
      RemovingDeadRows(s1, r1, now);
      RemovingDeadRows(s2, r2, now);
      SameUnion(r1, r2, db, keys[1..], now, acc + MembersOf(Lookup(s1, id, now)));
    }
  }

  /** Commands that reach any key but the ones of `One` and `Rename` change at most dead rows, or delete. */
  lemma StepReaps(s: Space, now: int, db: nat, cmd: Command)
    requires cmd.Exists? || cmd.Keys? || cmd.DBSize? || cmd.SUnion? || cmd.SInter? || cmd.SDiff?
    ensures SameLive(s, Step(s, now, db, cmd).0, now)
  {
    if cmd.SUnion? {
      UnionReaps(s, db, cmd.keys, now, {});
    } else {
      RemovingDeadRows(s, Step(s, now, db, cmd).0, now);
    }
  }

  lemma LookupPut(s: Space, at: Id, e: Option<Entry>, id: Id, now: int)
    ensures Lookup(Put(s, at, e), id, now)
         == if id != at then Lookup(s, id, now) else if e.Some? && AliveAt(e.value, now) then e else None
  {
  }

  lemma StepLookups(s1: Space, s2: Space, now: int, db: nat, cmd: Command, id: Id)
    requires SameLive(s1, s2, now)
    requires cmd.One? || cmd.Rename? || cmd.Del? || cmd.FlushDB? || cmd.FlushAll?
    ensures Lookup(Step(s1, now, db, cmd).0, id, now) == Lookup(Step(s2, now, db, cmd).0, id, now)
  {
    hide Do, Live, Ids;
    SameLookup(s1, s2, now, id);
    if cmd.One? {
      var at := Id(db, cmd.key);
      SameLookup(s1, s2, now, at);
      LookupPut(s1, at, Do(cmd.op, Lookup(s1, at, now), now).0, id, now);
      LookupPut(s2, at, Do(cmd.op, Lookup(s2, at, now), now).0, id, now);
    } else if cmd.Rename? {
      SameLookup(s1, s2, now, Id(db, cmd.src));
    }
  }

  lemma StepSpaces(s1: Space, s2: Space, now: int, db: nat, cmd: Command)
    requires SameLive(s1, s2, now)
    ensures SameLive(Step(s1, now, db, cmd).0, Step(s2, now, db, cmd).0, now)
  {
    if cmd.One? || cmd.Rename? || cmd.Del? || cmd.FlushDB? || cmd.FlushAll? {
      forall id ensures Lookup(Step(s1, now, db, cmd).0, id, now) == Lookup(Step(s2, now, db, cmd).0, id, now) {
        StepLookups(s1, s2, now, db, cmd, id);
      }
      SameLiveFromLookups(Step(s1, now, db, cmd).0, Step(s2, now, db, cmd).0, now);
    } else {
      StepReaps(s1, now, db, cmd);
      StepReaps(s2, now, db, cmd);
    }
  }

  lemma SameCounted(s1: Space, s2: Space, now: int, db: nat, keys: seq<string>)
    requires SameLive(s1, s2, now) && !NamesDead(s1, now, db, keys) && !NamesDead(s2, now, db, keys)
    ensures s1.Keys * Ids(db, keys) == s2.Keys * Ids(db, keys)
  {
    forall id | id in Ids(db, keys) ensures id in s1 <==> id in s2 {
      SameLookup(s1, s2, now, id);
    }
  }

  lemma SameRaw(s1: Space, s2: Space, now: int, db: nat, keys: seq<string>)
    requires SameLive(s1, s2, now) && !DeadFirst(s1, now, db, keys) && !DeadFirst(s2, now, db, keys) && keys != []
    ensures RawMembers(s1, Id(db, keys[0])) == RawMembers(s2, Id(db, keys[0]))
  {
    SameLookup(s1, s2, now, Id(db, keys[0]));
  }

  lemma {:induction false} SameFolds(s1: Space, s2: Space, now: int, db: nat, keys: seq<string>, base: set<string>)
    requires SameLive(s1, s2, now)
    ensures InterAll(s1, db, keys, now, base) == InterAll(s2, db, keys, now, base)
    ensures DiffAll(s1, db, keys, now, base) == DiffAll(s2, db, keys, now, base)
    decreases |keys|
  {
    if keys != [] {
      SameLookup(s1, s2, now, Id(db, keys[0]));
      SameFolds(s1, s2, now, db, keys[1..], base * LiveMembers(s1, Id(db, keys[0]), now));
      SameFolds(s1, s2, now, db, keys[1..], base - LiveMembers(s1, Id(db, keys[0]), now));
    }
  }

  lemma StepReplies(s1: Space, s2: Space, now: int, db: nat, cmd: Command)
    requires SameLive(s1, s2, now) && !SeesDead(s1, now, db, cmd) && !SeesDead(s2, now, db, cmd)
    ensures Step(s1, now, db, cmd).1 == Step(s2, now, db, cmd).1
  {
    hide NamesDead, DeadFirst, Do, Names, Live;
    match cmd {
      case One(key, op) => SameLookup(s1, s2, now, Id(db, key));
      case Del(keys) => SameCounted(s1, s2, now, db, keys);
      case Exists(keys) => SamePresent(s1, s2, db, keys, now);
      case Rename(src, dst) => SameLookup(s1, s2, now, Id(db, src));
      case Keys(_, _) => SameNames(s1, s2, db, now);
      case DBSize => SameNames(s1, s2, db, now);
      case SUnion(keys) => SameUnion(s1, s2, db, keys, now, {});
      case SInter(keys) => SameFold(s1, s2, now, db, keys);
      case SDiff(keys) => SameFold(s1, s2, now, db, keys);
      case _ =>
    }
  }

  lemma SameFold(s1: Space, s2: Space, now: int, db: nat, keys: seq<string>)
    requires SameLive(s1, s2, now) && !DeadFirst(s1, now, db, keys) && !DeadFirst(s2, now, db, keys)
    ensures Step(s1, now, db, SInter(keys)).1 == Step(s2, now, db, SInter(keys)).1
    ensures Step(s1, now, db, SDiff(keys)).1 == Step(s2, now, db, SDiff(keys)).1
  {
    if keys != [] {
      hide DeadFirst, RawMembers, InterAll, DiffAll;
      SameRaw(s1, s2, now, db, keys);
      SameFolds(s1, s2, now, db, keys[1..], RawMembers(s1, Id(db, keys[0])));
    }
  }

  lemma KeyAnswers(op: KeyOp, e: Option<Entry>, now: int)
    ensures DoKey(op, e, now).1 != Crashed
  {
  }

  lemma StringAnswers(op: StrOp, e: Option<Entry>)
    requires e.Some? ==> e.value.content.Str?
    ensures DoString(op, e).1 != Crashed
  {
    hide ParseInt, FormatInt, Wrap;
  }

  lemma ListAnswers(op: ListOp, s: seq<string>)
    ensures DoList(op, s).1 != Crashed
  {
    hide Norm, Range, IndexOf, Rem, Reverse;
  }

  lemma TableAnswers(h: HashOp, f: map<string, string>, m: SetOp, names: set<string>, z: ZOp, scores: Table)
    ensures DoHash(h, f).1 != Crashed && DoSet(m, names).1 != Crashed && DoZSet(z, scores).1 != Crashed
  {
    hide Admitted, Below, Ranked, Range, Between, SetOf;
  }

  lemma DoAnswers(op: Op, e: Option<Entry>, now: int)
    ensures Do(op, e, now).1 != Crashed
  {
    hide DoKey, DoString, DoList, DoHash, DoSet, DoZSet, Store;
    if !Mismatch(op, e) {
      match op {
        case OnKey(k) => KeyAnswers(k, e, now);
        case OnString(t) => StringAnswers(t, e);
        case OnList(l) => ListAnswers(l, ItemsOf(e));
        case OnHash(h) => TableAnswers(h, FieldsOf(e), SCard, {}, ZCard, map[]);
        case OnSet(m) => TableAnswers(HLen, map[], m, MembersOf(e), ZCard, map[]);
        case OnZSet(z) => TableAnswers(HLen, map[], SCard, {}, z, ScoresOf(e));
      }
    }
  }

  /** Only KEYS can panic. */
  lemma OnlyKeysCrashes(s: Space, now: int, db: nat, cmd: Command)
    requires Step(s, now, db, cmd).1 == Crashed
    ensures cmd.Keys?
  {
    hide Do, KeysReply;
    match cmd {
      case One(key, op) => DoAnswers(op, Lookup(s, Id(db, key), now), now);
      case SUnion(keys) => UnionAnswers(s, db, keys, now, {});
      case _ =>
    }
  }

  lemma {:induction false} UnionAnswers(s: Space, db: nat, keys: seq<string>, now: int, acc: set<string>)
    ensures Union(s, db, keys, now, acc).1 != Crashed
    decreases |keys|
  {
    if keys != [] {
      var id := Id(db, keys[0]);
      UnionAnswers(Reap(s, {id}, now), db, keys[1..], now, acc + MembersOf(Lookup(s, id, now)));
    }
  }

  // ---------------------------------------------------------------- runs

  datatype Event = Call(now: int, db: nat, cmd: Command) | SweepAt(now: int)

  /** Times never go back, starting from `t0`. */
  predicate Monotone(t0: int, events: seq<Event>)
    decreases |events|
  {
    events == [] || (t0 <= events[0].now && Monotone(events[0].now, events[1..]))
  }

  function EndTime(t0: int, events: seq<Event>): int
    decreases |events|
  {
    if events == [] then t0 else EndTime(events[0].now, events[1..])
  }

  /** A run: the keyspace at its end, and the replies to its calls. A panic is the end of the program: it is
      the last reply, and nothing after it is done. */
  ghost function RunAll(s: Space, events: seq<Event>): (Space, seq<Reply>)
    decreases |events|
  {
    if events == [] then (s, [])
    else
      match events[0]
      case SweepAt(now) => RunAll(Sweep(s, now), events[1..])
      case Call(now, db, cmd) =>
        var (s', r) := Step(s, now, db, cmd);
        if r == Crashed then (s', [r])
        else
          var (s'', rs) := RunAll(s', events[1..]);
          (s'', [r] + rs)
  }

  lemma AfterFirst(s: Space, events: seq<Event>)
    requires events != []
    ensures var s', e := After(s, events[0]), events[0];
      RunAll(s, events)
      == if e.SweepAt? then RunAll(s', events[1..])
         else
           var r := Step(s, e.now, e.db, e.cmd).1;
           if r == Crashed then (s', [r]) else (RunAll(s', events[1..]).0, [r] + RunAll(s', events[1..]).1)
  {
    hide Step;
  }

  /** Of the calls that are answered, which see no dead row. */
  ghost function Clear(s: Space, events: seq<Event>): seq<bool>
    decreases |events|
  {
    if events == [] then []
    else
      match events[0]
      case SweepAt(now) => Clear(Sweep(s, now), events[1..])
      case Call(now, db, cmd) =>
        var (s', r) := Step(s, now, db, cmd);
        [!SeesDead(s, now, db, cmd)] + if r == Crashed then [] else Clear(s', events[1..])
  }

  lemma ClearFirst(s: Space, events: seq<Event>)
    requires events != []
    ensures var s', e := After(s, events[0]), events[0];
      Clear(s, events)
      == if e.SweepAt? then Clear(s', events[1..])
         else
           [!SeesDead(s, e.now, e.db, e.cmd)]
           + if Step(s, e.now, e.db, e.cmd).1 == Crashed then [] else Clear(s', events[1..])
  {
    hide Step, SeesDead;
  }

  /** The keyspace after one event. */
  ghost function After(s: Space, e: Event): Space {
    if e.SweepAt? then Sweep(s, e.now) else Step(s, e.now, e.db, e.cmd).0
  }

  /** The run without its sweeps. */
  function Calls(events: seq<Event>): seq<Event> {
    if events == [] then [] else (if events[0].Call? then [events[0]] else []) + Calls(events[1..])
  }

  lemma FirstCall(events: seq<Event>)
    requires events != []
    ensures events[0].SweepAt? ==> Calls(events) == Calls(events[1..])
    ensures events[0].Call? ==>
      Calls(events) != [] && Calls(events)[0] == events[0] && Calls(events)[1..] == Calls(events[1..])
  {
  }

  lemma {:induction false} EndTimeLater(t0: int, events: seq<Event>)
    requires Monotone(t0, events)
    ensures t0 <= EndTime(t0, events)
    decreases |events|
  {
    if events != [] {
      EndTimeLater(events[0].now, events[1..]);
    }
  }

  /** The same replies, except where a command saw a dead row in one of the runs. */
  predicate SameReplies(c1: seq<bool>, r1: seq<Reply>, c2: seq<bool>, r2: seq<Reply>) {
    && |r1| == |c1| == |c2| == |r2|
    && forall i :: 0 <= i < |r1| && c1[i] && c2[i] ==> r1[i] == r2[i]
  }

  lemma ConsReplies(b1: bool, c1: seq<bool>, x1: Reply, r1: seq<Reply>,
                    b2: bool, c2: seq<bool>, x2: Reply, r2: seq<Reply>)
    requires SameReplies(c1, r1, c2, r2) && (b1 && b2 ==> x1 == x2)
    ensures SameReplies([b1] + c1, [x1] + r1, [b2] + c2, [x2] + r2)
  {
  }

  function Max(a: int, b: int): int { if a < b then b else a }

  /** Two runs with the same calls, each with its own sweeps and its own clock up to the next call. */
  ghost predicate Alike(s1: Space, ev1: seq<Event>, t1: int, s2: Space, ev2: seq<Event>, t2: int) {
    && SameLive(s1, s2, Max(t1, t2)) && Calls(ev1) == Calls(ev2)
    && Monotone(t1, ev1) && Monotone(t2, ev2)
  }

  /** What such runs give: the same replies, and the same view at `t`. */
  ghost predicate Agree(s1: Space, ev1: seq<Event>, s2: Space, ev2: seq<Event>, t: int) {
    && SameReplies(Clear(s1, ev1), RunAll(s1, ev1).1, Clear(s2, ev2), RunAll(s2, ev2).1)
    && SameLive(RunAll(s1, ev1).0, RunAll(s2, ev2).0, t)
  }

  lemma AlikeSweep(s1: Space, ev1: seq<Event>, t1: int, s2: Space, ev2: seq<Event>, t2: int)
    requires Alike(s1, ev1, t1, s2, ev2, t2) && ev1 != [] && ev1[0].SweepAt?
    ensures Alike(After(s1, ev1[0]), ev1[1..], ev1[0].now, s2, ev2, t2)
  {
    var u := ev1[0].now;
    FirstCall(ev1);
    RemovingDeadRows(s1, Sweep(s1, u), u);
    SameLiveLater(s1, Sweep(s1, u), u, Max(u, t2));
    SameLiveLater(s1, s2, Max(t1, t2), Max(u, t2));
  }

  lemma AlikeCall(s1: Space, ev1: seq<Event>, t1: int, s2: Space, ev2: seq<Event>, t2: int)
    requires Alike(s1, ev1, t1, s2, ev2, t2) && ev1 != [] && ev2 != [] && ev1[0].Call? && ev2[0].Call?
    ensures ev1[0] == ev2[0]
    ensures Alike(After(s1, ev1[0]), ev1[1..], ev1[0].now, After(s2, ev1[0]), ev2[1..], ev1[0].now)
    ensures var e := ev1[0];
      var r1, r2 := Step(s1, e.now, e.db, e.cmd).1, Step(s2, e.now, e.db, e.cmd).1;
      && (!SeesDead(s1, e.now, e.db, e.cmd) && !SeesDead(s2, e.now, e.db, e.cmd) ==> r1 == r2)
      && (r1 == Crashed <==> r2 == Crashed)
  {
    hide SameLive, Step, SeesDead;
    FirstCall(ev1);
    FirstCall(ev2);
    var e := ev1[0];
    SameLiveLater(s1, s2, Max(t1, t2), e.now);
    StepSpaces(s1, s2, e.now, e.db, e.cmd);
    if !SeesDead(s1, e.now, e.db, e.cmd) && !SeesDead(s2, e.now, e.db, e.cmd) {
      StepReplies(s1, s2, e.now, e.db, e.cmd);
    }
    CrashTogether(s1, s2, e.now, e.db, e.cmd);
  }

  lemma CrashTogether(s1: Space, s2: Space, now: int, db: nat, cmd: Command)
    requires SameLive(s1, s2, now)
    ensures Step(s1, now, db, cmd).1 == Crashed <==> Step(s2, now, db, cmd).1 == Crashed
  {
    hide Step, SameLive;
    if Step(s1, now, db, cmd).1 == Crashed {
      OnlyKeysCrashes(s1, now, db, cmd);
      StepReplies(s1, s2, now, db, cmd);
    } else if Step(s2, now, db, cmd).1 == Crashed {
      OnlyKeysCrashes(s2, now, db, cmd);
      StepReplies(s1, s2, now, db, cmd);
    }
  }

  lemma AgreeAfterCall(s1: Space, ev1: seq<Event>, s2: Space, ev2: seq<Event>, t: int)
    requires ev1 != [] && ev2 != [] && ev1[0] == ev2[0] && ev1[0].Call?
    requires var e := ev1[0];
      var r1, r2 := Step(s1, e.now, e.db, e.cmd).1, Step(s2, e.now, e.db, e.cmd).1;
      && (!SeesDead(s1, e.now, e.db, e.cmd) && !SeesDead(s2, e.now, e.db, e.cmd) ==> r1 == r2)
      && (r1 == Crashed <==> r2 == Crashed)
      && if r1 == Crashed then SameLive(After(s1, e), After(s2, e), t)
         else Agree(After(s1, e), ev1[1..], After(s2, e), ev2[1..], t)
    ensures Agree(s1, ev1, s2, ev2, t)
  {
    hide SameLive, Step, SeesDead, RunAll, Clear, SameReplies;
    AfterFirst(s1, ev1);
    AfterFirst(s2, ev2);
    ClearFirst(s1, ev1);
    ClearFirst(s2, ev2);
    var e, n1, n2 := ev1[0], After(s1, ev1[0]), After(s2, ev1[0]);
    var b1, b2 := !SeesDead(s1, e.now, e.db, e.cmd), !SeesDead(s2, e.now, e.db, e.cmd);
    var r1, r2 := Step(s1, e.now, e.db, e.cmd).1, Step(s2, e.now, e.db, e.cmd).1;
    if r1 == Crashed {
      NoReplies();
      ConsReplies(b1, [], r1, [], b2, [], r2, []);
      assert [b1] + [] == [b1] && [b2] + [] == [b2] && [r1] + [] == [r1] && [r2] + [] == [r2];
    } else {
      ConsReplies(b1, Clear(n1, ev1[1..]), r1, RunAll(n1, ev1[1..]).1,
                  b2, Clear(n2, ev2[1..]), r2, RunAll(n2, ev2[1..]).1);
    }
  }

  lemma NoReplies()
    ensures SameReplies([], [], [], [])
  {
  }

  lemma AgreeAtEnd(s1: Space, t1: int, s2: Space, t2: int, t: int)
    requires SameLive(s1, s2, Max(t1, t2)) && t1 <= t && t2 <= t
    ensures Agree(s1, [], s2, [], t)
  {
    SameLiveLater(s1, s2, Max(t1, t2), t);
  }

  lemma AgreeAfterSweep(s1: Space, ev1: seq<Event>, s2: Space, ev2: seq<Event>, t: int)
    requires ev1 != [] && ev1[0].SweepAt?
    ensures Agree(After(s1, ev1[0]), ev1[1..], s2, ev2, t) ==> Agree(s1, ev1, s2, ev2, t)
    ensures Agree(s2, ev2, After(s1, ev1[0]), ev1[1..], t) ==> Agree(s2, ev2, s1, ev1, t)
  {
    hide SameLive, SameReplies;
    AfterFirst(s1, ev1);
    ClearFirst(s1, ev1);
  }

  lemma {:induction false} AlikeAgree(s1: Space, ev1: seq<Event>, t1: int, s2: Space, ev2: seq<Event>, t2: int, t: int)
    requires Alike(s1, ev1, t1, s2, ev2, t2) && EndTime(t1, ev1) <= t && EndTime(t2, ev2) <= t
    ensures Agree(s1, ev1, s2, ev2, t)
    decreases |ev1| + |ev2|
  {
    hide SameLive, Agree, Step, SeesDead, After;
    EndTimeLater(t1, ev1);
    EndTimeLater(t2, ev2);
    if ev1 != [] && ev1[0].SweepAt? {
      AlikeSweep(s1, ev1, t1, s2, ev2, t2);
      AlikeAgree(After(s1, ev1[0]), ev1[1..], ev1[0].now, s2, ev2, t2, t);
      AgreeAfterSweep(s1, ev1, s2, ev2, t);
    } else if ev2 != [] && ev2[0].SweepAt? {
      AlikeTurned(s1, ev1, t1, s2, ev2, t2);
      AlikeSweep(s2, ev2, t2, s1, ev1, t1);
      var n2 := After(s2, ev2[0]);
      AlikeTurned(n2, ev2[1..], ev2[0].now, s1, ev1, t1);
      AlikeAgree(s1, ev1, t1, n2, ev2[1..], ev2[0].now, t);
      AgreeAfterSweep(s2, ev2, s1, ev1, t);
    } else if ev1 == [] {
      assert ev2 == [] by { if ev2 != [] { FirstCall(ev2); } }
      AgreeAtEnd(s1, t1, s2, t2, t);
    } else {
      FirstCall(ev1);
      assert ev2 != [];
      AlikeCall(s1, ev1, t1, s2, ev2, t2);
      var e := ev1[0];
      EndTimeLater(e.now, ev1[1..]);
      AlikeAgree(After(s1, e), ev1[1..], e.now, After(s2, e), ev2[1..], e.now, t);
      SameLiveLater(After(s1, e), After(s2, e), e.now, t);
      AgreeAfterCall(s1, ev1, s2, ev2, t);
    }
  }

  lemma AlikeTurned(s1: Space, ev1: seq<Event>, t1: int, s2: Space, ev2: seq<Event>, t2: int)
    requires Alike(s1, ev1, t1, s2, ev2, t2)
    ensures Alike(s2, ev2, t2, s1, ev1, t1)
  {
  }

  /** The timing of physical deletion cannot be observed: two runs that make the same calls, with the
      background sweep at any points of either, give the same views ever after and the same replies, except to
      a DEL, SINTER or SDIFF that sees a dead row in one of them. */
  lemma SweepsInvisible(s1: Space, ev1: seq<Event>, s2: Space, ev2: seq<Event>, t0: int, t: int)
    requires SameLive(s1, s2, t0) && Monotone(t0, ev1) && Monotone(t0, ev2) && Calls(ev1) == Calls(ev2)
    requires EndTime(t0, ev1) <= t && EndTime(t0, ev2) <= t
    ensures SameReplies(Clear(s1, ev1), RunAll(s1, ev1).1, Clear(s2, ev2), RunAll(s2, ev2).1)
    ensures SameLive(RunAll(s1, ev1).0, RunAll(s2, ev2).0, t)
  {
    hide SameLive, RunAll, Clear, SameReplies, Calls, Monotone, EndTime;
    AlikeAgree(s1, ev1, t0, s2, ev2, t0, t);
  }

  // ---------------------------------------------------------------- the commands that see dead rows

  /** DEL replies what it would without the dead rows exactly when it names no dead row. */
  lemma DelCountsDeadRows(s: Space, now: int, db: nat, keys: seq<string>)
    ensures Step(s, now, db, Del(keys)).1 == Step(Live(s, now), now, db, Del(keys)).1
       <==> forall id :: id in s && id in Ids(db, keys) ==> AliveAt(s[id], now)
  {
    hide Ids, Live, Do;
    var ids := Ids(db, keys);
    var all, live := s.Keys * ids, Live(s, now).Keys * ids;
    assert live <= all;
    if |all| == |live| {
      SubsetSize(live, all);
      forall id | id in s && id in ids ensures AliveAt(s[id], now) {
        assert id in all;
      }
    } else {
      assert all != live;
      var id :| id in all && id !in live;
    }
  }

  lemma SubsetSize<T>(a: set<T>, b: set<T>)
    requires a <= b && |a| == |b|
    ensures a == b
  {
    assert b == a + (b - a);
    assert |b| == |a| + |b - a|;
  }

  lemma {:induction false} InterMembers(s: Space, db: nat, keys: seq<string>, now: int, base: set<string>, x: string)
    ensures x in InterAll(s, db, keys, now, base)
       <==> x in base && forall k :: k in keys ==> x in LiveMembers(s, Id(db, k), now)
    decreases |keys|
  {
    if keys != [] {
      InterMembers(s, db, keys[1..], now, base * LiveMembers(s, Id(db, keys[0]), now), x);
      assert forall k :: k in keys <==> k == keys[0] || k in keys[1..];
    }
  }

  lemma {:induction false} DiffMembers(s: Space, db: nat, keys: seq<string>, now: int, base: set<string>, x: string)
    ensures x in DiffAll(s, db, keys, now, base)
       <==> x in base && forall k :: k in keys ==> x !in LiveMembers(s, Id(db, k), now)
    decreases |keys|
  {
    if keys != [] {
      DiffMembers(s, db, keys[1..], now, base - LiveMembers(s, Id(db, keys[0]), now), x);
      assert forall k :: k in keys <==> k == keys[0] || k in keys[1..];
    }
  }

  /** `x` is in every other live set ... */
  predicate InAll(s: Space, now: int, db: nat, keys: seq<string>, x: string) {
    forall k :: k in keys ==> x in LiveMembers(s, Id(db, k), now)
  }

  /** ... or in none of them. */
  predicate InNone(s: Space, now: int, db: nat, keys: seq<string>, x: string) {
    forall k :: k in keys ==> x !in LiveMembers(s, Id(db, k), now)
  }

  /** SINTER is the intersection of the live sets, unless a dead first row still has a member that is
      in all the other sets. */
  lemma InterIsIntersection(s: Space, now: int, db: nat, keys: seq<string>)
    requires keys != []
    ensures Step(s, now, db, SInter(keys)).1.Members?
    ensures (forall x :: x in Step(s, now, db, SInter(keys)).1.names <==> InAll(s, now, db, keys, x))
       <==> !DeadFirst(s, now, db, keys)
            || forall x :: x in RawMembers(s, Id(db, keys[0])) ==> !InAll(s, now, db, keys[1..], x)
  {
    var first := Id(db, keys[0]);
    var r := Step(s, now, db, SInter(keys)).1.names;
    forall x ensures x in r <==> x in RawMembers(s, first) && InAll(s, now, db, keys[1..], x) {
      InterMembers(s, db, keys[1..], now, RawMembers(s, first), x);
    }
    assert forall k :: k in keys <==> k == keys[0] || k in keys[1..];
    forall x ensures InAll(s, now, db, keys, x)
                <==> x in LiveMembers(s, first, now) && InAll(s, now, db, keys[1..], x) {
    }
    if DeadFirst(s, now, db, keys) {
      assert LiveMembers(s, first, now) == {};
    } else {
      assert RawMembers(s, first) == LiveMembers(s, first, now);
    }
  }

  /** SDIFF is the first live set minus the others, unless a dead first row still has a member that is
      in none of them. */
  lemma DiffIsDifference(s: Space, now: int, db: nat, keys: seq<string>)
    requires keys != []
    ensures Step(s, now, db, SDiff(keys)).1.Members?
    ensures (forall x :: x in Step(s, now, db, SDiff(keys)).1.names
               <==> x in LiveMembers(s, Id(db, keys[0]), now) && InNone(s, now, db, keys[1..], x))
       <==> !DeadFirst(s, now, db, keys)
            || forall x :: x in RawMembers(s, Id(db, keys[0])) ==> !InNone(s, now, db, keys[1..], x)
  {
    var first := Id(db, keys[0]);
    var r := Step(s, now, db, SDiff(keys)).1.names;
    forall x ensures x in r <==> x in RawMembers(s, first) && InNone(s, now, db, keys[1..], x) {
      DiffMembers(s, db, keys[1..], now, RawMembers(s, first), x);
    }
    if DeadFirst(s, now, db, keys) {
      assert LiveMembers(s, first, now) == {};
    } else {
      assert RawMembers(s, first) == LiveMembers(s, first, now);
    }
  }

  /** SUNION is the union of the live sets when no live key has another type, and an error otherwise. */
  lemma {:induction false} UnionIsUnion(s: Space, now: int, db: nat, keys: seq<string>, acc: set<string>)
    ensures var r := Union(s, db, keys, now, acc).1;
      if exists k :: k in keys && Lookup(s, Id(db, k), now).Some? && !Lookup(s, Id(db, k), now).value.content.Set?
      then r == WrongType
      else r.Members? && forall x :: x in r.names <==> x in acc || exists k :: k in keys && x in LiveMembers(s, Id(db, k), now)
    decreases |keys|
  {
    if keys != [] {
      var id := Id(db, keys[0]);
      var s' := Reap(s, {id}, now);
      RemovingDeadRows(s, s', now);
      assert forall k :: k in keys <==> k == keys[0] || k in keys[1..];
      forall k ensures Lookup(s', Id(db, k), now) == Lookup(s, Id(db, k), now) {
        SameLookup(s, s', now, Id(db, k));
      }
      UnionIsUnion(s', now, db, keys[1..], acc + MembersOf(Lookup(s, id, now)));
    }
  }

  /** A keyspace with one set, which dies at 5. */
  function Dying(): Space {
    map[Id(0, "a") := Entry(Set({"x"}), Some(5))]
  }

  /** At 5 its row is still seen by the three commands. */
  lemma DeadRowsSeen()
    ensures Lookup(Dying(), Id(0, "a"), 5) == None
    ensures Step(Dying(), 5, 0, Del(["a"])).1 == Int(1)
    ensures Step(Dying(), 5, 0, SInter(["a"])).1 == Step(Dying(), 5, 0, SDiff(["a"])).1 == Members({"x"})
  {
    hide Do, Union, Names, CountPresent, KeysReply;
    assert Dying().Keys * Ids(0, ["a"]) == {Id(0, "a")};
    assert ["a"][1..] == [];
  }

  /** And at 4, while it lives, RENAME onto itself deletes it. */
  lemma RenamedAway()
    ensures Step(Dying(), 4, 0, Rename("a", "a")) == (map[], Done)
  {
  }

  // ---------------------------------------------------------------- frames

  /** A command on one database changes no row of another. */
  lemma OtherDatabases(s: Space, now: int, db: nat, cmd: Command, id: Id)
    requires id.db != db && !cmd.FlushAll?
    ensures var s' := Step(s, now, db, cmd).0;
      (id in s' <==> id in s) && (id in s ==> s'[id] == s[id])
  {
    if cmd.SUnion? {
      UnionOther(s, db, cmd.keys, now, {}, id);
    }
  }

  lemma {:induction false} UnionOther(s: Space, db: nat, keys: seq<string>, now: int, acc: set<string>, id: Id)
    requires id.db != db
    ensures var s' := Union(s, db, keys, now, acc).0;
      (id in s' <==> id in s) && (id in s ==> s'[id] == s[id])
    decreases |keys|
  {
    if keys != [] {
      var first := Id(db, keys[0]);
      UnionOther(Reap(s, {first}, now), db, keys[1..], now, acc + MembersOf(Lookup(s, first, now)), id);
    }
  }

  /** A list key exists only with elements. */
  ghost predicate NoEmptyLists(s: Space) {
    forall id :: id in s ==> s[id].content != List([])
  }

  lemma DoKeepsListsNonEmpty(op: Op, e: Option<Entry>, now: int)
    requires e.Some? ==> e.value.content != List([])
    ensures Do(op, e, now).0.Some? ==> Do(op, e, now).0.value.content != List([])
  {
  }

  lemma StepKeepsListsNonEmpty(s: Space, now: int, db: nat, cmd: Command)
    requires NoEmptyLists(s)
    ensures NoEmptyLists(Step(s, now, db, cmd).0)
  {
    match cmd {
      case One(key, op) => DoKeepsListsNonEmpty(op, Lookup(s, Id(db, key), now), now);
      case SUnion(keys) => UnionShrinks(s, db, keys, now, {});
      case _ =>
    }
  }

  lemma {:induction false} UnionShrinks(s: Space, db: nat, keys: seq<string>, now: int, acc: set<string>)
    ensures var s' := Union(s, db, keys, now, acc).0;
      forall id :: id in s' ==> id in s && s'[id] == s[id]
    decreases |keys|
  {
    if keys != [] {
      var first := Id(db, keys[0]);
      UnionShrinks(Reap(s, {first}, now), db, keys[1..], now, acc + MembersOf(Lookup(s, first, now)));
    }
  }

  /** The command cannot change what is seen of `id`. */
  predicate Leaves(db: nat, cmd: Command, id: Id) {
    match cmd
    case One(key, _) => Id(db, key) != id
    case Del(keys) => id !in Ids(db, keys)
    case Rename(src, dst) => Id(db, src) != id && Id(db, dst) != id
    case FlushDB => id.db != db
    case FlushAll => false
    case _ => true
  }

  lemma LeavesLookup(s: Space, now: int, db: nat, cmd: Command, id: Id)
    requires Leaves(db, cmd, id)
    ensures Lookup(Step(s, now, db, cmd).0, id, now) == Lookup(s, id, now)
  {
    match cmd {
      case One(_, _) =>
      case Del(_) =>
      case Rename(_, _) =>
      case FlushDB =>
      case _ =>
        StepReaps(s, now, db, cmd);
        SameLookup(s, Step(s, now, db, cmd).0, now, id);
    }
  }

  // ---------------------------------------------------------------- deadlines

  /** Everything but overwriting a string, and setting or clearing the deadline itself. */
  predicate KeepsDeadline(op: Op) {
    match op
    case OnKey(k) => k.TimeToLive? || k.TypeOf?
    case OnString(s) => !s.SetText?
    case _ => true
  }

  /** A pop or removal that takes the last element of a list, and the key with it. */
  predicate Empties(op: Op, e: Entry) {
    op.OnList? && e.content.List? && DoList(op.l, e.content.items).0 == []
  }

  lemma DoKeepsDeadline(op: Op, e: Entry, now: int)
    requires KeepsDeadline(op) && e.content != List([])
    ensures Do(op, Some(e), now).0.None? <==> Empties(op, e)
    ensures !Empties(op, e) ==> Do(op, Some(e), now).0.value.deadline == e.deadline
  {
  }

  /** A sweep, a command that does not reach `id`, or an operation on it that keeps its deadline. */
  ghost predicate Harmless(s: Space, e: Event, id: Id) {
    || e.SweepAt?
    || Leaves(e.db, e.cmd, id)
    || (e.cmd.One? && KeepsDeadline(e.cmd.op) && (id in s ==> !Empties(e.cmd.op, s[id])))
  }

  /** The event is not a panic. */
  ghost predicate Goes(s: Space, e: Event) {
    e.Call? ==> Step(s, e.now, e.db, e.cmd).1 != Crashed
  }

  lemma GoesOn(s: Space, events: seq<Event>)
    requires events != []
    ensures RunAll(s, events).0
         == if Goes(s, events[0]) then RunAll(After(s, events[0]), events[1..]).0 else After(s, events[0])
  {
    hide Step, Sweep;
    AfterFirst(s, events);
  }

  /** The keyspace when event i comes. */
  ghost function Reached(s: Space, events: seq<Event>, i: nat): Space
    requires i <= |events|
  {
    RunAll(s, events[..i]).0
  }

  ghost predicate HarmlessRun(s: Space, events: seq<Event>, id: Id) {
    forall i :: 0 <= i < |events| ==> Harmless(Reached(s, events, i), events[i], id)
  }

  lemma HarmlessTail(s: Space, events: seq<Event>, id: Id)
    requires events != [] && HarmlessRun(s, events, id)
    ensures Harmless(s, events[0], id)
    ensures Goes(s, events[0]) ==> HarmlessRun(After(s, events[0]), events[1..], id)
  {
    hide Harmless, After, RunAll, Goes;
    var s1, rest := After(s, events[0]), events[1..];
    ReachedNone(s, events);
    assert Harmless(Reached(s, events, 0), events[0], id);
    if Goes(s, events[0]) {
      forall i | 0 <= i < |rest| ensures Harmless(Reached(s1, rest, i), rest[i], id) {
        assert events[..i + 1][1..] == rest[..i] && events[..i + 1][0] == events[0];
        GoesOn(s, events[..i + 1]);
        assert Harmless(Reached(s, events, i + 1), events[i + 1], id);
      }
    }
  }

  lemma ReachedNone(s: Space, events: seq<Event>)
    ensures Reached(s, events, 0) == s
  {
  }

  /** While `id` has the deadline `d`, or none: one event before it keeps it so. */
  ghost predicate Due(s: Space, id: Id, d: Option<int>) {
    NoEmptyLists(s) && id in s && s[id].deadline == d
  }

  lemma HarmlessStep(s: Space, e: Event, id: Id, d: Option<int>)
    requires Due(s, id, d) && Harmless(s, e, id) && !Past(d, e.now)
    ensures Due(After(s, e), id, d)
  {
    if e.Call? {
      StepKeepsListsNonEmpty(s, e.now, e.db, e.cmd);
      assert Lookup(s, id, e.now) == Some(s[id]);
      if Leaves(e.db, e.cmd, id) {
        LeavesLookup(s, e.now, e.db, e.cmd, id);
      } else {
        DoKeepsDeadline(e.cmd.op, s[id], e.now);
      }
    }
  }

  /** PTTL, TTL and the presence of a key with deadline `d`, or with none, at time `t`. */
  ghost predicate CountsDown(s: Space, id: Id, d: Option<int>, t: int) {
    var ttl := millis => Step(s, t, id.db, One(id.key, OnKey(TimeToLive(millis)))).1;
    && (d.None? ==> ttl(true) == ttl(false) == Int(-1) && Lookup(s, id, t).Some?)
    && (d.Some? && t < d.value ==> ttl(true) == Int(d.value - t) && ttl(false) == Int((d.value - t) / 1000))
    && (d.Some? && t >= d.value ==> ttl(true) == Int(-2) && Lookup(s, id, t) == None)
  }

  /** Once a deadline is set, or cleared, no run of value-updating commands, commands on other keys and sweeps moves
      it, as long as no pop empties the list: PTTL counts down to it, TTL is PTTL in whole seconds, and from
      the deadline on the key is gone. */
  lemma {:induction false} DeadlineSurvives(s: Space, events: seq<Event>, id: Id, d: Option<int>, t0: int, t: int)
    requires Due(s, id, d) && HarmlessRun(s, events, id) && Monotone(t0, events)
    requires EndTime(t0, events) <= t && (events == [] || !Past(d, EndTime(t0, events)))
    ensures CountsDown(RunAll(s, events).0, id, d, t)
    decreases |events|
  {
    hide HarmlessRun, Harmless, After, Goes;
    if events != [] {
      var e, s1 := events[0], After(s, events[0]);
      EndTimeLater(e.now, events[1..]);
      HarmlessTail(s, events, id);
      HarmlessStep(s, e, id, d);
      GoesOn(s, events);
      if Goes(s, e) {
        DeadlineSurvives(s1, events[1..], id, d, e.now, t);
      } else {
        DueReplies(s1, id, d, t);
      }
    } else {
      DueReplies(s, id, d, t);
    }
  }

  lemma DueReplies(s: Space, id: Id, d: Option<int>, t: int)
    requires Due(s, id, d)
    ensures CountsDown(s, id, d, t)
  {
  }

  // ---------------------------------------------------------------- RENAME

  /** RENAME moves the value and the deadline whole, whatever the type and whatever `dst` held, and
      changes no other key; onto itself it deletes the key. */
  lemma RenameMoves(s: Space, now: int, db: nat, src: string, dst: string, id: Id, t: int)
    requires Lookup(s, Id(db, src), now).Some?
    ensures Step(s, now, db, Rename(src, dst)).1 == Done
    ensures var s' := Step(s, now, db, Rename(src, dst)).0;
      if id == Id(db, src) then id !in s'
      else Lookup(s', id, t) == Lookup(s, if id == Id(db, dst) then Id(db, src) else id, t)
  {
  }

  /** So the renamed key still holds its value under the new name if and only if the names differ. */
  lemma RenameKeepsValue(s: Space, now: int, db: nat, src: string, dst: string)
    requires Lookup(s, Id(db, src), now).Some?
    ensures Lookup(Step(s, now, db, Rename(src, dst)).0, Id(db, dst), now) == Lookup(s, Id(db, src), now)
       <==> src != dst
  {
    RenameMoves(s, now, db, src, dst, Id(db, dst), now);
  }

  // ---------------------------------------------------------------- runs seen from one key

  datatype Timed = At(now: int, op: Op)

  /** The event is an operation on `id`. */
  predicate About(e: Event, id: Id) {
    e.Call? && e.cmd.One? && Id(e.db, e.cmd.key) == id
  }

  /** No command of several keys, and no flush, reaches `id`; sweeps and lookups may. */
  predicate KeepsApart(events: seq<Event>, id: Id) {
    forall e :: e in events ==> e.SweepAt? || Leaves(e.db, e.cmd, id) || About(e, id)
  }

  /** The answered operations of a run on `id`, and the replies to them. */
  function OpsOn(events: seq<Event>, replies: seq<Reply>, id: Id): seq<Timed>
    decreases |events|
  {
    if events == [] || replies == [] then []
    else if events[0].SweepAt? then OpsOn(events[1..], replies, id)
    else
      (if About(events[0], id) then [At(events[0].now, events[0].cmd.op)] else [])
      + OpsOn(events[1..], replies[1..], id)
  }

  function RepliesOn(events: seq<Event>, replies: seq<Reply>, id: Id): seq<Reply>
    decreases |events|
  {
    if events == [] || replies == [] then []
    else if events[0].SweepAt? then RepliesOn(events[1..], replies, id)
    else (if About(events[0], id) then [replies[0]] else []) + RepliesOn(events[1..], replies[1..], id)
  }

  function Seen(e: Option<Entry>, now: int): Option<Entry> {
    if e.Some? && AliveAt(e.value, now) then e else None
  }

  /** The operations in turn on the entry alone, expired as the clock says. */
  function EntryRun(e: Option<Entry>, ops: seq<Timed>): (Option<Entry>, seq<Reply>)
    decreases |ops|
  {
    if ops == [] then (e, [])
    else
      var (e', r) := Do(ops[0].op, Seen(e, ops[0].now), ops[0].now);
      var (e'', rs) := EntryRun(e', ops[1..]);
      (e'', [r] + rs)
  }

  /** From `t0` on, `e` is what is seen of `id`. */
  ghost predicate Tracks(s: Space, id: Id, e: Option<Entry>, t0: int) {
    forall t :: t >= t0 ==> Lookup(s, id, t) == Seen(e, t)
  }

  lemma TracksStep(s: Space, ev: Event, id: Id, e: Option<Entry>, t0: int)
    requires Tracks(s, id, e, t0) && t0 <= ev.now && KeepsApart([ev], id) && !About(ev, id)
    ensures Tracks(After(s, ev), id, e, ev.now)
  {
    assert ev in [ev];
    if ev.Call? {
      LeavesLookup(s, ev.now, ev.db, ev.cmd, id);
    }
    var s' := After(s, ev);
    forall t | t >= ev.now ensures Lookup(s', id, t) == Seen(e, t) {
      assert Lookup(s', id, ev.now) == Lookup(s, id, ev.now);
      assert Lookup(s, id, t) == Seen(e, t);
    }
  }

  lemma TracksOp(s: Space, now: int, id: Id, e: Option<Entry>, t0: int, op: Op)
    requires Tracks(s, id, e, t0) && t0 <= now
    ensures var (e', r), (s', r') := Do(op, Seen(e, now), now), Step(s, now, id.db, One(id.key, op));
      r == r' && Tracks(s', id, e', now)
  {
    hide Do;
    assert Lookup(s, id, now) == Seen(e, now);
    var e' := Do(op, Seen(e, now), now).0;
    forall t ensures Lookup(Put(s, id, e'), id, t) == Seen(e', t) {
      LookupPut(s, id, e', id, t);
    }
  }

  /** What a run shows of one key. */
  ghost predicate Island(s: Space, events: seq<Event>, id: Id, e: Option<Entry>, t0: int) {
    var (s', rs) := RunAll(s, events);
    var (e', own) := EntryRun(e, OpsOn(events, rs, id));
    RepliesOn(events, rs, id) == own && Tracks(s', id, e', EndTime(t0, events))
  }

  /** A key is an island: in any run, whatever happens to other keys and whenever rows are swept, the replies
      to the operations on one key and what is seen of it depend on that key alone. */
  lemma {:induction false} OneKeyRun(s: Space, events: seq<Event>, id: Id, e: Option<Entry>, t0: int)
    requires Tracks(s, id, e, t0) && Monotone(t0, events) && KeepsApart(events, id)
    ensures Island(s, events, id, e, t0)
    decreases |events|
  {
    hide Do, Step, Sweep, Leaves, Tracks, Seen, Island, After;
    if events == [] {
      IslandAtEnd(s, id, e, t0);
    } else {
      var ev, rest := events[0], events[1..];
      assert ev in events && forall x :: x in rest ==> x in events;
      if About(ev, id) {
        TracksOp(s, ev.now, id, e, t0, ev.cmd.op);
        AfterOp(s, ev, id);
        var (e', r) := Do(ev.cmd.op, Seen(e, ev.now), ev.now);
        DoAnswers(ev.cmd.op, Seen(e, ev.now), ev.now);
        OneKeyRun(After(s, ev), rest, id, e', ev.now);
        IslandOp(s, events, id, e, t0);
      } else {
        TracksStep(s, ev, id, e, t0);
        OneKeyRun(After(s, ev), rest, id, e, ev.now);
        IslandOther(s, events, id, e, t0);
      }
    }
  }

  lemma AfterOp(s: Space, ev: Event, id: Id)
    requires About(ev, id)
    ensures After(s, ev) == Step(s, ev.now, id.db, One(id.key, ev.cmd.op)).0
    ensures Step(s, ev.now, ev.db, ev.cmd) == Step(s, ev.now, id.db, One(id.key, ev.cmd.op))
  {
    hide Step;
  }

  lemma IslandAtEnd(s: Space, id: Id, e: Option<Entry>, t0: int)
    requires Tracks(s, id, e, t0)
    ensures Island(s, [], id, e, t0)
  {
    hide Tracks;
  }

  lemma IslandOp(s: Space, events: seq<Event>, id: Id, e: Option<Entry>, t0: int)
    requires events != [] && About(events[0], id)
    requires var ev := events[0];
      var (e', r) := Do(ev.cmd.op, Seen(e, ev.now), ev.now);
      && r != Crashed && Step(s, ev.now, ev.db, ev.cmd).1 == r
      && Island(After(s, ev), events[1..], id, e', ev.now)
    ensures Island(s, events, id, e, t0)
  {
    hide Do, Step, Seen, After, Tracks, RunAll;
    var ev, rest := events[0], events[1..];
    AfterFirst(s, events);
    var r, rs := Step(s, ev.now, ev.db, ev.cmd).1, RunAll(After(s, ev), rest).1;
    assert ([r] + rs)[1..] == rs;
    var ops := OpsOn(events, [r] + rs, id);
    assert ops[0] == At(ev.now, ev.cmd.op) && ops[1..] == OpsOn(rest, rs, id);
  }

  lemma IslandOther(s: Space, events: seq<Event>, id: Id, e: Option<Entry>, t0: int)
    requires events != [] && !About(events[0], id) && Monotone(events[0].now, events[1..])
    requires Tracks(After(s, events[0]), id, e, events[0].now)
    requires Island(After(s, events[0]), events[1..], id, e, events[0].now)
    ensures Island(s, events, id, e, t0)
  {
    hide Do, Step, Seen, After, Tracks, RunAll;
    var ev, rest := events[0], events[1..];
    AfterFirst(s, events);
    if ev.SweepAt? {
      assert OpsOn(events, RunAll(s, events).1, id) == OpsOn(rest, RunAll(s, events).1, id);
    } else {
      var r, rs := Step(s, ev.now, ev.db, ev.cmd).1, RunAll(After(s, ev), rest).1;
      EndTimeLater(ev.now, rest);
      if r == Crashed {
        TracksLater(After(s, ev), id, e, ev.now, EndTime(ev.now, rest));
        OthersSkipped(events, r, [], id);
        assert OpsOn(rest, [], id) == [] && RepliesOn(rest, [], id) == [];
      } else {
        OthersSkipped(events, r, rs, id);
      }
    }
  }

  lemma OthersSkipped(events: seq<Event>, r: Reply, rs: seq<Reply>, id: Id)
    requires events != [] && events[0].Call? && !About(events[0], id)
    ensures OpsOn(events, [r] + rs, id) == OpsOn(events[1..], rs, id)
    ensures RepliesOn(events, [r] + rs, id) == RepliesOn(events[1..], rs, id)
    ensures rs == [] ==> [r] + rs == [r]
  {
    assert ([r] + rs)[1..] == rs;
  }

  lemma TracksLater(s: Space, id: Id, e: Option<Entry>, t0: int, t: int)
    requires Tracks(s, id, e, t0) && t0 <= t
    ensures Tracks(s, id, e, t)
  {
  }

  lemma IslandEnd(s: Space, events: seq<Event>, id: Id, e: Option<Entry>, t0: int)
    requires Island(s, events, id, e, t0)
    ensures var (s', rs) := RunAll(s, events);
      var (e', own) := EntryRun(e, OpsOn(events, rs, id));
      RepliesOn(events, rs, id) == own && Lookup(s', id, EndTime(t0, events)) == Seen(e', EndTime(t0, events))
  {
    hide RunAll, EntryRun, OpsOn, RepliesOn, EndTime, Lookup, Seen;
  }

  lemma LookupTracks(s: Space, id: Id, t0: int)
    ensures Tracks(s, id, Lookup(s, id, t0), t0)
  {
  }

  // ---------------------------------------------------------------- counters

  datatype Counting = Incr | Decr | IncrByN(n: Int64) | DecrByN(n: Int64)

  /** What a counting command adds; DECRBY negates in 64 bits, so the least integer stays as it is. */
  function Delta(c: Counting): Int64 {
    match c
    case Incr => 1
    case Decr => -1
    case IncrByN(n) => n
    case DecrByN(n) => Wrap(0 - n)
  }

  function Signed(c: Counting): int {
    match c
    case Incr => 1
    case Decr => -1
    case IncrByN(n) => n
    case DecrByN(n) => 0 - n
  }

  function Sum(cs: seq<Counting>): int {
    if cs == [] then 0 else Signed(cs[0]) + Sum(cs[1..])
  }

  predicate Counts(ops: seq<Timed>, cs: seq<Counting>) {
    |ops| == |cs| && forall i :: 0 <= i < |ops| ==> ops[i].op == OnString(IncrBy(Delta(cs[i])))
  }

  /** The number a counter key stands for: an absent key counts as 0. */
  function Counter(e: Option<Entry>): Option<Int64> {
    if e.None? then Some(0)
    else if e.value.content.Str? then ParseInt(e.value.content.text)
    else None
  }

  function CounterEntry(n: int, d: Option<int>): Entry {
    Entry(Str(FormatInt(Wrap(n))), d)
  }

  lemma WrapDelta(a: int, c: Counting)
    ensures Wrap(a + Delta(c)) == Wrap(a + Signed(c))
  {
    if c.DecrByN? {
      WrapSum(0 - c.n, a);
    }
  }

  lemma IncrementOnce(e: Option<Entry>, c: Counting, now: int)
    requires Counter(e).Some?
    ensures var n := Counter(e).value + Signed(c);
      && Do(OnString(IncrBy(Delta(c))), e, now) == (Some(CounterEntry(n, DeadlineOf(e))), Int(Wrap(n)))
      && Counter(Some(CounterEntry(n, DeadlineOf(e)))) == Some(Wrap(n))
  {
    hide Wrap, FormatInt, ParseInt;
    var a: int := Counter(e).value;
    WrapDelta(a, c);
    ParseFormat(Wrap(a + Delta(c)));
  }

  /** From the count `start`: the last entry holds start plus all deltas, reply i the sum up to command i. */
  ghost predicate CountsUp(start: int, d: Option<int>, cs: seq<Counting>, e: Option<Entry>, rs: seq<Reply>) {
    && e == Some(CounterEntry(start + Sum(cs), d))
    && |rs| == |cs|
    && forall i :: 0 <= i < |cs| ==> rs[i] == Int(Wrap(start + Sum(cs[..i + 1])))
  }

  lemma CountsNothing(n: int, d: Option<int>)
    ensures CountsUp(Wrap(n), d, [], Some(CounterEntry(n, d)), [])
  {
    hide FormatInt;
  }

  lemma CountsUpCons(start: int, d: Option<int>, cs: seq<Counting>, e: Option<Entry>, rs: seq<Reply>)
    requires cs != [] && CountsUp(Wrap(start + Signed(cs[0])), d, cs[1..], e, rs)
    ensures CountsUp(start, d, cs, e, [Int(Wrap(start + Signed(cs[0])))] + rs)
  {
    hide Wrap, FormatInt, Signed;
    var first, rest := Signed(cs[0]), cs[1..];
    var all := [Int(Wrap(start + first))] + rs;
    WrapSum(start + first, Sum(rest));
    forall i | 0 <= i < |cs| ensures all[i] == Int(Wrap(start + Sum(cs[..i + 1]))) {
      var some := cs[..i + 1];
      assert some[0] == cs[0] && some[1..] == rest[..i];
      if i > 0 {
        assert rs[i - 1] == Int(Wrap(Wrap(start + first) + Sum(rest[..i - 1 + 1])));
        WrapSum(start + first, Sum(rest[..i]));
      }
    }
  }

  /** No operation comes at or after the deadline. */
  predicate InTime(ops: seq<Timed>, d: Option<int>) {
    d.None? || forall i :: 0 <= i < |ops| ==> ops[i].now < d.value
  }

  lemma {:induction false} CountAll(e: Option<Entry>, ops: seq<Timed>, cs: seq<Counting>)
    requires Counter(e).Some? && cs != [] && Counts(ops, cs) && InTime(ops, DeadlineOf(e))
    ensures var (e', rs) := EntryRun(e, ops);
      CountsUp(Counter(e).value, DeadlineOf(e), cs, e', rs)
    decreases |ops|
  {
    hide Do, CountsUp, Wrap, FormatInt, ParseInt, Signed, Delta;
    var start: int := Counter(e).value;
    var rest, d := cs[1..], DeadlineOf(e);
    assert Seen(e, ops[0].now) == e;
    IncrementOnce(e, cs[0], ops[0].now);
    var e1 := Some(CounterEntry(start + Signed(cs[0]), d));
    if rest == [] {
      CountsNothing(start + Signed(cs[0]), d);
      CountsUpCons(start, d, cs, e1, []);
      assert ops[1..] == [];
    } else {
      CountAll(e1, ops[1..], rest);
      var (e', rs) := EntryRun(e1, ops[1..]);
      CountsUpCons(start, d, cs, e', rs);
    }
  }

  // ---------------------------------------------------------------- past the deadline

  predicate Ordered(ops: seq<Timed>) {
    forall i, j :: 0 <= i < j < |ops| ==> ops[i].now <= ops[j].now
  }

  lemma {:induction false} OpsOrdered(events: seq<Event>, replies: seq<Reply>, id: Id, t0: int)
    requires Monotone(t0, events)
    ensures var ops := OpsOn(events, replies, id);
      Ordered(ops) && forall i :: 0 <= i < |ops| ==> t0 <= ops[i].now <= EndTime(t0, events)
    decreases |events|
  {
    EndTimeLater(t0, events);
    if events != [] && replies != [] {
      EndTimeLater(events[0].now, events[1..]);
      OpsOrdered(events[1..], if events[0].SweepAt? then replies else replies[1..], id, events[0].now);
    }
  }

  /** How many of the operations come before the deadline. */
  function Early(ops: seq<Timed>, d: Option<int>): (k: nat)
    ensures k <= |ops|
  {
    if ops == [] || (d.Some? && ops[0].now >= d.value) then 0 else 1 + Early(ops[1..], d)
  }

  lemma {:induction false} EarlySplits(ops: seq<Timed>, d: Option<int>)
    requires Ordered(ops)
    ensures InTime(ops[..Early(ops, d)], d)
    ensures forall i :: Early(ops, d) <= i < |ops| ==> d.Some? && ops[i].now >= d.value
  {
    var k := Early(ops, d);
    if k > 0 {
      EarlySplits(ops[1..], d);
      assert ops[..k] == [ops[0]] + ops[1..][..k - 1];
      assert forall i :: 0 < i < |ops| ==> ops[i] == ops[1..][i - 1];
    } else if ops != [] {
      assert forall i :: 0 < i < |ops| ==> ops[0].now <= ops[i].now;
    }
  }

  lemma {:induction false} EntryRunConcat(e: Option<Entry>, xs: seq<Timed>, ys: seq<Timed>)
    ensures var (e1, r1) := EntryRun(e, xs);
      var (e2, r2) := EntryRun(e1, ys);
      EntryRun(e, xs + ys) == (e2, r1 + r2)
    decreases |xs|
  {
    hide Do, Seen;
    if xs == [] {
      assert xs + ys == ys && [] + EntryRun(e, ys).1 == EntryRun(e, ys).1;
    } else {
      assert (xs + ys)[0] == xs[0] && (xs + ys)[1..] == xs[1..] + ys;
      var (e1, r) := Do(xs[0].op, Seen(e, xs[0].now), xs[0].now);
      EntryRunConcat(e1, xs[1..], ys);
      var (e2, r1) := EntryRun(e1, xs[1..]);
      Assoc([r], r1, EntryRun(e2, ys).1);
    }
  }

  /** The run split at the deadline `d`, with the entry that is left at the split, and what is seen of it. */
  lemma SplitRun(e: Option<Entry>, ops: seq<Timed>, d: Option<int>) returns (k: nat, e1: Option<Entry>)
    requires Ordered(ops)
    ensures k == Early(ops, d) <= |ops| && InTime(ops[..k], d)
    ensures k < |ops| ==> d.Some? && ops[k].now >= d.value && InTime(ops[k..], None)
    ensures var (e', r1) := EntryRun(e, ops[..k]);
      && e1 == (if k < |ops| then Seen(e', ops[k].now) else e')
      && EntryRun(e, ops) == (EntryRun(e1, ops[k..]).0, r1 + EntryRun(e1, ops[k..]).1)
  {
    k := Early(ops, d);
    EarlySplits(ops, d);
    hide Do, Early, Ordered;
    var e' := EntryRun(e, ops[..k]).0;
    EntryRunConcat(e, ops[..k], ops[k..]);
    assert ops == ops[..k] + ops[k..];
    e1 := if k < |ops| then Seen(e', ops[k].now) else e';
    if k < |ops| {
      assert ops[k..][0] == ops[k];
      assert Seen(Seen(e', ops[k].now), ops[k].now) == Seen(e', ops[k].now);
    }
  }

  /** Any series of INCR, DECR, INCRBY and DECRBY on an absent or parseable key, in any run. Up to the deadline
      of the key, each reply is the start plus the signed deltas so far, modulo 2^64, and the deadline is
      kept; from the deadline on, the count starts anew at 0 and has none. What is left is the decimal of the
      count. Of the operations, `k` come before the deadline. */
  lemma CounterRun(s: Space, events: seq<Event>, id: Id, t0: int, cs: seq<Counting>) returns (k: nat)
    requires Monotone(t0, events) && KeepsApart(events, id)
    requires Counts(OpsOn(events, RunAll(s, events).1, id), cs) && cs != []
    requires Counter(Lookup(s, id, t0)).Some?
    ensures var e, (s', rs) := Lookup(s, id, t0), RunAll(s, events);
      var ops, own := OpsOn(events, rs, id), RepliesOn(events, rs, id);
      var end, start, d := EndTime(t0, events), Counter(e).value, DeadlineOf(e);
      && k == Early(ops, d) <= |cs| == |own|
      && Replied(start, cs[..k], own[..k]) && Replied(0, cs[k..], own[k..])
      && Lookup(s', id, end)
         == Seen(Some(if k == |cs| then CounterEntry(start + Sum(cs), d) else CounterEntry(Sum(cs[k..]), None)), end)
  {
    hide EntryRun, RunAll, Counter, FormatInt, Wrap, Sum, OpsOn, RepliesOn, EndTime, Monotone, KeepsApart, Island,
      CounterEntry, Seen, Replied, Early, Ordered;
    var e, rs := Lookup(s, id, t0), RunAll(s, events).1;
    LookupTracks(s, id, t0);
    OneKeyRun(s, events, id, e, t0);
    IslandEnd(s, events, id, e, t0);
    OpsOrdered(events, rs, id, t0);
    k := CountThrough(e, OpsOn(events, rs, id), cs);
  }

  /** Reply i is the count after command i. */
  ghost predicate Replied(start: int, cs: seq<Counting>, rs: seq<Reply>) {
    && |rs| == |cs|
    && forall i :: 0 <= i < |cs| ==> rs[i] == Int(Wrap(start + Sum(cs[..i + 1])))
  }

  lemma CountThrough(e: Option<Entry>, ops: seq<Timed>, cs: seq<Counting>) returns (k: nat)
    requires Counter(e).Some? && cs != [] && Counts(ops, cs) && Ordered(ops)
    ensures var (e', rs) := EntryRun(e, ops);
      var start, d := Counter(e).value, DeadlineOf(e);
      && k == Early(ops, d) <= |cs| == |rs|
      && Replied(start, cs[..k], rs[..k]) && Replied(0, cs[k..], rs[k..])
      && e' == Some(if k == |cs| then CounterEntry(start + Sum(cs), d) else CounterEntry(Sum(cs[k..]), None))
  {
    hide Counter, FormatInt, Wrap, Sum, Early, Ordered, Do, EntryRun, CounterEntry, Delta, CountsUp, Seen;
    var d := DeadlineOf(e);
    var e1: Option<Entry>;
    k, e1 := SplitRun(e, ops, d);
    var (e0, r1) := EntryRun(e, ops[..k]);
    assert cs[..|cs|] == cs && ops[..|ops|] == ops;
    if k > 0 {
      CountAll(e, ops[..k], cs[..k]);
      CountsReplied(Counter(e).value, d, cs[..k], e0, r1);
    } else {
      RunOfNone(e);
      NoneReplied(Counter(e).value);
      assert ops[..0] == [] && cs[..0] == [];
    }
    if k < |ops| {
      SeenLate(e0, d, ops[k].now, k == 0, e);
      assert Counts(ops[k..], cs[k..]);
      CountAll(e1, ops[k..], cs[k..]);
      var (e', r2) := EntryRun(e1, ops[k..]);
      CountsReplied(0, None, cs[k..], e', r2);
      assert (r1 + r2)[..k] == r1 && (r1 + r2)[k..] == r2;
    } else {
      RunOfNone(e1);
      NoneReplied(0);
      assert ops[k..] == [] && cs[k..] == [];
      assert (r1 + [])[..k] == r1 && (r1 + [])[k..] == [];
    }
  }

  lemma RunOfNone(e: Option<Entry>)
    ensures EntryRun(e, []) == (e, [])
  {
  }

  lemma NoneReplied(start: int)
    ensures Replied(start, [], [])
  {
  }

  lemma CountsReplied(start: int, d: Option<int>, cs: seq<Counting>, e: Option<Entry>, rs: seq<Reply>)
    requires CountsUp(start, d, cs, e, rs)
    ensures Replied(start, cs, rs) && e == Some(CounterEntry(start + Sum(cs), d)) && e.value.deadline == d
  {
  }

  /** At the deadline nothing is seen of the entry, whether it was counted on or not. */
  lemma SeenLate(e0: Option<Entry>, d: Option<int>, now: int, none: bool, e: Option<Entry>)
    requires d.Some? && now >= d.value && DeadlineOf(e) == d
    requires if none then e0 == e else e0.Some? && e0.value.deadline == d
    ensures Seen(e0, now) == None && Counter(None) == Some(0)
  {
  }

  /** An increment of anything else is refused and changes nothing. */
  lemma CounterRefused(s: Space, now: int, id: Id, delta: Int64)
    requires Counter(Lookup(s, id, now)).None?
    ensures var (s', r) := Step(s, now, id.db, One(id.key, OnString(IncrBy(delta))));
      (r == NotInteger || r == WrongType) && s' == s
  {
    var s' := Step(s, now, id.db, One(id.key, OnString(IncrBy(delta)))).0;
    assert s' == Put(s, id, Some(s[id])) == s;
  }

  // ---------------------------------------------------------------- lists

  /** A list, or the absence that stands for the empty one. */
  predicate IsList(e: Option<Entry>) {
    e.None? || (e.value.content.List? && e.value.content.items != [])
  }

  predicate AllList(ops: seq<Timed>) {
    forall i :: 0 <= i < |ops| ==> ops[i].op.OnList?
  }

  predicate Past(d: Option<int>, now: int) {
    d.Some? && d.value <= now
  }

  /** A plain sequence with a deadline, which goes when it becomes empty: what is left of the sequence and the
      deadline after the operations in turn, and the replies. */
  function ListFold(items: seq<string>, d: Option<int>, ops: seq<Timed>): (seq<string>, Option<int>, seq<Reply>)
    requires AllList(ops)
    decreases |ops|
  {
    if ops == [] then (items, d, [])
    else
      var (had, d0) := if Past(d, ops[0].now) then ([], None) else (items, d);
      var (items', r) := DoList(ops[0].op.l, had);
      var (left, d', rs) := ListFold(items', if items' == [] then None else d0, ops[1..]);
      (left, d', [r] + rs)
  }

  lemma ListOnce(e: Option<Entry>, l: ListOp, now: int)
    requires IsList(e)
    ensures var (e', r) := Do(OnList(l), e, now);
      && IsList(e') && (ItemsOf(e'), r) == DoList(l, ItemsOf(e))
      && DeadlineOf(e') == if ItemsOf(e') == [] then None else DeadlineOf(e)
  {
    hide DoList;
    var (c, r) := DoList(l, ItemsOf(e));
    assert Do(OnList(l), e, now) == (Store(e, true, List(c)), r);
  }

  lemma SeenList(e: Option<Entry>, now: int)
    requires IsList(e)
    ensures var (e', past) := (Seen(e, now), Past(DeadlineOf(e), now));
      && IsList(e') && ItemsOf(e') == (if past then [] else ItemsOf(e))
      && DeadlineOf(e') == if past then None else DeadlineOf(e)
  {
  }

  lemma {:induction false} ListAll(e: Option<Entry>, ops: seq<Timed>)
    requires IsList(e) && AllList(ops)
    ensures var (e', rs) := EntryRun(e, ops);
      IsList(e') && (ItemsOf(e'), DeadlineOf(e'), rs) == ListFold(ItemsOf(e), DeadlineOf(e), ops)
    decreases |ops|
  {
    hide Do, DoList, DeadlineOf, ItemsOf, IsList, Seen, Past;
    if ops != [] {
      var e0 := Seen(e, ops[0].now);
      SeenList(e, ops[0].now);
      ListOnce(e0, ops[0].op.l, ops[0].now);
      ListAll(Do(ops[0].op, e0, ops[0].now).0, ops[1..]);
    }
  }

  /** In any run, whatever goes on beside it, a list key is a plain sequence with a deadline: the replies to the
      list commands on it and the elements left are those of the sequence operations in turn, and the key
      exists exactly while the sequence is not empty. */
  lemma ListRun(s: Space, events: seq<Event>, id: Id, t0: int)
    requires Monotone(t0, events) && KeepsApart(events, id)
    requires AllList(OpsOn(events, RunAll(s, events).1, id)) && IsList(Lookup(s, id, t0))
    ensures var (s', rs) := RunAll(s, events);
      var before, after := Lookup(s, id, t0), Lookup(s', id, EndTime(t0, events));
      var (left, d, own) := ListFold(ItemsOf(before), DeadlineOf(before), OpsOn(events, rs, id));
      && IsList(after) && (after.Some? <==> ItemsOf(after) != [])
      && RepliesOn(events, rs, id) == own
      && ItemsOf(after) == (if Past(d, EndTime(t0, events)) then [] else left)
  {
    hide EntryRun, RunAll, OpsOn, RepliesOn, EndTime, Monotone, KeepsApart, AllList, ListFold, Lookup, Island, Seen;
    var e, rs := Lookup(s, id, t0), RunAll(s, events).1;
    LookupTracks(s, id, t0);
    OneKeyRun(s, events, id, e, t0);
    IslandEnd(s, events, id, e, t0);
    ListAll(e, OpsOn(events, rs, id));
    SeenList(EntryRun(e, OpsOn(events, rs, id)).0, EndTime(t0, events));
  }

  // ---------------------------------------------------------------- queues

  predicate Queues(ops: seq<Timed>) {
    forall i :: 0 <= i < |ops| ==> ops[i].op.OnList? && (ops[i].op.l.LPop? || ops[i].op.l.RPush?)
  }

  /** Everything pushed in a run, and everything popped, in order. */
  function Pushed(ops: seq<Timed>): seq<string>
    requires Queues(ops)
  {
    if ops == [] then []
    else (if ops[0].op.l.RPush? then ops[0].op.l.values else []) + Pushed(ops[1..])
  }

  function Popped(ops: seq<Timed>, rs: seq<Reply>): seq<string>
    requires Queues(ops) && |rs| == |ops|
  {
    if ops == [] then []
    else (if ops[0].op.l.LPop? && rs[0].Text? then [rs[0].text] else []) + Popped(ops[1..], rs[1..])
  }

  /** First in, first out: what was popped, followed by what is left, is what was there followed by what
      was pushed. */
  lemma {:induction false} QueueFold(items: seq<string>, d: Option<int>, ops: seq<Timed>)
    requires Queues(ops) && InTime(ops, d)
    ensures var (left, d', rs) := ListFold(items, d, ops);
      && |rs| == |ops| && (d' == d || d' == None)
      && Popped(ops, rs) + left == items + Pushed(ops)
    decreases |ops|
  {
    if ops == [] {
      assert Popped(ops, []) == [] && Pushed(ops) == [];
    } else {
      hide DoList;
      var l := ops[0].op.l;
      var (items', r) := DoList(l, items);
      var d1 := if items' == [] then None else d;
      QueueFold(items', d1, ops[1..]);
      var (left, d', rs) := ListFold(items', d1, ops[1..]);
      assert ([r] + rs)[1..] == rs;
      var popped, pushed := if l.LPop? && r.Text? then [r.text] else [], if l.RPush? then l.values else [];
      QueueOnce(l, items);
      Regrouped(popped, Popped(ops[1..], rs), left, items', Pushed(ops[1..]), items, pushed);
    }
  }

  lemma QueueOnce(l: ListOp, items: seq<string>)
    requires l.LPop? || l.RPush?
    ensures var (items', r) := DoList(l, items);
      (if l.LPop? && r.Text? then [r.text] else []) + items' == items + if l.RPush? then l.values else []
  {
    if l.LPop? && items != [] {
      assert [items[0]] + items[1..] == items;
    }
  }

  lemma Regrouped(p: seq<string>, q: seq<string>, left: seq<string>, mid: seq<string>, u: seq<string>,
                  had: seq<string>, v: seq<string>)
    requires q + left == mid + u && p + mid == had + v
    ensures (p + q) + left == had + (v + u)
  {
    assert (p + q) + left == p + (q + left) == (p + mid) + u == had + (v + u);
  }

  /** One stretch of a queue: `left` are the elements it leaves. */
  ghost predicate Fifo(had: seq<string>, ops: seq<Timed>, rs: seq<Reply>, left: seq<string>)
    requires Queues(ops)
  {
    |rs| == |ops| && Popped(ops, rs) + left == had + Pushed(ops)
  }

  lemma QueueStretch(e: Option<Entry>, ops: seq<Timed>)
    requires IsList(e) && Queues(ops) && InTime(ops, DeadlineOf(e))
    ensures var (e', rs) := EntryRun(e, ops);
      && IsList(e') && (DeadlineOf(e') == DeadlineOf(e) || DeadlineOf(e') == None)
      && Fifo(ItemsOf(e), ops, rs, ItemsOf(e'))
  {
    hide EntryRun, ListFold, Popped, Pushed;
    ListAll(e, ops);
    QueueFold(ItemsOf(e), DeadlineOf(e), ops);
  }

  /** RPUSH and LPOP make a first-in first-out queue in every run, whatever else goes on beside it. Of the
      operations, `k` come before the deadline of the key; there the queue may be lost, and goes on with what
      `had` then holds: all that was in it, or nothing. */
  lemma QueueRun(s: Space, events: seq<Event>, id: Id, t0: int) returns (k: nat, left: seq<string>, had: seq<string>)
    requires Monotone(t0, events) && KeepsApart(events, id)
    requires Queues(OpsOn(events, RunAll(s, events).1, id)) && IsList(Lookup(s, id, t0))
    ensures var (s', rs) := RunAll(s, events);
      var ops, own, end := OpsOn(events, rs, id), RepliesOn(events, rs, id), EndTime(t0, events);
      var before, after := Lookup(s, id, t0), Lookup(s', id, end);
      && k == Early(ops, DeadlineOf(before)) <= |ops| == |own|
      && Fifo(ItemsOf(before), ops[..k], own[..k], left) && (had == left || (had == [] && k < |ops|))
      && IsList(after) && (DeadlineOf(before).None? ==> had == left)
      && (Fifo(had, ops[k..], own[k..], ItemsOf(after)) || (Past(DeadlineOf(before), end) && after == None))
  {
    hide EntryRun, RunAll, OpsOn, RepliesOn, EndTime, Monotone, KeepsApart, Popped, Pushed, ListFold, Lookup, Fifo,
      Seen, Early, Ordered, Island, IsList, ItemsOf;
    var e, rs := Lookup(s, id, t0), RunAll(s, events).1;
    var ops, end := OpsOn(events, rs, id), EndTime(t0, events);
    LookupTracks(s, id, t0);
    OneKeyRun(s, events, id, e, t0);
    IslandEnd(s, events, id, e, t0);
    OpsOrdered(events, rs, id, t0);
    k, left, had := QueueThrough(e, ops, end);
  }

  lemma QueueThrough(e: Option<Entry>, ops: seq<Timed>, end: int)
    returns (k: nat, left: seq<string>, had: seq<string>)
    requires IsList(e) && Queues(ops) && Ordered(ops)
    ensures var (e', own) := EntryRun(e, ops);
      && k == Early(ops, DeadlineOf(e)) <= |ops| == |own|
      && Fifo(ItemsOf(e), ops[..k], own[..k], left) && (had == left || (had == [] && k < |ops|))
      && IsList(Seen(e', end)) && (DeadlineOf(e).None? ==> had == left)
      && (Fifo(had, ops[k..], own[k..], ItemsOf(Seen(e', end))) || (Past(DeadlineOf(e), end) && Seen(e', end) == None))
  {
    hide EntryRun, Popped, Pushed, ListFold, Fifo, Seen, Early, Ordered, Do;
    var e1: Option<Entry>;
    k, e1 := SplitRun(e, ops, DeadlineOf(e));
    QueueStretch(e, ops[..k]);
    var (e0, r1) := EntryRun(e, ops[..k]);
    if k < |ops| {
      SeenList(e0, ops[k].now);
      DeadOrFree(e0, DeadlineOf(e), ops[k].now);
    }
    left, had := ItemsOf(e0), ItemsOf(e1);
    QueueStretch(e1, ops[k..]);
    var (e', r2) := EntryRun(e1, ops[k..]);
    FifoLengths(ItemsOf(e), ops[..k], r1, left);
    assert (r1 + r2)[..k] == r1 && (r1 + r2)[k..] == r2;
    SeenList(e', end);
    SeenOrPast(e', DeadlineOf(e), end);
    FifoLengths(had, ops[k..], r2, ItemsOf(e'));
  }

  lemma FifoLengths(had: seq<string>, ops: seq<Timed>, rs: seq<Reply>, left: seq<string>)
    requires Queues(ops) && Fifo(had, ops, rs, left)
    ensures |rs| == |ops|
  {
  }

  /** After the deadline of its beginnings, an entry is dead or has none. */
  lemma DeadOrFree(e: Option<Entry>, d: Option<int>, now: int)
    requires (DeadlineOf(e) == d || DeadlineOf(e) == None) && Past(d, now)
    ensures DeadlineOf(Seen(e, now)) == None && (Seen(e, now) == e || Seen(e, now) == None)
  {
  }

  lemma SeenOrPast(e: Option<Entry>, d: Option<int>, now: int)
    requires DeadlineOf(e) == d || DeadlineOf(e) == None
    ensures Seen(e, now) == e || (Past(d, now) && Seen(e, now) == None)
  {
  }
}
