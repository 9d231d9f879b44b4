/** One connection of the server as a step function: the password gate, pub/sub, and everything else. */
module Server {
  import opened Sequences
  import opened Resp
  import opened Session
  import opened Channels
  import opened Decimal

  /** `me` is the identity of this connection as a subscriber. */
  datatype Config<!W> = Config(env: Env<W>, password: string, me: Sub)

  /** A value written to the connection of a subscriber. */
  datatype Sent = Sent(to: Sub, value: Value)

  /** What one connection can reach: its session, the broker, and all it has caused to be written. */
  datatype Link<W> = Link(conn: Conn<W>, authed: bool, subs: Subs, open: bool, log: seq<Sent>)

  const NOAUTH := Error("NOAUTH Authentication required.")
  const WRONGPASS := Error("WRONGPASS invalid username-password pair or user is disabled.")

  /** toArgs: the elements of an array, or the value alone. */
  function ToArgs(v: Value): seq<Value> {
    match v
    case Array(elems) => elems
    case NullArray => []
    case _ => [v]
  }

  function NameOf<W>(cfg: Config<W>, args: seq<Value>): string {
    cfg.env.upper(Arg(args, 0))
  }

  /** handleAuth. */
  function Auth<W>(cfg: Config<W>, authed: bool, args: seq<Value>): (bool, Value) {
    if |args| < 2 then (authed, BadArity("auth"))
    else if cfg.password == "" || args[1].Str() == cfg.password then (true, OK)
    else (authed, WRONGPASS)
  }

  function Reported(n: nat): Value { Integer(Wrap(n)) }

  function Note(kind: string, ch: string, n: nat): Value {
    Array([Bulk(kind), Bulk(ch), Reported(n)])
  }

  /** SUBSCRIBE and UNSUBSCRIBE, channel by channel: the subscriptions after, and the notes written. */
  ghost function JoinAll(b: Subs, me: Sub, chs: seq<Value>): (Subs, seq<Sent>)
    decreases |chs|
  {
    if chs == [] then (b, [])
    else
      var ch := chs[0].Str();
      var b1 := Subscribed(b, ch, me);
      var (b2, log) := JoinAll(b1, me, chs[1..]);
      (b2, [Sent(me, Note("subscribe", ch, Total(b1, b1.Keys, me)))] + log)
  }

  ghost function LeaveEach(b: Subs, me: Sub, chs: seq<Value>): (Subs, seq<Sent>)
    decreases |chs|
  {
    if chs == [] then (b, [])
    else
      var ch := chs[0].Str();
      var b1 := Unsubscribed(b, ch, me);
      var (b2, log) := LeaveEach(b1, me, chs[1..]);
      var n := if ch == "" then 0 else Total(b1, b1.Keys, me);
      (b2, [Sent(me, Note("unsubscribe", ch, n))] + log)
  }

  function Message(ch: string, message: string): Value {
    Array([Bulk("message"), Bulk(ch), Bulk(message)])
  }

  function Messages(to: seq<Sub>, ch: string, message: string): (r: seq<Sent>)
    ensures |r| == |to|
  {
    seq(|to|, i requires 0 <= i < |to| => Sent(to[i], Message(ch, message)))
  }

  function Reply<W>(cfg: Config<W>, l: Link<W>, v: Value): Link<W> {
    l.(log := l.log + [Sent(cfg.me, v)])
  }

  function Closed<W>(cfg: Config<W>, l: Link<W>): Link<W> {
    l.(subs := Unsubscribed(l.subs, "", cfg.me), open := false)
  }

  ghost function Publish<W>(cfg: Config<W>, l: Link<W>, args: seq<Value>): Link<W> {
    if |args| < 3 then Reply(cfg, l, BadArity("publish"))
    else
      var to := Of(l.subs, args[1].Str());
      l.(log := l.log + Messages(to, args[1].Str(), args[2].Str()) + [Sent(cfg.me, Reported(|to|))])
  }

  ghost function Unsubscribe<W>(cfg: Config<W>, l: Link<W>, args: seq<Value>): Link<W>
    requires args != []
  {
    if |args| == 1 then
      Reply(cfg, l.(subs := Unsubscribed(l.subs, "", cfg.me)), Array([Bulk("unsubscribe"), NullBulk, Integer(0)]))
    else
      var (b, log) := LeaveEach(l.subs, cfg.me, args[1..]);
      l.(subs := b, log := l.log + log)
  }

  ghost function Subscribe<W>(cfg: Config<W>, l: Link<W>, args: seq<Value>): Link<W>
    requires args != []
  {
    var (b, log) := JoinAll(l.subs, cfg.me, args[1..]);
    l.(subs := b, log := l.log + log)
  }

  /** Everything that is not the server's own business goes to the session; QUIT then hangs up. */
  function Command<W>(cfg: Config<W>, l: Link<W>, args: seq<Value>): Link<W> {
    var (conn, v) := Step(cfg.env, l.conn, args);
    var l1 := Reply(cfg, l.(conn := conn), v);
    if NameOf(cfg, args) == "QUIT" then Closed(cfg, l1) else l1
  }

  /** One turn of the loop of handleConn. */
  ghost function Handle<W>(cfg: Config<W>, l: Link<W>, v: Value): Link<W> {
    var args := ToArgs(v);
    if args == [] then l
    else
      var name := NameOf(cfg, args);
      if !l.authed && name != "AUTH" && name != "QUIT" then Reply(cfg, l, NOAUTH)
      else if name == "AUTH" then
        var (authed, reply) := Auth(cfg, l.authed, args);
        Reply(cfg, l.(authed := authed), reply)
      else if name == "SUBSCRIBE" then Subscribe(cfg, l, args)
      else if name == "UNSUBSCRIBE" then Unsubscribe(cfg, l, args)
      else if name == "PUBLISH" then Publish(cfg, l, args)
      else Command(cfg, l, args)
  }

  /** The values handled until QUIT; then nothing more is read. */
  ghost function HandleAll<W>(cfg: Config<W>, l: Link<W>, vs: seq<Value>): Link<W>
    decreases |vs|
  {
    if vs == [] || !l.open then l else HandleAll(cfg, Handle(cfg, l, vs[0]), vs[1..])
  }

  /** A whole connection: it ends with QUIT or when nothing more can be read. */
  ghost function Converse<W>(cfg: Config<W>, l: Link<W>, vs: seq<Value>): Link<W> {
    var l' := HandleAll(cfg, l, vs);
    if l'.open then Closed(cfg, l') else l'
  }

  /** The same from the bytes of the client. A panic of the reader is the end of the program: the link is
      left as it was, and the flag is set. */
  ghost function Listen<W>(cfg: Config<W>, l: Link<W>, bytes: string, lim: Limits): (Link<W>, bool) {
    var (vs, end) := DecodeStream(bytes, lim);
    var l' := HandleAll(cfg, l, vs);
    if l'.open && end == Panic then (l', true) else (Converse(cfg, l, vs), false)
  }

  lemma ListenEnds<W>(cfg: Config<W>, l: Link<W>, bytes: string, lim: Limits)
    requires l.open && Decode(bytes, lim).Fail?
    ensures Listen(cfg, l, bytes, lim)
         == if Decode(bytes, lim).err == Panic then (l, true) else (Closed(cfg, l), false)
  {
  }

  lemma ListenNext<W>(cfg: Config<W>, l: Link<W>, bytes: string, lim: Limits)
    requires l.open && Decode(bytes, lim).Done?
    ensures var l1 := Handle(cfg, l, Decode(bytes, lim).value);
      Listen(cfg, l, bytes, lim) == if l1.open then Listen(cfg, l1, Decode(bytes, lim).rest, lim) else (l1, false)
  {
    hide Handle, Decode;
    var v, rest := Decode(bytes, lim).value, Decode(bytes, lim).rest;
    StreamCons(bytes, v, rest, lim);
    var vs, l1 := DecodeStream(rest, lim).0, Handle(cfg, l, v);
    assert ([v] + vs)[0] == v && ([v] + vs)[1..] == vs;
    assert HandleAll(cfg, l, [v] + vs) == HandleAll(cfg, l1, vs);
    assert !l1.open ==> HandleAll(cfg, l1, vs) == l1;
  }

  /** A new connection. */
  function Fresh<W>(cfg: Config<W>, w: W, subs: Subs): Link<W> {
    Link(Conn(w, 0, false, []), cfg.password == "", subs, true, [])
  }

  lemma {:induction false} HandleAllConcat<W>(cfg: Config<W>, l: Link<W>, xs: seq<Value>, ys: seq<Value>)
    ensures HandleAll(cfg, l, xs + ys) == HandleAll(cfg, HandleAll(cfg, l, xs), ys)
    decreases |xs|
  {
    hide Handle;
    if xs == [] {
      assert xs + ys == ys;
    } else if l.open {
      assert (xs + ys)[0] == xs[0] && (xs + ys)[1..] == xs[1..] + ys;
      HandleAllConcat(cfg, Handle(cfg, l, xs[0]), xs[1..], ys);
    }
  }

  // ---------------------------------------------------------------- the password gate

  /** A successful AUTH. */
  predicate GoodAuth<W>(cfg: Config<W>, v: Value) {
    var args := ToArgs(v);
    |args| >= 2 && NameOf(cfg, args) == "AUTH" && args[1].Str() == cfg.password
  }

  predicate IsQuit<W>(cfg: Config<W>, v: Value) {
    ToArgs(v) != [] && NameOf(cfg, ToArgs(v)) == "QUIT"
  }

  ghost predicate Absent(b: Subs, me: Sub) {
    NoEmptyChannel(b) && forall ch :: Mult(b, ch, me) == 0
  }

  /** A connection before authentication, with a password to give. */
  ghost predicate Locked<W>(cfg: Config<W>, l: Link<W>) {
    && cfg.password != "" && !l.authed
    && !l.conn.inMulti && l.conn.queue == []
    && Absent(l.subs, cfg.me)
  }

  /** What a locked connection can be told. */
  predicate Refusal<W>(cfg: Config<W>, s: Sent) {
    && s.to == cfg.me
    && s.value in {NOAUTH, WRONGPASS, BadArity("auth"), OK, BadArity(cfg.env.lower("QUIT"))}
  }

  predicate OnlyRefusals<W>(cfg: Config<W>, log: seq<Sent>) {
    forall i :: 0 <= i < |log| ==> Refusal(cfg, log[i])
  }

  /** Nothing but the open flag has changed, and only refusals were written, to this client alone. */
  ghost predicate Untouched<W>(cfg: Config<W>, l: Link<W>, l': Link<W>) {
    && l'.conn == l.conn && l'.subs == l.subs && !l'.authed
    && |l.log| <= |l'.log| && l'.log[..|l.log|] == l.log && OnlyRefusals(cfg, l'.log[|l.log|..])
  }

  lemma RepliedOne<W>(cfg: Config<W>, l: Link<W>, s: Sent, l': Link<W>)
    requires l' == l.(log := l.log + [s], open := l'.open) && !l.authed && Refusal(cfg, s)
    ensures Untouched(cfg, l, l')
  {
    hide Refusal;
    assert l'.log[..|l.log|] == l.log && l'.log[|l.log|..] == [s];
  }

  lemma QuitLocked<W(!new)>(cfg: Config<W>, l: Link<W>, args: seq<Value>)
    requires ValidEnv(cfg.env) && Locked(cfg, l) && args != [] && NameOf(cfg, args) == "QUIT"
    ensures Untouched(cfg, l, Command(cfg, l, args)) && !Command(cfg, l, args).open
  {
    hide Untouched, Refusal, AsciiNames;
    var (conn, v) := Step(cfg.env, l.conn, args);
    assert conn == l.conn && (v == OK || v == BadArity(cfg.env.lower("QUIT")));
    UnsubscribeAbsent(l.subs, cfg.me);
    IsRefusal(cfg, v);
    RepliedOne(cfg, l, Sent(cfg.me, v), Command(cfg, l, args));
  }

  lemma IsRefusal<W>(cfg: Config<W>, v: Value)
    requires v == NOAUTH || v == WRONGPASS || v == BadArity("auth") || v == OK || v == BadArity(cfg.env.lower("QUIT"))
    ensures Refusal(cfg, Sent(cfg.me, v))
  {
  }

  lemma HandleLocked<W(!new)>(cfg: Config<W>, l: Link<W>, v: Value)
    requires ValidEnv(cfg.env) && Locked(cfg, l) && !GoodAuth(cfg, v)
    ensures Untouched(cfg, l, Handle(cfg, l, v))
    ensures Handle(cfg, l, v).open <==> l.open && !IsQuit(cfg, v)
  {
    hide Untouched, Refusal, ValidEnv, Command, Absent;
    var args := ToArgs(v);
    if args == [] {
      NothingSaid(cfg, l);
    } else {
      var name := NameOf(cfg, args);
      if name == "QUIT" {
        QuitLocked(cfg, l, args);
      } else {
        var reply := if name == "AUTH" then Auth(cfg, false, args).1 else NOAUTH;
        IsRefusal(cfg, reply);
        RepliedOne(cfg, l, Sent(cfg.me, reply), Handle(cfg, l, v));
      }
    }
  }

  lemma NothingSaid<W>(cfg: Config<W>, l: Link<W>)
    requires !l.authed
    ensures Untouched(cfg, l, l)
  {
    assert l.log[|l.log|..] == [];
  }

  lemma UntouchedTransitive<W>(cfg: Config<W>, a: Link<W>, b: Link<W>, c: Link<W>)
    requires Untouched(cfg, a, b) && Untouched(cfg, b, c)
    ensures Untouched(cfg, a, c)
  {
    hide Refusal;
    assert c.log[..|a.log|] == c.log[..|b.log|][..|a.log|];
    assert c.log[|a.log|..] == b.log[|a.log|..] + c.log[|b.log|..];
  }

  /** With a password set, no run of values without a successful AUTH changes the store, the session or the
      broker, or reaches another client; the connection stays unauthenticated. */
  lemma {:induction false} GateHolds<W(!new)>(cfg: Config<W>, l: Link<W>, vs: seq<Value>)
    requires ValidEnv(cfg.env) && Locked(cfg, l)
    requires forall i :: 0 <= i < |vs| ==> !GoodAuth(cfg, vs[i])
    ensures Untouched(cfg, l, HandleAll(cfg, l, vs))
    ensures HandleAll(cfg, l, vs).open <==> l.open && forall i :: 0 <= i < |vs| ==> !IsQuit(cfg, vs[i])
    decreases |vs|
  {
    hide Handle, Refusal, ValidEnv, GoodAuth, IsQuit, OnlyRefusals, Absent;
    if vs == [] || !l.open {
      NothingSaid(cfg, l);
    } else {
      var l1, rest := Handle(cfg, l, vs[0]), vs[1..];
      HandleLocked(cfg, l, vs[0]);
      GateHolds(cfg, l1, rest);
      UntouchedTransitive(cfg, l, l1, HandleAll(cfg, l1, rest));
      assert forall i :: 0 < i < |vs| ==> vs[i] == rest[i - 1];
    }
  }

  /** The same up to the end of the connection: the clean-up finds nothing to remove. */
  lemma GateHoldsToTheEnd<W(!new)>(cfg: Config<W>, l: Link<W>, vs: seq<Value>)
    requires ValidEnv(cfg.env) && Locked(cfg, l)
    requires forall i :: 0 <= i < |vs| ==> !GoodAuth(cfg, vs[i])
    ensures Untouched(cfg, l, Converse(cfg, l, vs))
  {
    hide HandleAll, GoodAuth, ValidEnv, OnlyRefusals;
    GateHolds(cfg, l, vs);
    UnsubscribeAbsent(l.subs, cfg.me);
  }

  /** Nothing takes an authentication back. */
  lemma HandleKeepsAuth<W>(cfg: Config<W>, l: Link<W>, v: Value)
    requires l.authed
    ensures Handle(cfg, l, v).authed
  {
    hide Step, JoinAll, LeaveEach, Unsubscribed, Messages;
  }

  lemma {:induction false} AuthLasts<W>(cfg: Config<W>, l: Link<W>, vs: seq<Value>)
    requires l.authed
    ensures HandleAll(cfg, l, vs).authed
    decreases |vs|
  {
    hide Handle;
    if vs != [] && l.open {
      HandleKeepsAuth(cfg, l, vs[0]);
      AuthLasts(cfg, Handle(cfg, l, vs[0]), vs[1..]);
    }
  }

  /** The first AUTH with the password opens the gate: what came before leaves no trace but its refusals,
      and the rest is handled as on a connection that needed no password. */
  lemma GateOpens<W(!new)>(cfg: Config<W>, l: Link<W>, before: seq<Value>, good: Value, after: seq<Value>)
    requires ValidEnv(cfg.env) && Locked(cfg, l) && l.open && GoodAuth(cfg, good)
    requires forall i :: 0 <= i < |before| ==> !GoodAuth(cfg, before[i]) && !IsQuit(cfg, before[i])
    ensures var l1 := HandleAll(cfg, l, before);
      && Untouched(cfg, l, l1)
      && HandleAll(cfg, l, before + ([good] + after))
         == HandleAll(cfg, l.(authed := true, log := l1.log + [Sent(cfg.me, OK)]), after)
  {
    hide Handle, OnlyRefusals, ValidEnv, IsQuit, GoodAuth, Absent;
    GateHolds(cfg, l, before);
    HandleAllConcat(cfg, l, before, [good] + after);
    assert ([good] + after)[0] == good && ([good] + after)[1..] == after;
    GoodAuthOpens(cfg, HandleAll(cfg, l, before), good);
  }

  /** So a connection ends up authenticated if and only if a good AUTH came, and no QUIT before it. */
  lemma {:induction false} AuthedExactly<W(!new)>(cfg: Config<W>, l: Link<W>, vs: seq<Value>)
    requires ValidEnv(cfg.env) && Locked(cfg, l) && l.open
    ensures HandleAll(cfg, l, vs).authed
       <==> exists i :: 0 <= i < |vs| && GoodAuth(cfg, vs[i]) && forall j :: 0 <= j < i ==> !IsQuit(cfg, vs[j])
    decreases |vs|
  {
    hide Handle, GoodAuth, IsQuit, ValidEnv, OnlyRefusals, Absent;
    if vs != [] {
      var rest := vs[1..];
      if GoodAuth(cfg, vs[0]) {
        GoodAuthOpens(cfg, l, vs[0]);
        AuthLasts(cfg, Handle(cfg, l, vs[0]), rest);
      } else {
        HandleLocked(cfg, l, vs[0]);
        var l1 := Handle(cfg, l, vs[0]);
        if l1.open {
          AuthedExactly(cfg, l1, rest);
          Shifted(cfg, vs);
        }
      }
    }
  }

  lemma GoodAuthOpens<W>(cfg: Config<W>, l: Link<W>, v: Value)
    requires GoodAuth(cfg, v)
    ensures Handle(cfg, l, v) == l.(authed := true, log := l.log + [Sent(cfg.me, OK)])
  {
  }

  lemma Shifted<W>(cfg: Config<W>, vs: seq<Value>)
    requires vs != [] && !GoodAuth(cfg, vs[0]) && !IsQuit(cfg, vs[0])
    ensures (exists i :: 0 <= i < |vs| && GoodAuth(cfg, vs[i]) && forall j :: 0 <= j < i ==> !IsQuit(cfg, vs[j]))
       <==> (exists i :: 0 <= i < |vs[1..]| && GoodAuth(cfg, vs[1..][i])
                         && forall j :: 0 <= j < i ==> !IsQuit(cfg, vs[1..][j]))
  {
    hide GoodAuth, IsQuit;
    var rest := vs[1..];
    if i :| 0 <= i < |vs| && GoodAuth(cfg, vs[i]) && forall j :: 0 <= j < i ==> !IsQuit(cfg, vs[j]) {
      assert rest[i - 1] == vs[i];
      assert forall j :: 0 <= j < i - 1 ==> rest[j] == vs[j + 1];
    }
    if i :| 0 <= i < |rest| && GoodAuth(cfg, rest[i]) && forall j :: 0 <= j < i ==> !IsQuit(cfg, rest[j]) {
      assert vs[i + 1] == rest[i];
      assert forall j :: 0 < j < i + 1 ==> vs[j] == rest[j - 1];
    }
  }

  // ---------------------------------------------------------------- invariants of every run

  ghost predicate Good<W>(cfg: Config<W>, l: Link<W>) {
    Sane(cfg.env, l.conn) && NoEmptyChannel(l.subs)
  }

  /** A change of subscriptions that concerns `me` alone. */
  ghost predicate Mine(b: Subs, b': Subs, me: Sub) {
    NoEmptyChannel(b') && forall ch, sub :: sub != me ==> Mult(b', ch, sub) == Mult(b, ch, sub)
  }

  lemma MineOne(b: Subs, act: Act)
    requires NoEmptyChannel(b)
    ensures Mine(b, Apply(b, act), act.sub)
  {
    hide NoEmptyChannel, Mult, Apply;
    ActCounts(b, act, "", 0);
    forall ch, sub | sub != act.sub ensures Mult(Apply(b, act), ch, sub) == Mult(b, ch, sub) {
      ActCounts(b, act, ch, sub);
    }
  }

  lemma {:induction false} MineJoin(b: Subs, me: Sub, chs: seq<Value>)
    requires NoEmptyChannel(b)
    ensures Mine(b, JoinAll(b, me, chs).0, me)
    decreases |chs|
  {
    hide NoEmptyChannel, Mult, Subscribed, Total;
    if chs != [] {
      var act := Act.Subscribe(chs[0].Str(), me);
      MineOne(b, act);
      MineJoin(Apply(b, act), me, chs[1..]);
    }
  }

  lemma {:induction false} MineLeave(b: Subs, me: Sub, chs: seq<Value>)
    requires NoEmptyChannel(b)
    ensures Mine(b, LeaveEach(b, me, chs).0, me)
    decreases |chs|
  {
    hide NoEmptyChannel, Mult, Unsubscribed, Total;
    if chs != [] {
      var act := Act.Unsubscribe(chs[0].Str(), me);
      MineOne(b, act);
      MineLeave(Apply(b, act), me, chs[1..]);
    }
  }

  lemma MineAll(b: Subs, me: Sub)
    requires NoEmptyChannel(b)
    ensures Mine(b, Unsubscribed(b, "", me), me)
  {
    MineOne(b, Act.Unsubscribe("", me));
  }

  /** Each turn keeps the session sane, and the subscriptions of every other client as they are. */
  lemma HandleGood<W(!new)>(cfg: Config<W>, l: Link<W>, v: Value)
    requires ValidEnv(cfg.env) && Good(cfg, l)
    ensures Good(cfg, Handle(cfg, l, v)) && Mine(l.subs, Handle(cfg, l, v).subs, cfg.me)
  {
    hide Step, JoinAll, LeaveEach, Unsubscribed, Messages, Sane, ValidEnv, NoEmptyChannel, Mult;
    var args := ToArgs(v);
    if args != [] {
      StepKeepsSane(cfg.env, l.conn, args);
      MineJoin(l.subs, cfg.me, args[1..]);
      MineLeave(l.subs, cfg.me, args[1..]);
      MineAll(l.subs, cfg.me);
    }
  }

  lemma {:induction false} RunGood<W(!new)>(cfg: Config<W>, l: Link<W>, vs: seq<Value>)
    requires ValidEnv(cfg.env) && Good(cfg, l)
    ensures Good(cfg, HandleAll(cfg, l, vs)) && Mine(l.subs, HandleAll(cfg, l, vs).subs, cfg.me)
    decreases |vs|
  {
    hide Handle, ValidEnv, Sane, NoEmptyChannel, Mult;
    if vs != [] && l.open {
      HandleGood(cfg, l, vs[0]);
      RunGood(cfg, Handle(cfg, l, vs[0]), vs[1..]);
    }
  }

  /** A connection that hangs up leaves the broker without it exactly when it held no channel twice. */
  lemma HangUpLeaves<W>(cfg: Config<W>, l: Link<W>)
    requires NoEmptyChannel(l.subs)
    ensures Absent(Closed(cfg, l).subs, cfg.me) <==> forall ch :: Mult(l.subs, ch, cfg.me) <= 1
  {
    hide Mult, Unsubscribed;
    UnsubscribeAllLeaves(l.subs, cfg.me);
    MineAll(l.subs, cfg.me);
  }

  // ---------------------------------------------------------------- what the session gets to see

  /** The server's own commands, which no transaction queues. */
  predicate Own(name: string) {
    name == "AUTH" || name == "SUBSCRIBE" || name == "UNSUBSCRIBE" || name == "PUBLISH"
  }

  /** The commands that reach the session, up to the first QUIT. */
  function Forwarded<W>(cfg: Config<W>, vs: seq<Value>): seq<seq<Value>> {
    if vs == [] then []
    else
      var args := ToArgs(vs[0]);
      if args == [] || Own(NameOf(cfg, args)) then Forwarded(cfg, vs[1..])
      else if NameOf(cfg, args) == "QUIT" then [args]
      else [args] + Forwarded(cfg, vs[1..])
  }

  lemma RunNothing<W>(env: Env<W>, c: Conn<W>, cmds: seq<seq<Value>>)
    ensures cmds == [] ==> Session.Run(env, c, cmds).0 == c
    ensures |cmds| == 1 ==> Session.Run(env, c, cmds).0 == Step(env, c, cmds[0]).0
  {
    hide Step;
  }

  /** What the server does of its own for an authenticated client: the subscriptions after, and what is
      written. The session has no part in it. */
  ghost function OwnWork<W>(cfg: Config<W>, b: Subs, args: seq<Value>): (Subs, seq<Sent>)
    requires args != []
  {
    var name := NameOf(cfg, args);
    if name == "AUTH" then (b, [Sent(cfg.me, Auth(cfg, true, args).1)])
    else if name == "SUBSCRIBE" then JoinAll(b, cfg.me, args[1..])
    else if name == "UNSUBSCRIBE" then
      if |args| == 1 then
        (Unsubscribed(b, "", cfg.me), [Sent(cfg.me, Array([Bulk("unsubscribe"), NullBulk, Integer(0)]))])
      else LeaveEach(b, cfg.me, args[1..])
    else if |args| < 3 then (b, [Sent(cfg.me, BadArity("publish"))])
    else
      var to := Of(b, args[1].Str());
      (b, Messages(to, args[1].Str(), args[2].Str()) + [Sent(cfg.me, Reported(|to|))])
  }

  lemma OwnIsOwnWork<W>(cfg: Config<W>, l: Link<W>, v: Value)
    requires l.authed && ToArgs(v) != [] && Own(NameOf(cfg, ToArgs(v)))
    ensures var (b, log) := OwnWork(cfg, l.subs, ToArgs(v));
      Handle(cfg, l, v) == l.(subs := b, log := l.log + log)
  {
    hide JoinAll, LeaveEach, Unsubscribed, Messages, Of, Auth;
    var args := ToArgs(v);
    if NameOf(cfg, args) == "AUTH" {
      AuthedStays(cfg, args);
    } else if NameOf(cfg, args) == "PUBLISH" && |args| >= 3 {
      var to := Of(l.subs, args[1].Str());
      Assoc(l.log, Messages(to, args[1].Str(), args[2].Str()), [Sent(cfg.me, Reported(|to|))]);
    }
  }

  lemma AuthedStays<W>(cfg: Config<W>, args: seq<Value>)
    ensures Auth(cfg, true, args).0
  {
  }

  /** The subscriptions after the conversation and all that is written in it, given the session's replies:
      they are written in turn, each to this client and at the place of its command. */
  ghost function Woven<W>(cfg: Config<W>, b: Subs, vs: seq<Value>, replies: seq<Value>): (Subs, seq<Sent>)
    requires |replies| == |Forwarded(cfg, vs)|
    decreases |vs|
  {
    if vs == [] then (b, [])
    else
      var args := ToArgs(vs[0]);
      if args == [] then Woven(cfg, b, vs[1..], replies)
      else if Own(NameOf(cfg, args)) then
        var (b1, log1) := OwnWork(cfg, b, args);
        var (b2, log2) := Woven(cfg, b1, vs[1..], replies);
        (b2, log1 + log2)
      else if NameOf(cfg, args) == "QUIT" then (Unsubscribed(b, "", cfg.me), [Sent(cfg.me, replies[0])])
      else
        var (b2, log2) := Woven(cfg, b, vs[1..], replies[1..]);
        (b2, [Sent(cfg.me, replies[0])] + log2)
  }

  lemma {:induction false} RunReplies<W>(env: Env<W>, c: Conn<W>, cmds: seq<seq<Value>>)
    ensures |Session.Run(env, c, cmds).1| == |cmds|
    decreases |cmds|
  {
    hide Step;
    if cmds != [] {
      RunReplies(env, Step(env, c, cmds[0]).0, cmds[1..]);
    }
  }

  /** `l'` is the outcome of the session on the forwarded commands and of the server's own work. */
  ghost predicate Decomposed<W>(cfg: Config<W>, l: Link<W>, vs: seq<Value>, l': Link<W>) {
    var (c, replies) := Session.Run(cfg.env, l.conn, Forwarded(cfg, vs));
    && |replies| == |Forwarded(cfg, vs)|
    && var (b, log) := Woven(cfg, l.subs, vs, replies);
       l'.conn == c && l'.subs == b && l'.log == l.log + log
  }

  /** An authenticated connection is its session, run on the forwarded commands, beside the server's own
      work: the store, the subscriptions and everything written are those of the two. So what
      `MultiElimination` says of the world and the replies holds of the whole connection. */
  lemma {:induction false} SessionOfConversation<W>(cfg: Config<W>, l: Link<W>, vs: seq<Value>)
    requires l.authed && l.open
    ensures Decomposed(cfg, l, vs, HandleAll(cfg, l, vs))
    decreases |vs|
  {
    hide Handle, Decomposed;
    if vs == [] {
      NothingDecomposed(cfg, l);
    } else {
      var args, l1 := ToArgs(vs[0]), Handle(cfg, l, vs[0]);
      HandleKeepsAuth(cfg, l, vs[0]);
      if args == [] {
        NothingHandled(cfg, l, vs[0]);
        SessionOfConversation(cfg, l1, vs[1..]);
        SilentFirst(cfg, l, vs, HandleAll(cfg, l1, vs[1..]));
      } else if Own(NameOf(cfg, args)) {
        OwnIsOwnWork(cfg, l, vs[0]);
        SessionOfConversation(cfg, l1, vs[1..]);
        OwnFirst(cfg, l, vs, HandleAll(cfg, l1, vs[1..]));
      } else {
        CommandHandled(cfg, l, vs[0]);
        if NameOf(cfg, args) == "QUIT" {
          assert HandleAll(cfg, l, vs) == HandleAll(cfg, l1, vs[1..]) == l1;
          QuitFirst(cfg, l, vs);
        } else {
          SessionOfConversation(cfg, l1, vs[1..]);
          CommandFirst(cfg, l, vs, HandleAll(cfg, l1, vs[1..]));
        }
      }
    }
  }

  lemma NothingDecomposed<W>(cfg: Config<W>, l: Link<W>)
    ensures Decomposed(cfg, l, [], l)
  {
    assert l.log + [] == l.log;
    RunNothing(cfg.env, l.conn, []);
    RunReplies(cfg.env, l.conn, []);
  }

  lemma NothingHandled<W>(cfg: Config<W>, l: Link<W>, v: Value)
    requires ToArgs(v) == []
    ensures Handle(cfg, l, v) == l
  {
  }

  lemma CommandHandled<W>(cfg: Config<W>, l: Link<W>, v: Value)
    requires l.authed && l.open && ToArgs(v) != [] && !Own(NameOf(cfg, ToArgs(v)))
    ensures Handle(cfg, l, v) == Command(cfg, l, ToArgs(v))
    ensures Handle(cfg, l, v).open <==> NameOf(cfg, ToArgs(v)) != "QUIT"
  {
    hide Step, Unsubscribed;
  }

  lemma SilentFirst<W>(cfg: Config<W>, l: Link<W>, vs: seq<Value>, l': Link<W>)
    requires vs != [] && ToArgs(vs[0]) == [] && Decomposed(cfg, l, vs[1..], l')
    ensures Decomposed(cfg, l, vs, l')
  {
    hide Session.Run;
  }

  lemma OwnFirst<W>(cfg: Config<W>, l: Link<W>, vs: seq<Value>, l': Link<W>)
    requires vs != [] && ToArgs(vs[0]) != [] && Own(NameOf(cfg, ToArgs(vs[0])))
    requires var (b, log) := OwnWork(cfg, l.subs, ToArgs(vs[0]));
      Decomposed(cfg, l.(subs := b, log := l.log + log), vs[1..], l')
    ensures Decomposed(cfg, l, vs, l')
  {
    hide Session.Run, OwnWork, Own;
    var (b, log) := OwnWork(cfg, l.subs, ToArgs(vs[0]));
    var replies := Session.Run(cfg.env, l.conn, Forwarded(cfg, vs[1..])).1;
    Assoc(l.log, log, Woven(cfg, b, vs[1..], replies).1);
  }

  lemma CommandFirst<W>(cfg: Config<W>, l: Link<W>, vs: seq<Value>, l': Link<W>)
    requires vs != [] && ToArgs(vs[0]) != [] && !Own(NameOf(cfg, ToArgs(vs[0])))
    requires NameOf(cfg, ToArgs(vs[0])) != "QUIT"
    requires Decomposed(cfg, Command(cfg, l, ToArgs(vs[0])), vs[1..], l')
    ensures Decomposed(cfg, l, vs, l')
  {
    hide Step, OwnWork, Own;
    var args := ToArgs(vs[0]);
    var rest := Forwarded(cfg, vs[1..]);
    assert ([args] + rest)[0] == args && ([args] + rest)[1..] == rest;
    var (c1, v) := Step(cfg.env, l.conn, args);
    var replies := Session.Run(cfg.env, c1, rest).1;
    assert ([v] + replies)[0] == v && ([v] + replies)[1..] == replies;
    Assoc(l.log, [Sent(cfg.me, v)], Woven(cfg, l.subs, vs[1..], replies).1);
  }

  lemma QuitFirst<W>(cfg: Config<W>, l: Link<W>, vs: seq<Value>)
    requires vs != [] && ToArgs(vs[0]) != [] && NameOf(cfg, ToArgs(vs[0])) == "QUIT"
    ensures Decomposed(cfg, l, vs, Command(cfg, l, ToArgs(vs[0])))
  {
    hide Step, OwnWork, Unsubscribed;
    var args := ToArgs(vs[0]);
    RunReplies(cfg.env, l.conn, [args]);
    assert [args][1..] == [];
  }

  // ---------------------------------------------------------------- what single commands do

  /** A command is an array, or a value alone; an empty one is passed over. */
  lemma CommandForms<W>(cfg: Config<W>, l: Link<W>, v: Value)
    ensures !v.Array? && v != NullArray ==> Handle(cfg, l, v) == Handle(cfg, l, Array([v]))
    ensures Handle(cfg, l, NullArray) == Handle(cfg, l, Array([])) == l
  {
  }

  lemma LockedOut<W>(cfg: Config<W>, l: Link<W>, args: seq<Value>)
    requires !l.authed && args != [] && NameOf(cfg, args) != "AUTH" && NameOf(cfg, args) != "QUIT"
    ensures Handle(cfg, l, Array(args))
         == l.(log := l.log + [Sent(cfg.me, Error("NOAUTH Authentication required."))])
  {
  }

  /** AUTH lets in whoever gives the password, and everybody where there is none. */
  lemma AuthAnswers<W>(cfg: Config<W>, l: Link<W>, args: seq<Value>)
    requires args != [] && NameOf(cfg, args) == "AUTH"
    ensures var answer := v => l.log + [Sent(cfg.me, v)];
      Handle(cfg, l, Array(args))
      == if |args| == 1 then
           l.(log := answer(Error("ERR wrong number of arguments for 'auth' command")))
         else if cfg.password == "" || args[1].Str() == cfg.password then
           l.(authed := true, log := answer(Simple("OK")))
         else
           l.(log := answer(Error("WRONGPASS invalid username-password pair or user is disabled.")))
  {
    ArityTexts();
  }

  lemma ArityTexts()
    ensures BadArity("auth") == Error("ERR wrong number of arguments for 'auth' command")
    ensures BadArity("publish") == Error("ERR wrong number of arguments for 'publish' command")
  {
  }

  lemma MessagesAre(to: seq<Sub>, ch: string, m: string)
    ensures Messages(to, ch, m)
         == seq(|to|, i requires 0 <= i < |to| => Sent(to[i], Array([Bulk("message"), Bulk(ch), Bulk(m)])))
  {
    assert Message(ch, m) == Array([Bulk("message"), Bulk(ch), Bulk(m)]);
    forall i | 0 <= i < |to| ensures Messages(to, ch, m)[i] == Sent(to[i], Message(ch, m)) {
    }
  }

  /** PUBLISH sends the channel and the message to every subscriber, and replies how many they are. */
  lemma PublishSends<W>(cfg: Config<W>, l: Link<W>, args: seq<Value>)
    requires l.authed && args != [] && NameOf(cfg, args) == "PUBLISH"
    ensures |args| < 3 ==>
      Handle(cfg, l, Array(args))
      == l.(log := l.log + [Sent(cfg.me, Error("ERR wrong number of arguments for 'publish' command"))])
    ensures |args| >= 3 ==>
      var ch, m := args[1].Str(), args[2].Str();
      var to := Of(l.subs, ch);
      var sent := seq(|to|, i requires 0 <= i < |to| => Sent(to[i], Array([Bulk("message"), Bulk(ch), Bulk(m)])));
      IsInt64(|to|) ==> Handle(cfg, l, Array(args)) == l.(log := l.log + sent + [Sent(cfg.me, Integer(|to|))])
  {
    hide Of, BadArity;
    ArityTexts();
    if |args| >= 3 {
      var ch, m := args[1].Str(), args[2].Str();
      var to := Of(l.subs, ch);
      MessagesAre(to, ch, m);
    }
  }

  /** SUBSCRIBE and UNSUBSCRIBE of one channel, and what they tell the client. */
  lemma SubscribeTells<W>(cfg: Config<W>, l: Link<W>, args: seq<Value>)
    requires l.authed && |args| == 2
    ensures NameOf(cfg, args) == "SUBSCRIBE" ==>
      var ch := args[1].Str();
      var b := Subscribed(l.subs, ch, cfg.me);
      var n := Total(b, b.Keys, cfg.me);
      IsInt64(n) ==>
        Handle(cfg, l, Array(args))
        == l.(subs := b, log := l.log + [Sent(cfg.me, Array([Bulk("subscribe"), Bulk(ch), Integer(n)]))])
    ensures NameOf(cfg, args) == "UNSUBSCRIBE" ==>
      var ch := args[1].Str();
      var b := Unsubscribed(l.subs, ch, cfg.me);
      var n := if ch == "" then 0 else Total(b, b.Keys, cfg.me);
      IsInt64(n) ==>
        Handle(cfg, l, Array(args))
        == l.(subs := b, log := l.log + [Sent(cfg.me, Array([Bulk("unsubscribe"), Bulk(ch), Integer(n)]))])
  {
    hide Total, Subscribed, Unsubscribed, Step;
    JoinOne(l.subs, cfg.me, args);
  }

  lemma JoinOne(b: Subs, me: Sub, args: seq<Value>)
    requires |args| == 2
    ensures var ch, b1 := args[1].Str(), Subscribed(b, args[1].Str(), me);
      JoinAll(b, me, args[1..]) == (b1, [Sent(me, Note("subscribe", ch, Total(b1, b1.Keys, me)))])
    ensures var ch, b1 := args[1].Str(), Unsubscribed(b, args[1].Str(), me);
      var n := if ch == "" then 0 else Total(b1, b1.Keys, me);
      LeaveEach(b, me, args[1..]) == (b1, [Sent(me, Note("unsubscribe", ch, n))])
  {
    hide Total, Subscribed, Unsubscribed, Note;
    assert args[1..] == [args[1]] && [args[1]][1..] == [];
    var ch := args[1].Str();
    var b1, b2 := Subscribed(b, ch, me), Unsubscribed(b, ch, me);
    assert JoinAll(b1, me, []) == (b1, []) && LeaveEach(b2, me, []) == (b2, []);
    var s1 := Sent(me, Note("subscribe", ch, Total(b1, b1.Keys, me)));
    var s2 := Sent(me, Note("unsubscribe", ch, if ch == "" then 0 else Total(b2, b2.Keys, me)));
    assert [s1] + [] == [s1] && [s2] + [] == [s2];
  }

  lemma UnsubscribeAllTells<W>(cfg: Config<W>, l: Link<W>, args: seq<Value>)
    requires l.authed && |args| == 1 && NameOf(cfg, args) == "UNSUBSCRIBE"
    ensures Handle(cfg, l, Array(args))
         == l.(subs := Unsubscribed(l.subs, "", cfg.me),
               log := l.log + [Sent(cfg.me, Array([Bulk("unsubscribe"), NullBulk, Integer(0)]))])
  {
    hide Unsubscribed;
  }

  /** Everything else goes to the session, and its reply to the client; QUIT then hangs up. */
  lemma SessionAnswers<W>(cfg: Config<W>, l: Link<W>, args: seq<Value>)
    requires l.authed && args != []
    requires var name := NameOf(cfg, args);
      name != "AUTH" && name != "SUBSCRIBE" && name != "UNSUBSCRIBE" && name != "PUBLISH"
    ensures var l', (c, v) := Handle(cfg, l, Array(args)), Step(cfg.env, l.conn, args);
      && l'.conn == c && l'.log == l.log + [Sent(cfg.me, v)] && l'.authed
      && (NameOf(cfg, args) == "QUIT" ==> !l'.open && l'.subs == Unsubscribed(l.subs, "", cfg.me))
      && (NameOf(cfg, args) != "QUIT" ==> l'.open == l.open && l'.subs == l.subs)
  {
    hide Step, Unsubscribed;
  }

  // ---------------------------------------------------------------- from bytes to effects

  /** A client that pipelines whole commands, and is cut off anywhere in the next one, has the effect of
      exactly the whole ones. */
  lemma PipelinedConversation<W>(cfg: Config<W>, l: Link<W>, vs: seq<Value>, last: Value, n: nat, lim: Limits)
    requires WellFormed(last, lim) && n < |Encode(last)| && forall v :: v in vs ==> WellFormed(v, lim)
    ensures Listen(cfg, l, EncodeAll(vs) + Encode(last)[..n], lim) == (Converse(cfg, l, vs), false)
  {
    Pipeline(vs, last, n, lim);
  }

  /** The reader ends the whole program, whether or not the client has given the password, if and only if one
      of the values that it begins is too large for it and no QUIT before has ended the connection. */
  lemma StopsExactly<W>(cfg: Config<W>, l: Link<W>, bytes: string, lim: Limits)
    requires l.open
    ensures var vs := DecodeStream(bytes, lim).0;
      Listen(cfg, l, bytes, lim).1
      <==> Blocked(VisitedAll(bytes, lim)) && forall i :: 0 <= i < |vs| ==> !IsQuit(cfg, vs[i])
  {
    hide HandleAll, DecodeStream, Blocked, IsQuit;
    StreamPanicsExactly(bytes, lim);
    OpenExactly(cfg, l, DecodeStream(bytes, lim).0);
  }

  /** Only QUIT closes a connection from the client's side. */
  lemma {:induction false} OpenExactly<W>(cfg: Config<W>, l: Link<W>, vs: seq<Value>)
    requires l.open
    ensures HandleAll(cfg, l, vs).open <==> forall i :: 0 <= i < |vs| ==> !IsQuit(cfg, vs[i])
    decreases |vs|
  {
    hide Handle, IsQuit;
    if vs != [] {
      var l1 := Handle(cfg, l, vs[0]);
      QuitCloses(cfg, l, vs[0]);
      if l1.open {
        OpenExactly(cfg, l1, vs[1..]);
        assert forall i :: 0 < i < |vs| ==> vs[i] == vs[1..][i - 1];
        assert forall i :: 0 <= i < |vs[1..]| ==> vs[1..][i] == vs[i + 1];
      } else {
        assert HandleAll(cfg, l, vs) == HandleAll(cfg, l1, vs[1..]) == l1;
      }
    }
  }

  lemma QuitCloses<W>(cfg: Config<W>, l: Link<W>, v: Value)
    requires l.open
    ensures Handle(cfg, l, v).open <==> !IsQuit(cfg, v)
  {
    hide Step, JoinAll, LeaveEach, Unsubscribed, Messages;
  }

  /** For instance, a value that is too large ends it after any complete values, ... */
  lemma OversizedStopsServer<W>(cfg: Config<W>, l: Link<W>, vs: seq<Value>, t: string, lim: Limits)
    requires l.open && Oversized(t, lim) && forall v :: v in vs ==> WellFormed(v, lim)
    ensures Listen(cfg, l, EncodeAll(vs) + t, lim).1 <==> forall i :: 0 <= i < |vs| ==> !IsQuit(cfg, vs[i])
  {
    StreamPanics(vs, t, lim);
    OpenExactly(cfg, l, vs);
  }

  /** ... and so does one line from a client that has said nothing else. */
  lemma OneLineStopsServer<W>(cfg: Config<W>, w: W, subs: Subs, lim: Limits)
    ensures Listen(cfg, Fresh(cfg, w, subs), "$" + FormatInt(INT64_MAX) + CRLF, lim).1
  {
    hide FormatInt;
    var header := FormatInt(INT64_MAX) + CRLF + "";
    HeaderPanics(INT64_MAX, "", lim);
    assert "$" + FormatInt(INT64_MAX) + CRLF == "$" + header;
    assert DecodeStream("$" + header, lim) == ([], Panic);
  }

  /** And so do small array headers, nested deeper than the stack has room for. */
  lemma NestedHeadersStopServer<W>(cfg: Config<W>, w: W, subs: Subs, lim: Limits, k: nat)
    ensures Listen(cfg, Fresh(cfg, w, subs), Nest(k), lim).1 <==> k > lim.depth
  {
    NestedPanics(k, lim);
    assert DecodeStream(Nest(k), lim) == ([], if k > lim.depth then Panic else Eof);
  }
}

/** The loop of a connection over its reader, its session object and the shared broker. */
module Connections {
  import opened Sequences
  import opened Resp
  import opened RespStream
  import opened Session
  import opened Channels
  import opened Server
  import opened ClientConns
  import B = Broker

  class Connection<W(!new)> {
    const cfg: Config<W>
    const cc: ClientConn<W>
    const broker: B.Broker
    var authenticated: bool
    var isOpen: bool
    var log: seq<Sent>

    ghost function View(): Link<W>
      reads this, cc, broker, broker.Bufs()
      requires broker.Valid()
    {
      Link(cc.State(), authenticated, broker.View(), isOpen, log)
    }

    constructor (cfg: Config<W>, w: W, broker: B.Broker)
      requires broker.Valid()
      ensures this.cfg == cfg && this.broker == broker && fresh(cc) && broker.View() == old(broker.View())
      ensures View() == Fresh(cfg, w, broker.View())
    {
      this.cfg := cfg;
      this.broker := broker;
      cc := new ClientConn(w);
      authenticated := cfg.password == "";
      isOpen := true;
      log := [];
    }

    method Write(v: Value)
      requires broker.Valid()
      modifies this`log
      ensures broker.Valid() && View() == Reply(cfg, old(View()), v)
    {
      log := log + [Sent(cfg.me, v)];
    }

    method HandleAuth(args: seq<Value>) returns (r: Value)
      modifies this`authenticated
      ensures (authenticated, r) == Auth(cfg, old(authenticated), args)
    {
      if |args| < 2 {
        return BadArity("auth");
      }
      if cfg.password == "" {
        authenticated := true;
        return OK;
      }
      if args[1].Str() == cfg.password {
        authenticated := true;
        return OK;
      }
      r := WRONGPASS;
    }

    method SubscribeOne(ch: string) returns (note: Sent)
      requires broker.Valid()
      modifies this`log, broker, broker.Bufs()
      ensures broker.Valid() && fresh(broker.Bufs() - old(broker.Bufs()))
      ensures broker.View() == Subscribed(old(broker.View()), ch, cfg.me)
      ensures note == Sent(cfg.me, Note("subscribe", ch, Total(broker.View(), broker.View().Keys, cfg.me)))
      ensures log == old(log) + [note]
    {
      hide Total, Subscribed, Note;
      var n := broker.Subscribe(ch, cfg.me);
      note := Sent(cfg.me, Note("subscribe", ch, n));
      log := log + [note];
    }

    method SubscribeEach(chs: seq<Value>)
      requires broker.Valid()
      modifies this`log, broker, broker.Bufs()
      ensures broker.Valid() && fresh(broker.Bufs() - old(broker.Bufs()))
      ensures broker.View() == JoinAll(old(broker.View()), cfg.me, chs).0
      ensures log == old(log) + JoinAll(old(broker.View()), cfg.me, chs).1
    {
      hide Total, Subscribed, Note, Channels.Set, Of;
      ghost var all := JoinAll(broker.View(), cfg.me, chs);
      assert chs[0..] == chs;
      for i := 0 to |chs|
        invariant broker.Valid() && fresh(broker.Bufs() - old(broker.Bufs()))
        invariant JoinAll(broker.View(), cfg.me, chs[i..]).0 == all.0
        invariant log + JoinAll(broker.View(), cfg.me, chs[i..]).1 == old(log) + all.1
      {
        assert chs[i..][0] == chs[i] && chs[i..][1..] == chs[i + 1..];
        ghost var was := log;
        var note := SubscribeOne(chs[i].Str());
        Assoc(was, [note], JoinAll(broker.View(), cfg.me, chs[i + 1..]).1);
      }
      assert chs[|chs|..] == [];
    }

    method UnsubscribeOne(ch: string) returns (note: Sent)
      requires broker.Valid()
      modifies this`log, broker, broker.Bufs()
      ensures broker.Valid() && broker.Bufs() <= old(broker.Bufs())
      ensures broker.View() == Unsubscribed(old(broker.View()), ch, cfg.me)
      ensures var n := if ch == "" then 0 else Total(broker.View(), broker.View().Keys, cfg.me);
        note == Sent(cfg.me, Note("unsubscribe", ch, n))
      ensures log == old(log) + [note]
    {
      hide Total, Unsubscribed, Note;
      var n := broker.Unsubscribe(ch, cfg.me);
      note := Sent(cfg.me, Note("unsubscribe", ch, n));
      log := log + [note];
    }

    method UnsubscribeEach(chs: seq<Value>)
      requires broker.Valid()
      modifies this`log, broker, broker.Bufs()
      ensures broker.Valid() && broker.Bufs() <= old(broker.Bufs())
      ensures broker.View() == LeaveEach(old(broker.View()), cfg.me, chs).0
      ensures log == old(log) + LeaveEach(old(broker.View()), cfg.me, chs).1
    {
      hide Total, Unsubscribed, Note, Channels.Set, Of;
      ghost var all := LeaveEach(broker.View(), cfg.me, chs);
      assert chs[0..] == chs;
      for i := 0 to |chs|
        invariant broker.Valid() && broker.Bufs() <= old(broker.Bufs())
        invariant LeaveEach(broker.View(), cfg.me, chs[i..]).0 == all.0
        invariant log + LeaveEach(broker.View(), cfg.me, chs[i..]).1 == old(log) + all.1
      {
        assert chs[i..][0] == chs[i] && chs[i..][1..] == chs[i + 1..];
        ghost var was := log;
        var note := UnsubscribeOne(chs[i].Str());
        Assoc(was, [note], LeaveEach(broker.View(), cfg.me, chs[i + 1..]).1);
      }
      assert chs[|chs|..] == [];
    }

    method PublishOne(ch: string, message: string)
      requires broker.Valid()
      modifies this`log
      ensures var to := Of(broker.View(), ch);
        log == old(log) + Messages(to, ch, message) + [Sent(cfg.me, Server.Reported(|to|))]
    {
      var delivered, n := broker.Publish(ch, message);
      ghost var to := Of(broker.View(), ch);
      for i := 0 to |delivered|
        invariant log == old(log) + Messages(to, ch, message)[..i]
      {
        var (sub, c, text) := delivered[i];
        log := log + [Sent(sub, Message(c, text))];
        assert Messages(to, ch, message)[..i + 1] == Messages(to, ch, message)[..i] + [Messages(to, ch, message)[i]];
      }
      assert Messages(to, ch, message)[..n] == Messages(to, ch, message);
      log := log + [Sent(cfg.me, Server.Reported(n))];
    }

    method HangUp()
      requires broker.Valid()
      modifies this`isOpen, broker, broker.Bufs()
      ensures broker.Valid() && broker.Bufs() <= old(broker.Bufs()) && !isOpen
      ensures broker.View() == Unsubscribed(old(broker.View()), "", cfg.me)
    {
      hide Unsubscribed;
      var _ := broker.Unsubscribe("", cfg.me);
      isOpen := false;
    }

    /** The pub/sub commands. */
    method HandlePubSub(name: string, args: seq<Value>)
      requires broker.Valid() && args != [] && name == NameOf(cfg, args)
      requires name == "SUBSCRIBE" || name == "UNSUBSCRIBE" || name == "PUBLISH"
      modifies this`log, broker, broker.Bufs()
      ensures broker.Valid() && fresh(broker.Bufs() - old(broker.Bufs()))
      ensures var l := old(View());
        View() == if name == "SUBSCRIBE" then Server.Subscribe(cfg, l, args)
                  else if name == "UNSUBSCRIBE" then Server.Unsubscribe(cfg, l, args)
                  else Server.Publish(cfg, l, args)
    {
      hide JoinAll, LeaveEach, Unsubscribed, Messages, Of;
      if name == "SUBSCRIBE" {
        SubscribeEach(args[1..]);
      } else if name == "UNSUBSCRIBE" {
        if |args| == 1 {
          var _ := broker.Unsubscribe("", cfg.me);
          Write(Array([Bulk("unsubscribe"), NullBulk, Integer(0)]));
        } else {
          UnsubscribeEach(args[1..]);
        }
      } else if |args| < 3 {
        Write(BadArity("publish"));
      } else {
        PublishOne(args[1].Str(), args[2].Str());
      }
    }

    /** The commands of the session. */
    method HandleCommand(name: string, args: seq<Value>)
      requires broker.Valid() && args != [] && name == NameOf(cfg, args)
      modifies this, cc, broker, broker.Bufs()
      ensures broker.Valid() && broker.Bufs() <= old(broker.Bufs())
      ensures View() == Command(cfg, old(View()), args)
    {
      hide Step, Unsubscribed;
      var r := cc.QueueOrDispatch(cfg.env, args);
      Write(r);
      if name == "QUIT" {
        HangUp();
      }
    }

    /** One turn of the loop. */
    method HandleValue(v: Value)
      requires broker.Valid()
      modifies this, cc, broker, broker.Bufs()
      ensures broker.Valid() && fresh(broker.Bufs() - old(broker.Bufs()))
      ensures View() == Handle(cfg, old(View()), v)
    {
      hide Command, Auth, Server.Subscribe, Server.Unsubscribe, Server.Publish;
      var args := ToArgs(v);
      if |args| == 0 {
        return;
      }
      var name := cfg.env.upper(args[0].Str());
      if !authenticated && name != "AUTH" && name != "QUIT" {
        Write(NOAUTH);
        return;
      }
      if name == "AUTH" {
        var r := HandleAuth(args);
        Write(r);
        return;
      }
      if name == "SUBSCRIBE" || name == "UNSUBSCRIBE" || name == "PUBLISH" {
        HandlePubSub(name, args);
        return;
      }
      HandleCommand(name, args);
    }

    /** One reading and the handling of what it gave; `ended` after a failure or QUIT. */
    method Turn(rd: Reader) returns (ended: bool, panicked: bool)
      requires broker.Valid() && isOpen
      modifies this, cc, broker, broker.Bufs(), rd
      ensures broker.Valid() && fresh(broker.Bufs() - old(broker.Bufs()))
      ensures ended ==> (View(), panicked) == Listen(cfg, old(View()), old(rd.input), rd.limits)
      ensures !ended ==> isOpen && |rd.input| < |old(rd.input)|
      ensures !ended ==>
        Listen(cfg, old(View()), old(rd.input), rd.limits) == Listen(cfg, View(), rd.input, rd.limits)
    {
      hide Handle, Decode, Unsubscribed, Listen;
      ghost var input, l := rd.input, View();
      var r := rd.ReadValue();
      if r.Err? {
        ListenEnds(cfg, l, input, rd.limits);
        if r.err == Panic {
          return true, true;
        }
        HangUp();
        return true, false;
      }
      ListenNext(cfg, l, input, rd.limits);
      HandleValue(r.value);
      return !isOpen, false;
    }

    /** handleConn: read, handle, until QUIT or until nothing more can be read. */
    method HandleConn(rd: Reader) returns (panicked: bool)
      requires broker.Valid() && isOpen
      modifies this, cc, broker, broker.Bufs(), rd
      ensures broker.Valid() && fresh(broker.Bufs() - old(broker.Bufs()))
      ensures (View(), panicked) == Listen(cfg, old(View()), old(rd.input), rd.limits)
    {
      hide Listen;
      ghost var all := Listen(cfg, View(), rd.input, rd.limits);
      while true
        invariant broker.Valid() && fresh(broker.Bufs() - old(broker.Bufs())) && isOpen
        invariant all == Listen(cfg, View(), rd.input, rd.limits)
        decreases |rd.input|
      {
        var ended;
        ended, panicked := Turn(rd);
        if ended {
          return;
        }
      }
    }
  }
}
