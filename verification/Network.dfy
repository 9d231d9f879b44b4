/** Several connections beside each other, sharing the store and the broker: any interleaving of their turns. */
module Network {
  import opened Sequences
  import opened Resp
  import opened Session
  import opened Channels
  import opened Server

  /** What all connections of a server have in common. */
  datatype Site<!W> = Site(env: Env<W>, password: string)

  /** What a connection has to itself. */
  datatype Local = Local(db: nat, inMulti: bool, queue: seq<seq<Value>>, authed: bool, open: bool)

  datatype Net<W> = Net(world: W, subs: Subs, locals: map<Sub, Local>, log: seq<Sent>)

  /** A turn of a client: a value that it has sent is handled, or nothing more can be read from it. */
  datatype Turn = Says(who: Sub, v: Value) | HangsUp(who: Sub)

  function Cfg<W>(site: Site<W>, who: Sub): Config<W> {
    Config(site.env, site.password, who)
  }

  function LinkOf<W>(net: Net<W>, who: Sub): Link<W>
    requires who in net.locals
  {
    var c := net.locals[who];
    Link(Conn(net.world, c.db, c.inMulti, c.queue), c.authed, net.subs, c.open, net.log)
  }

  function Back<W>(net: Net<W>, who: Sub, l: Link<W>): Net<W> {
    Net(l.conn.world, l.subs,
        net.locals[who := Local(l.conn.db, l.conn.inMulti, l.conn.queue, l.authed, l.open)], l.log)
  }

  ghost function Taken<W>(cfg: Config<W>, l: Link<W>, t: Turn): Link<W> {
    match t
    case Says(_, v) => Handle(cfg, l, v)
    case HangsUp(_) => Closed(cfg, l)
  }

  ghost function After<W>(site: Site<W>, net: Net<W>, t: Turn): Net<W> {
    if t.who !in net.locals || !net.locals[t.who].open then net
    else Back(net, t.who, Taken(Cfg(site, t.who), LinkOf(net, t.who), t))
  }

  ghost function AfterAll<W>(site: Site<W>, net: Net<W>, ts: seq<Turn>): Net<W>
    decreases |ts|
  {
    if ts == [] then net else AfterAll(site, After(site, net, ts[0]), ts[1..])
  }

  // ---------------------------------------------------------------- invariants

  predicate SaneLocal<W>(env: Env<W>, c: Local) {
    && c.db <= 15
    && (!c.inMulti ==> c.queue == [])
    && forall i :: 0 <= i < |c.queue| ==> Queueable(env, c.queue[i])
  }

  ghost predicate Sound<W>(site: Site<W>, net: Net<W>) {
    NoEmptyChannel(net.subs) && forall who :: who in net.locals ==> SaneLocal(site.env, net.locals[who])
  }

  lemma SoundLink<W>(site: Site<W>, net: Net<W>, who: Sub)
    requires Sound(site, net) && who in net.locals
    ensures Good(Cfg(site, who), LinkOf(net, who))
  {
    hide Queueable, NoEmptyChannel;
    assert SaneLocal(site.env, net.locals[who]);
  }

  lemma TakenGood<W(!new)>(cfg: Config<W>, l: Link<W>, t: Turn)
    requires ValidEnv(cfg.env) && Good(cfg, l)
    ensures Good(cfg, Taken(cfg, l, t)) && Mine(l.subs, Taken(cfg, l, t).subs, cfg.me)
  {
    hide Handle, Unsubscribed, Sane, ValidEnv, NoEmptyChannel, Mult;
    match t {
      case Says(_, v) => HandleGood(cfg, l, v);
      case HangsUp(_) => MineAll(l.subs, cfg.me);
    }
  }

  /** Every turn keeps all sessions sane, and touches the subscriptions of nobody but its own client. */
  lemma AfterSound<W(!new)>(site: Site<W>, net: Net<W>, t: Turn)
    requires ValidEnv(site.env) && Sound(site, net)
    ensures Sound(site, After(site, net, t)) && Mine(net.subs, After(site, net, t).subs, t.who)
  {
    hide Taken, ValidEnv, NoEmptyChannel, Mult, Queueable;
    if t.who in net.locals && net.locals[t.who].open {
      SoundLink(site, net, t.who);
      TakenGood(Cfg(site, t.who), LinkOf(net, t.who), t);
    }
  }

  // ---------------------------------------------------------------- each client has its own subscriptions

  function JoinActs(me: Sub, chs: seq<Value>): seq<Act> {
    if chs == [] then [] else [Act.Subscribe(chs[0].Str(), me)] + JoinActs(me, chs[1..])
  }

  function LeaveActs(me: Sub, chs: seq<Value>): seq<Act> {
    if chs == [] then [] else [Act.Unsubscribe(chs[0].Str(), me)] + LeaveActs(me, chs[1..])
  }

  /** The subscribing and unsubscribing that a value means, from its text alone. */
  function ActsIn<W>(cfg: Config<W>, authed: bool, v: Value): seq<Act> {
    var args := ToArgs(v);
    if args == [] then []
    else
      var name := NameOf(cfg, args);
      if name == "QUIT" then [Act.Unsubscribe("", cfg.me)]
      else if !authed then []
      else if name == "SUBSCRIBE" then JoinActs(cfg.me, args[1..])
      else if name == "UNSUBSCRIBE" then
        if |args| == 1 then [Act.Unsubscribe("", cfg.me)] else LeaveActs(cfg.me, args[1..])
      else []
  }

  function AuthedBy<W>(cfg: Config<W>, authed: bool, v: Value): bool {
    var args := ToArgs(v);
    authed || (|args| >= 2 && NameOf(cfg, args) == "AUTH" && (cfg.password == "" || args[1].Str() == cfg.password))
  }

  /** The same over the turns of one client, those of the others left out. */
  function OwnActs<W>(cfg: Config<W>, authed: bool, open: bool, ts: seq<Turn>): seq<Act>
    decreases |ts|
  {
    if ts == [] || !open then []
    else if ts[0].who != cfg.me then OwnActs(cfg, authed, open, ts[1..])
    else
      match ts[0]
      case HangsUp(_) => [Act.Unsubscribe("", cfg.me)]
      case Says(_, v) =>
        ActsIn(cfg, authed, v) + OwnActs(cfg, AuthedBy(cfg, authed, v), !IsQuit(cfg, v), ts[1..])
  }

  lemma {:induction false} JoinIsActs(b: Subs, me: Sub, chs: seq<Value>)
    ensures JoinAll(b, me, chs).0 == ApplyAll(b, JoinActs(me, chs))
    decreases |chs|
  {
    hide Subscribed, Total, Note;
    if chs != [] {
      var act := Act.Subscribe(chs[0].Str(), me);
      var rest := JoinActs(me, chs[1..]);
      assert ([act] + rest)[0] == act && ([act] + rest)[1..] == rest;
      JoinIsActs(Apply(b, act), me, chs[1..]);
    }
  }

  lemma {:induction false} LeaveIsActs(b: Subs, me: Sub, chs: seq<Value>)
    ensures LeaveEach(b, me, chs).0 == ApplyAll(b, LeaveActs(me, chs))
    decreases |chs|
  {
    hide Unsubscribed, Total, Note;
    if chs != [] {
      var act := Act.Unsubscribe(chs[0].Str(), me);
      var rest := LeaveActs(me, chs[1..]);
      assert ([act] + rest)[0] == act && ([act] + rest)[1..] == rest;
      LeaveIsActs(Apply(b, act), me, chs[1..]);
    }
  }

  lemma OneAct(b: Subs, act: Act)
    ensures ApplyAll(b, [act]) == Apply(b, act) && ApplyAll(b, []) == b
  {
    hide Apply;
    assert [act][1..] == [];
  }

  lemma HandleIsActs<W>(cfg: Config<W>, l: Link<W>, v: Value)
    requires l.open
    ensures var l' := Handle(cfg, l, v);
      && l'.subs == ApplyAll(l.subs, ActsIn(cfg, l.authed, v))
      && l'.authed == AuthedBy(cfg, l.authed, v) && (l'.open <==> !IsQuit(cfg, v))
  {
    hide Step, JoinAll, LeaveEach, JoinActs, LeaveActs, Unsubscribed, Messages, ApplyAll;
    var args := ToArgs(v);
    OneAct(l.subs, Act.Unsubscribe("", cfg.me));
    if args != [] {
      JoinIsActs(l.subs, cfg.me, args[1..]);
      LeaveIsActs(l.subs, cfg.me, args[1..]);
    }
  }

  lemma {:induction false} CountAllConcat(n: nat, xs: seq<Act>, ys: seq<Act>, ch: string, sub: Sub)
    ensures CountAll(n, xs + ys, ch, sub) == CountAll(CountAll(n, xs, ch, sub), ys, ch, sub)
    decreases |xs|
  {
    if xs == [] {
      assert xs + ys == ys;
    } else {
      assert (xs + ys)[0] == xs[0] && (xs + ys)[1..] == xs[1..] + ys;
      CountAllConcat(CountAfter(n, xs[0], ch, sub), xs[1..], ys, ch, sub);
    }
  }

  /** A turn of the client itself. */
  lemma OwnTurn<W(!new)>(site: Site<W>, net: Net<W>, t: Turn, ch: string)
    requires ValidEnv(site.env) && Sound(site, net) && t.who in net.locals && net.locals[t.who].open
    ensures var (cfg, c, net') := (Cfg(site, t.who), net.locals[t.who], After(site, net, t));
      var acts := if t.Says? then ActsIn(cfg, c.authed, t.v) else [Act.Unsubscribe("", t.who)];
      && t.who in net'.locals
      && Mult(net'.subs, ch, t.who) == CountAll(Mult(net.subs, ch, t.who), acts, ch, t.who)
      && (t.Says? ==> net'.locals[t.who].authed == AuthedBy(cfg, c.authed, t.v))
      && (net'.locals[t.who].open <==> t.Says? && !IsQuit(cfg, t.v))
  {
    hide Handle, ActsIn, AuthedBy, IsQuit, Mult, ApplyAll, CountAll, NoEmptyChannel, Unsubscribed, ValidEnv, SaneLocal;
    var cfg, l := Cfg(site, t.who), LinkOf(net, t.who);
    OneAct(net.subs, Act.Unsubscribe("", t.who));
    match t {
      case Says(_, v) =>
        HandleIsActs(cfg, l, v);
        TraceCounts(net.subs, ActsIn(cfg, l.authed, v), ch, t.who);
      case HangsUp(_) =>
        TraceCounts(net.subs, [Act.Unsubscribe("", t.who)], ch, t.who);
    }
  }

  /** Whatever the other clients do in between, how often a client is subscribed to a channel follows from its
      own commands. */
  lemma {:induction false} OwnSubscriptions<W(!new)>(site: Site<W>, net: Net<W>, ts: seq<Turn>, who: Sub, ch: string)
    requires ValidEnv(site.env) && Sound(site, net) && who in net.locals
    ensures var c := net.locals[who];
      Mult(AfterAll(site, net, ts).subs, ch, who)
      == CountAll(Mult(net.subs, ch, who), OwnActs(Cfg(site, who), c.authed, c.open, ts), ch, who)
    ensures Sound(site, AfterAll(site, net, ts))
    decreases |ts|
  {
    hide ActsIn, AuthedBy, IsQuit, Mult, ApplyAll, ValidEnv, Sound, CountAll, After;
    if ts == [] {
      NothingDone(Mult(net.subs, ch, who), ch, who);
    } else {
      var t, net', cfg := ts[0], After(site, net, ts[0]), Cfg(site, who);
      AfterSound(site, net, t);
      TurnElsewhere(site, net, t, who, ch);
      OwnSubscriptions(site, net', ts[1..], who, ch);
      if t.who == who && net.locals[who].open {
        OwnTurn(site, net, t, ch);
        NothingOnceClosed(cfg, net'.locals[who].authed, ts[1..]);
        var acts := if t.Says? then ActsIn(cfg, net.locals[who].authed, t.v) else [Act.Unsubscribe("", who)];
        var rest := OwnActs(cfg, net'.locals[who].authed, net'.locals[who].open, ts[1..]);
        CountAllConcat(Mult(net.subs, ch, who), acts, rest, ch, who);
        assert acts + [] == acts;
      } else if !net.locals[who].open {
        NothingOnceClosed(cfg, net.locals[who].authed, ts);
        NothingOnceClosed(cfg, net.locals[who].authed, ts[1..]);
      }
    }
  }

  lemma NothingDone(n: nat, ch: string, sub: Sub)
    ensures CountAll(n, [], ch, sub) == n
  {
  }

  lemma NothingOnceClosed<W>(cfg: Config<W>, authed: bool, ts: seq<Turn>)
    ensures OwnActs(cfg, authed, false, ts) == []
  {
  }

  /** A turn that is not the client's, or comes after it has closed. */
  lemma TurnElsewhere<W(!new)>(site: Site<W>, net: Net<W>, t: Turn, who: Sub, ch: string)
    requires ValidEnv(site.env) && Sound(site, net) && who in net.locals
    ensures var net' := After(site, net, t);
      && who in net'.locals
      && (t.who != who || !net.locals[who].open ==>
            net'.locals[who] == net.locals[who] && Mult(net'.subs, ch, who) == Mult(net.subs, ch, who))
  {
    hide Taken, Mult, ValidEnv, Sound, NoEmptyChannel;
    AfterSound(site, net, t);
  }

  // ---------------------------------------------------------------- a locked client does not exist for the others

  /** The turns of everybody else. */
  function Without(ts: seq<Turn>, who: Sub): seq<Turn> {
    if ts == [] then [] else (if ts[0].who == who then [] else [ts[0]]) + Without(ts[1..], who)
  }

  /** All that is written to the others, in order. */
  function ToOthers(log: seq<Sent>, who: Sub): seq<Sent> {
    if log == [] then [] else (if log[0].to == who then [] else [log[0]]) + ToOthers(log[1..], who)
  }

  lemma {:induction false} ToOthersConcat(a: seq<Sent>, b: seq<Sent>, who: Sub)
    ensures ToOthers(a + b, who) == ToOthers(a, who) + ToOthers(b, who)
  {
    if a == [] {
      assert a + b == b && [] + ToOthers(b, who) == ToOthers(b, who);
    } else {
      assert (a + b)[0] == a[0] && (a + b)[1..] == a[1..] + b;
      ToOthersConcat(a[1..], b, who);
      Assoc(if a[0].to == who then [] else [a[0]], ToOthers(a[1..], who), ToOthers(b, who));
    }
  }

  lemma {:induction false} RefusalsUnheard<W>(cfg: Config<W>, log: seq<Sent>)
    requires OnlyRefusals(cfg, log)
    ensures ToOthers(log, cfg.me) == []
  {
    if log != [] {
      assert Refusal(cfg, log[0]);
      assert forall i :: 0 <= i < |log[1..]| ==> log[1..][i] == log[i + 1];
      RefusalsUnheard(cfg, log[1..]);
    }
  }

  /** To everybody but `who` the two nets are the same, and `who` is locked in the first. */
  ghost predicate SameButFor<W>(site: Site<W>, a: Net<W>, b: Net<W>, who: Sub) {
    && a.world == b.world && a.subs == b.subs
    && a.locals.Keys == b.locals.Keys && (forall w :: w in a.locals && w != who ==> a.locals[w] == b.locals[w])
    && ToOthers(a.log, who) == ToOthers(b.log, who)
    && who in a.locals && Locked(Cfg(site, who), LinkOf(a, who))
  }

  /** What is handled does not depend on what was written before. */
  lemma LogOnlyGrows<W>(cfg: Config<W>, l: Link<W>, t: Turn)
    ensures var l0 := Taken(cfg, l.(log := []), t);
      Taken(cfg, l, t) == l0.(log := l.log + l0.log)
  {
    match t {
      case Says(_, v) => HandleLogGrows(cfg, l, v);
      case HangsUp(_) => assert l.log + [] == l.log;
    }
  }

  /** `f` is what a handler makes of `l`, and `f0` of `l` with an empty log. */
  ghost predicate Grows<W>(l: Link<W>, f: Link<W>, f0: Link<W>) {
    f == f0.(log := l.log + f0.log)
  }

  lemma ReplyGrows<W>(cfg: Config<W>, l: Link<W>, v: Value)
    ensures Grows(l, Reply(cfg, l, v), Reply(cfg, l.(log := []), v))
  {
    assert [] + [Sent(cfg.me, v)] == [Sent(cfg.me, v)];
  }

  lemma PubSubGrows<W>(cfg: Config<W>, l: Link<W>, args: seq<Value>)
    requires args != []
    ensures Grows(l, Server.Subscribe(cfg, l, args), Server.Subscribe(cfg, l.(log := []), args))
    ensures Grows(l, Server.Unsubscribe(cfg, l, args), Server.Unsubscribe(cfg, l.(log := []), args))
  {
    hide JoinAll, LeaveEach, Unsubscribed;
    assert [] + JoinAll(l.subs, cfg.me, args[1..]).1 == JoinAll(l.subs, cfg.me, args[1..]).1;
    assert [] + LeaveEach(l.subs, cfg.me, args[1..]).1 == LeaveEach(l.subs, cfg.me, args[1..]).1;
  }

  lemma PublishGrows<W>(cfg: Config<W>, l: Link<W>, args: seq<Value>)
    ensures Grows(l, Publish(cfg, l, args), Publish(cfg, l.(log := []), args))
  {
    hide Messages, Of;
    if |args| >= 3 {
      var to := Of(l.subs, args[1].Str());
      var ms := Messages(to, args[1].Str(), args[2].Str());
      assert [] + ms == ms;
      Assoc(l.log, ms, [Sent(cfg.me, Reported(|to|))]);
    }
  }

  lemma CommandGrows<W>(cfg: Config<W>, l: Link<W>, args: seq<Value>)
    ensures Grows(l, Command(cfg, l, args), Command(cfg, l.(log := []), args))
  {
    hide Step, Unsubscribed;
  }

  lemma HandleLogGrows<W>(cfg: Config<W>, l: Link<W>, v: Value)
    ensures Grows(l, Handle(cfg, l, v), Handle(cfg, l.(log := []), v))
  {
    hide Server.Subscribe, Server.Unsubscribe, Publish, Command, Auth, Reply;
    var args := ToArgs(v);
    if args == [] {
      assert l.log + [] == l.log;
    } else {
      var name := NameOf(cfg, args);
      if !l.authed && name != "AUTH" && name != "QUIT" {
        ReplyGrows(cfg, l, NOAUTH);
      } else if name == "AUTH" {
        var (authed, reply) := Auth(cfg, l.authed, args);
        ReplyGrows(cfg, l.(authed := authed), reply);
      } else if name == "SUBSCRIBE" || name == "UNSUBSCRIBE" {
        PubSubGrows(cfg, l, args);
      } else if name == "PUBLISH" {
        PublishGrows(cfg, l, args);
      } else {
        CommandGrows(cfg, l, args);
      }
    }
  }

  /** A turn of the locked client. */
  lemma LockedTurn<W(!new)>(site: Site<W>, a: Net<W>, b: Net<W>, t: Turn)
    requires ValidEnv(site.env) && SameButFor(site, a, b, t.who)
    requires t.Says? ==> !GoodAuth(Cfg(site, t.who), t.v)
    ensures SameButFor(site, After(site, a, t), b, t.who)
  {
    hide Handle, ValidEnv, GoodAuth, Absent, OnlyRefusals, Unsubscribed;
    var who, cfg := t.who, Cfg(site, t.who);
    if a.locals[who].open {
      var l := LinkOf(a, who);
      var l' := Taken(cfg, l, t);
      match t {
        case Says(_, v) => HandleLocked(cfg, l, v);
        case HangsUp(_) =>
          AbsentUnmissed(cfg, l);
          NothingSaid(cfg, l);
      }
      assert Untouched(cfg, l, l');
      assert l'.log == l.log + l'.log[|l.log|..];
      RefusalsUnheard(cfg, l'.log[|l.log|..]);
      ToOthersConcat(l.log, l'.log[|l.log|..], who);
      assert ToOthers(l.log, who) + [] == ToOthers(l.log, who);
    }
  }

  lemma AbsentUnmissed<W>(cfg: Config<W>, l: Link<W>)
    requires Absent(l.subs, cfg.me)
    ensures Closed(cfg, l) == l.(open := false)
  {
    UnsubscribeAbsent(l.subs, cfg.me);
  }

  lemma StillAbsent(b: Subs, b': Subs, me: Sub, who: Sub)
    requires Absent(b, who) && Mine(b, b', me) && who != me
    ensures Absent(b', who)
  {
    hide Mult, NoEmptyChannel;
  }

  /** A turn of another client. */
  lemma OtherTurn<W(!new)>(site: Site<W>, a: Net<W>, b: Net<W>, t: Turn, who: Sub)
    requires ValidEnv(site.env) && Sound(site, a) && SameButFor(site, a, b, who) && t.who != who
    ensures SameButFor(site, After(site, a, t), After(site, b, t), who)
  {
    hide *;
    AfterSound(site, a, t);
    SameTurn(site, a, b, t, who);
    SameAfterTurn(site, a, b, t, who);
  }

  /** The turn does the same in both nets. */
  ghost predicate Advances<W>(a: Net<W>, a': Net<W>, who: Sub, l0: Link<W>) {
    a' == Back(a, who, l0.(log := a.log + l0.log))
  }

  lemma SameTurn<W(!new)>(site: Site<W>, a: Net<W>, b: Net<W>, t: Turn, who: Sub)
    requires SameButFor(site, a, b, who) && t.who != who
    ensures Moved(a, b, After(site, a, t), After(site, b, t), t.who)
  {
    hide Taken, Locked;
    if t.who in a.locals && a.locals[t.who].open {
      var cfg, la, lb := Cfg(site, t.who), LinkOf(a, t.who), LinkOf(b, t.who);
      assert la.(log := []) == lb.(log := []);
      LogOnlyGrows(cfg, la, t);
      LogOnlyGrows(cfg, lb, t);
      var l0 := Taken(cfg, la.(log := []), t);
      assert Advances(a, After(site, a, t), t.who, l0) && Advances(b, After(site, b, t), t.who, l0);
    }
  }

  ghost predicate Moved<W(!new)>(a: Net<W>, b: Net<W>, a': Net<W>, b': Net<W>, me: Sub) {
    (a' == a && b' == b) || exists l0 :: Advances(a, a', me, l0) && Advances(b, b', me, l0)
  }

  lemma SameAfterTurn<W(!new)>(site: Site<W>, a: Net<W>, b: Net<W>, t: Turn, who: Sub)
    requires SameButFor(site, a, b, who) && t.who != who
    requires Moved(a, b, After(site, a, t), After(site, b, t), t.who)
    requires Mine(a.subs, After(site, a, t).subs, t.who)
    ensures SameButFor(site, After(site, a, t), After(site, b, t), who)
  {
    hide After, Absent, Mine, ToOthers, Advances;
    var a', b' := After(site, a, t), After(site, b, t);
    StillAbsent(a.subs, a'.subs, t.who, who);
    if !(a' == a && b' == b) {
      var l0 :| Advances(a, a', t.who, l0) && Advances(b, b', t.who, l0);
      SameAdvanced(site, a, b, a', b', t.who, who, l0);
    }
  }

  lemma SameAdvanced<W>(site: Site<W>, a: Net<W>, b: Net<W>, a': Net<W>, b': Net<W>, me: Sub, who: Sub, l0: Link<W>)
    requires SameButFor(site, a, b, who) && me != who
    requires Advances(a, a', me, l0) && Advances(b, b', me, l0) && Absent(a'.subs, who)
    ensures SameButFor(site, a', b', who)
  {
    hide Absent, ToOthers;
    ToOthersConcat(a.log, l0.log, who);
    ToOthersConcat(b.log, l0.log, who);
    assert Locked(Cfg(site, who), LinkOf(a', who));
  }

  /** For everybody else a client that does not give the password might as well not be there: in every
      interleaving, without its turns, the store, the broker, the other sessions and all that is written to
      the others are the same; and it stays locked. */
  lemma {:induction false} LockedIsUnseen<W(!new)>(site: Site<W>, a: Net<W>, b: Net<W>, ts: seq<Turn>, who: Sub)
    requires ValidEnv(site.env) && Sound(site, a) && SameButFor(site, a, b, who)
    requires forall i :: 0 <= i < |ts| && ts[i].who == who && ts[i].Says? ==> !GoodAuth(Cfg(site, who), ts[i].v)
    ensures SameButFor(site, AfterAll(site, a, ts), AfterAll(site, b, Without(ts, who)), who)
    decreases |ts|
  {
    hide After, ValidEnv, Sound, SameButFor, GoodAuth;
    if ts != [] {
      var t, rest := ts[0], ts[1..];
      AfterSound(site, a, t);
      assert forall i :: 0 <= i < |rest| ==> rest[i] == ts[i + 1];
      if t.who == who {
        LockedTurn(site, a, b, t);
        assert Without(ts, who) == Without(rest, who);
        LockedIsUnseen(site, After(site, a, t), b, rest, who);
      } else {
        OtherTurn(site, a, b, t, who);
        var others := Without(rest, who);
        assert ([t] + others)[0] == t && ([t] + others)[1..] == others;
        LockedIsUnseen(site, After(site, a, t), After(site, b, t), rest, who);
      }
    }
  }
}
