/** Letter case of command names. */
module Letters {

  function UpperChar(c: char): char {
    if 'a' <= c <= 'z' then (c as int - 32) as char else c
  }

  function LowerChar(c: char): char {
    if 'A' <= c <= 'Z' then (c as int + 32) as char else c
  }

  function Upper(s: string): (r: string)
    ensures |r| == |s|
  {
    seq(|s|, i requires 0 <= i < |s| => UpperChar(s[i]))
  }

  function Lower(s: string): (r: string)
    ensures |r| == |s|
  {
    seq(|s|, i requires 0 <= i < |s| => LowerChar(s[i]))
  }

  predicate Ascii(s: string) {
    forall i :: 0 <= i < |s| ==> s[i] as int < 128
  }

  /** Only letters change, so a text whose upper case is ASCII was ASCII. */
  lemma UpperIsAscii(s: string)
    requires Ascii(Upper(s))
    ensures Ascii(s)
  {
    forall i | 0 <= i < |s| ensures s[i] as int < 128 {
      assert Upper(s)[i] as int < 128;
    }
  }

  /** upperStr: a copy of the bytes, edited in place. */
  method UpperStr(s: string) returns (r: string)
    ensures r == Upper(s)
  {
    var b := new char[|s|](i requires 0 <= i < |s| => s[i]);
    for i := 0 to b.Length
      invariant b[..i] == Upper(s)[..i] && b[i..] == s[i..]
    {
      var c := b[i];
      assert c == b[i..][0] == s[i];
      if 'a' <= c <= 'z' {
        b[i] := (c as int - 32) as char;
      }
      assert b[i + 1..] == s[i + 1..];
    }
    r := b[..];
  }

  method LowerStr(s: string) returns (r: string)
    ensures r == Lower(s)
  {
    var b := new char[|s|](i requires 0 <= i < |s| => s[i]);
    for i := 0 to b.Length
      invariant b[..i] == Lower(s)[..i] && b[i..] == s[i..]
    {
      var c := b[i];
      assert c == b[i..][0] == s[i];
      if 'A' <= c <= 'Z' {
        b[i] := (c as int + 32) as char;
      }
      assert b[i + 1..] == s[i + 1..];
    }
    r := b[..];
  }

  const SMALL := "abcdefghijklmnopqrstuvwxyz"
  const CAPITAL := "ABCDEFGHIJKLMNOPQRSTUVWXYZ"

  lemma SmallLetters(c: char)
    ensures |SMALL| == 26 && forall i :: 0 <= i < 26 ==> SMALL[i] as int == 'a' as int + i
    ensures c in SMALL <==> 'a' <= c <= 'z'
  {
    var s := seq(26, i requires 0 <= i < 26 => ('a' as int + i) as char);
    assert SMALL == s;
    if 'a' <= c <= 'z' {
      assert s[c as int - 'a' as int] == c;
    }
  }

  lemma CapitalLetters(c: char)
    ensures |CAPITAL| == 26 && forall i :: 0 <= i < 26 ==> CAPITAL[i] as int == 'A' as int + i
    ensures c in CAPITAL <==> 'A' <= c <= 'Z'
  {
    var s := seq(26, i requires 0 <= i < 26 => ('A' as int + i) as char);
    assert CAPITAL == s;
    if 'A' <= c <= 'Z' {
      assert s[c as int - 'A' as int] == c;
    }
  }

  /** The upper case of a letter is its capital, the lower case of a capital its small letter, and all else is
      its own. */
  lemma LetterTable(c: char)
    ensures Upper(SMALL) == CAPITAL && Lower(CAPITAL) == SMALL
    ensures c !in SMALL ==> UpperChar(c) == c
    ensures c !in CAPITAL ==> LowerChar(c) == c
  {
    hide SMALL, CAPITAL;
    SmallLetters(c);
    CapitalLetters(c);
  }
}

/** The commands of one connection: lookup and arity, SELECT, and MULTI / EXEC / DISCARD. */
module Session {
  import opened Letters
  import opened Resp
  import D = Decimal

  /** `Plain` is any handler that works on the world (the store and its clock) and the selected database only. */
  datatype Handler<!W> = Multi | Exec | Discard | Select | Plain(run: (W, nat, seq<Value>) -> (W, Value))

  /** A negative `maxArgs` means any number of arguments. */
  datatype Cmd<!W> = Cmd(minArgs: nat, maxArgs: int, handler: Handler<W>)

  /** The registry, and the library's Unicode case mappings, of which little is known. */
  datatype Env<!W> = Env(registry: map<string, Cmd<W>>, upper: string -> string, lower: string -> string)

  datatype Conn<W> = Conn(world: W, db: nat, inMulti: bool, queue: seq<seq<Value>>)

  const OK := Simple("OK")
  const QUEUED := Simple("QUEUED")
  const NESTED := Error("ERR MULTI calls can not be nested")

  function Unknown(name: string): Value { Error("ERR unknown command `" + name + "`") }

  function BadArity(name: string): Value { Error("ERR wrong number of arguments for '" + name + "' command") }

  function Arg(args: seq<Value>, i: nat): string {
    if i < |args| then args[i].Str() else ""
  }

  predicate Fits<W>(cmd: Cmd<W>, n: nat) {
    cmd.minArgs <= n && (cmd.maxArgs >= 0 ==> n <= cmd.maxArgs)
  }

  // ---------------------------------------------------------------- the registry

  /** The names of the commands with a handler of their own, and those handlers. */
  predicate Special(name: string) {
    name == "MULTI" || name == "EXEC" || name == "DISCARD" || name == "SELECT"
  }

  /** Names are ASCII, on which the library's upper case is the usual one. */
  ghost predicate AsciiNames<W>(env: Env<W>) {
    && (forall name :: name in env.registry ==> Ascii(name))
    && (forall s :: Ascii(s) ==> env.upper(s) == Upper(s))
  }

  ghost predicate QuitIsPlain<W(!new)>(cmd: Cmd<W>) {
    && cmd.minArgs == 1 && cmd.maxArgs == 1 && cmd.handler.Plain?
    && forall w, db, args :: cmd.handler.run(w, db, args) == (w, OK)
  }

  ghost predicate ValidEnv<W(!new)>(env: Env<W>) {
    && AsciiNames(env)
    && {"MULTI", "EXEC", "DISCARD", "SELECT", "QUIT"} <= env.registry.Keys
    && env.registry["MULTI"] == Cmd(1, 1, Multi)
    && env.registry["EXEC"] == Cmd(1, 1, Exec)
    && env.registry["DISCARD"] == Cmd(1, 1, Discard)
    && env.registry["SELECT"] == Cmd(2, 2, Select)
    && QuitIsPlain(env.registry["QUIT"])
    && (forall name :: name in env.registry && !Special(name) ==> env.registry[name].handler.Plain?)
    && (forall name :: name in env.registry ==> env.registry[name].minArgs >= 1)
  }

  const OWN: set<string> := {"MULTI", "EXEC", "DISCARD", "SELECT", "QUIT"}

  /** The commands that are registered with a handler of this file, and QUIT. */
  function OwnCmd<W>(name: string): Cmd<W> {
    if name == "MULTI" then Cmd(1, 1, Multi)
    else if name == "EXEC" then Cmd(1, 1, Exec)
    else if name == "DISCARD" then Cmd(1, 1, Discard)
    else if name == "SELECT" then Cmd(2, 2, Select)
    else Cmd(1, 1, Plain((w, _, _) => (w, OK)))
  }

  /** They are registered beside all the others. */
  function Registry<W>(others: map<string, Cmd<W>>): map<string, Cmd<W>> {
    map name | name in others.Keys + OWN :: if name in OWN then OwnCmd(name) else others[name]
  }

  lemma OwnNames(name: string)
    requires name in OWN
    ensures Ascii(name) && (name != "QUIT" ==> Special(name))
  {
    assert Ascii("MULTI") && Ascii("EXEC") && Ascii("DISCARD") && Ascii("SELECT") && Ascii("QUIT");
  }

  lemma QuitIsOther()
    ensures "QUIT" != "EXEC" && "QUIT" != "MULTI" && "QUIT" != "DISCARD" && "QUIT" != "SELECT"
    ensures "EXEC" != "MULTI" && "EXEC" != "DISCARD" && "EXEC" != "SELECT"
    ensures "MULTI" != "DISCARD" && "MULTI" != "SELECT" && "DISCARD" != "SELECT"
  {
    assert "QUIT"[0] == 'Q' && "EXEC"[0] == 'E' && "MULTI"[0] == 'M' && "DISCARD"[0] == 'D' && "SELECT"[0] == 'S';
  }

  lemma OwnCmds<W(!new)>()
    ensures OwnCmd<W>("MULTI") == Cmd(1, 1, Multi) && OwnCmd<W>("EXEC") == Cmd(1, 1, Exec)
    ensures OwnCmd<W>("DISCARD") == Cmd(1, 1, Discard) && OwnCmd<W>("SELECT") == Cmd(2, 2, Select)
    ensures QuitIsPlain(OwnCmd<W>("QUIT"))
  {
    QuitIsOther();
  }

  /** Such a registry is what the results about traces ask for, whatever the plain handlers do. */
  lemma RegistryIsValid<W(!new)>(others: map<string, Cmd<W>>, upper: string -> string, lower: string -> string)
    requires forall s :: Ascii(s) ==> upper(s) == Upper(s)
    requires forall name :: name in others ==> Ascii(name) && others[name].minArgs >= 1 && others[name].handler.Plain?
    ensures ValidEnv(Env(Registry(others), upper, lower))
  {
    hide Ascii, Special, OwnCmd, QuitIsPlain;
    var r := Registry(others);
    OwnCmds<W>();
    forall name | name in r ensures Ascii(name) && r[name].minArgs >= 1 && (!Special(name) ==> r[name].handler.Plain?) {
      if name in OWN {
        OwnNames(name);
        OwnKind<W>(name);
      }
    }
  }

  lemma OwnKind<W>(name: string)
    requires name in OWN
    ensures OwnCmd<W>(name).minArgs >= 1 && (!Special(name) ==> OwnCmd<W>(name).handler.Plain?)
  {
  }

  // ---------------------------------------------------------------- the connection

  function BeginBlock<W>(c: Conn<W>): (Conn<W>, Value) {
    if c.inMulti then (c, NESTED) else (c.(inMulti := true, queue := []), OK)
  }

  function DropBlock<W>(c: Conn<W>): (Conn<W>, Value) {
    if !c.inMulti then (c, Error("ERR DISCARD without MULTI")) else (c.(inMulti := false, queue := []), OK)
  }

  function SelectDb(db: nat, index: string): (nat, Value) {
    var n := D.ParseInt(index);
    if n.None? || n.value < 0 || n.value > 15 then (db, Error("ERR DB index is out of range")) else (n.value, OK)
  }

  /** Dispatch: look the command up, check its arity, run its handler. */
  function Dispatch<W>(env: Env<W>, c: Conn<W>, args: seq<Value>): (r: (Conn<W>, Value))
    ensures c.queue == [] ==> r.0.queue == []
    decreases |c.queue|, 1
  {
    if args == [] then (c, Error("ERR empty command"))
    else
      var name := env.upper(args[0].Str());
      if name !in env.registry then (c, Unknown(env.lower(name)))
      else if !Fits(env.registry[name], |args|) then (c, BadArity(env.lower(name)))
      else
        match env.registry[name].handler
        case Multi => BeginBlock(c)
        case Discard => DropBlock(c)
        case Exec =>
          if !c.inMulti then (c, Error("ERR EXEC without MULTI"))
          else
            var (c', vs) := RunQueue(env, c.(inMulti := false, queue := []), c.queue);
            (c', Array(vs))
        case Select =>
          var (db, v) := SelectDb(c.db, Arg(args, 1));
          (c.(db := db), v)
        case Plain(run) =>
          var (w, v) := run(c.world, c.db, args);
          (c.(world := w), v)
  }

  /** The loop of EXEC over the queue it took. */
  function RunQueue<W>(env: Env<W>, c: Conn<W>, queue: seq<seq<Value>>): (r: (Conn<W>, seq<Value>))
    requires c.queue == []
    ensures r.0.queue == [] && |r.1| == |queue|
    decreases |queue|, 0
  {
    if queue == [] then (c, [])
    else
      var (c1, v) := Dispatch(env, c, queue[0]);
      var (c2, vs) := RunQueue(env, c1, queue[1..]);
      (c2, [v] + vs)
  }

  /** QueueOrDispatch: one command from the client. */
  function Step<W>(env: Env<W>, c: Conn<W>, args: seq<Value>): (Conn<W>, Value) {
    if !c.inMulti then Dispatch(env, c, args)
    else
      var name := Upper(Arg(args, 0));
      if name == "EXEC" || name == "DISCARD" || name == "QUIT" then Dispatch(env, c, args)
      else if name == "MULTI" then (c, NESTED)
      else if name !in env.registry then (c, Unknown(Lower(name)))
      else if |args| < env.registry[name].minArgs then (c, BadArity(Lower(name)))
      else (c.(queue := c.queue + [args]), QUEUED)
  }

  function Run<W>(env: Env<W>, c: Conn<W>, cmds: seq<seq<Value>>): (Conn<W>, seq<Value>)
    decreases |cmds|
  {
    if cmds == [] then (c, [])
    else
      var (c1, v) := Step(env, c, cmds[0]);
      var (c2, vs) := Run(env, c1, cmds[1..]);
      (c2, [v] + vs)
  }

  // ---------------------------------------------------------------- a machine without transactions

  /** One command on a machine that knows no transactions. */
  function Serve<W>(env: Env<W>, w: W, db: nat, args: seq<Value>): (W, nat, Value) {
    if args == [] then (w, db, Error("ERR empty command"))
    else
      var name := env.upper(args[0].Str());
      if name !in env.registry then (w, db, Unknown(env.lower(name)))
      else if !Fits(env.registry[name], |args|) then (w, db, BadArity(env.lower(name)))
      else
        match env.registry[name].handler
        case Multi => (w, db, OK)
        case Discard => (w, db, Error("ERR DISCARD without MULTI"))
        case Exec => (w, db, Error("ERR EXEC without MULTI"))
        case Select => var (db', v) := SelectDb(db, Arg(args, 1)); (w, db', v)
        case Plain(run) => var (w', v) := run(w, db, args); (w', db, v)
  }

  function ServeAll<W>(env: Env<W>, w: W, db: nat, cmds: seq<seq<Value>>): (r: (W, nat, seq<Value>))
    ensures |r.2| == |cmds|
    decreases |cmds|
  {
    if cmds == [] then (w, db, [])
    else
      var (w1, db1, v) := Serve(env, w, db, cmds[0]);
      var (w2, db2, vs) := ServeAll(env, w1, db1, cmds[1..]);
      (w2, db2, [v] + vs)
  }

  lemma {:induction false} ServeAllConcat<W>(env: Env<W>, w: W, db: nat, xs: seq<seq<Value>>, ys: seq<seq<Value>>)
    ensures var (w1, db1, us) := ServeAll(env, w, db, xs);
      var (w2, db2, vs) := ServeAll(env, w1, db1, ys);
      ServeAll(env, w, db, xs + ys) == (w2, db2, us + vs)
    decreases |xs|
  {
    hide Serve;
    if xs == [] {
      assert xs + ys == ys;
      assert ServeAll(env, w, db, xs) == (w, db, []);
      assert [] + ServeAll(env, w, db, ys).2 == ServeAll(env, w, db, ys).2;
    } else {
      assert (xs + ys)[0] == xs[0] && (xs + ys)[1..] == xs[1..] + ys;
      var (w1, db1, v) := Serve(env, w, db, xs[0]);
      ServeAllConcat(env, w1, db1, xs[1..], ys);
      var (w2, db2, us) := ServeAll(env, w1, db1, xs[1..]);
      var vs := ServeAll(env, w2, db2, ys).2;
      assert [v] + (us + vs) == ([v] + us) + vs;
    }
  }

  // ---------------------------------------------------------------- what a command is, by its name alone

  datatype Class = Direct | Begin | Commit | Abort | Enqueue | Answer(reply: Value)

  /** What becomes of a command: it depends on the mode and the text of the command, not on the world. */
  function Classify<W>(env: Env<W>, inMulti: bool, args: seq<Value>): Class {
    var name := Upper(Arg(args, 0));
    if !inMulti then
      if |args| == 1 && env.upper(args[0].Str()) == "MULTI" then Begin else Direct
    else if name == "EXEC" then if |args| == 1 then Commit else Answer(BadArity(env.lower(name)))
    else if name == "DISCARD" then if |args| == 1 then Abort else Answer(BadArity(env.lower(name)))
    else if name == "QUIT" then Answer(if |args| == 1 then OK else BadArity(env.lower(name)))
    else if name == "MULTI" then Answer(NESTED)
    else if name !in env.registry then Answer(Unknown(Lower(name)))
    else if |args| < env.registry[name].minArgs then Answer(BadArity(Lower(name)))
    else Enqueue
  }

  /** What may stand in the queue. */
  predicate Queueable<W>(env: Env<W>, args: seq<Value>) {
    && args != []
    && var name := Upper(args[0].Str());
       && name in env.registry && env.registry[name].minArgs <= |args|
       && name != "MULTI" && name != "EXEC" && name != "DISCARD" && name != "QUIT"
  }

  /** What holds of a connection at all times. */
  ghost predicate Sane<W>(env: Env<W>, c: Conn<W>) {
    && c.db <= 15
    && (!c.inMulti ==> c.queue == [])
    && forall i :: 0 <= i < |c.queue| ==> Queueable(env, c.queue[i])
  }

  lemma NameInRegistry<W(!new)>(env: Env<W>, raw: string)
    requires ValidEnv(env) && Upper(raw) in env.registry
    ensures env.upper(raw) == Upper(raw)
  {
    UpperIsAscii(raw);
  }

  lemma QueueableIsDirect<W(!new)>(env: Env<W>, args: seq<Value>)
    requires ValidEnv(env) && Queueable(env, args)
    ensures Classify(env, false, args) == Direct
  {
    NameInRegistry(env, args[0].Str());
  }

  /** Outside a transaction, a command that opens none is served as on the machine without transactions. */
  lemma DispatchServes<W(!new)>(env: Env<W>, c: Conn<W>, args: seq<Value>)
    requires ValidEnv(env) && !c.inMulti && Classify(env, false, args) == Direct
    ensures var (w, db, v) := Serve(env, c.world, c.db, args);
      Dispatch(env, c, args) == (c.(world := w, db := db), v)
  {
  }

  /** EXEC serves its queue; it never begins, queues or ends a transaction on the way. */
  lemma {:induction false} QueueServes<W(!new)>(env: Env<W>, c: Conn<W>, queue: seq<seq<Value>>)
    requires ValidEnv(env) && !c.inMulti && c.queue == []
    requires forall i :: 0 <= i < |queue| ==> Queueable(env, queue[i])
    ensures var (w, db, vs) := ServeAll(env, c.world, c.db, queue);
      RunQueue(env, c, queue) == (c.(world := w, db := db), vs)
    decreases |queue|
  {
    if queue != [] {
      hide Dispatch, Serve, Queueable, ValidEnv, Classify;
      QueueableIsDirect(env, queue[0]);
      DispatchServes(env, c, queue[0]);
      var (w, db, v) := Serve(env, c.world, c.db, queue[0]);
      QueueServes(env, c.(world := w, db := db), queue[1..]);
    }
  }

  /** What a command of each class does. */
  ghost predicate Does<W>(env: Env<W>, c: Conn<W>, args: seq<Value>, c': Conn<W>, reply: Value) {
    match Classify(env, c.inMulti, args)
    case Direct =>
      var (w, db, v) := Serve(env, c.world, c.db, args);
      c' == c.(world := w, db := db) && reply == v
    case Begin => c' == c.(inMulti := true, queue := []) && reply == OK
    case Commit =>
      var (w, db, vs) := ServeAll(env, c.world, c.db, c.queue);
      c' == Conn(w, db, false, []) && reply == Array(vs)
    case Abort => c' == c.(inMulti := false, queue := []) && reply == OK
    case Enqueue => c' == c.(queue := c.queue + [args]) && reply == QUEUED
    case Answer(v) => c' == c && reply == v
  }

  lemma NamesEnd<W(!new)>(env: Env<W>, c: Conn<W>, args: seq<Value>)
    requires ValidEnv(env) && Sane(env, c) && c.inMulti && args != []
    requires var name := Upper(args[0].Str()); name == "EXEC" || name == "DISCARD" || name == "QUIT"
    ensures Does(env, c, args, Dispatch(env, c, args).0, Dispatch(env, c, args).1)
  {
    NameInRegistry(env, args[0].Str());
    if Classify(env, true, args) == Commit {
      hide Serve, RunQueue, ServeAll, Queueable;
      QueueServes(env, c.(inMulti := false, queue := []), c.queue);
    }
  }

  lemma StepDoes<W(!new)>(env: Env<W>, c: Conn<W>, args: seq<Value>)
    requires ValidEnv(env) && Sane(env, c)
    ensures Does(env, c, args, Step(env, c, args).0, Step(env, c, args).1)
  {
    hide RunQueue, ServeAll;
    var name := Upper(Arg(args, 0));
    if !c.inMulti {
      if Classify(env, false, args) == Direct {
        hide Dispatch, Serve;
        DispatchServes(env, c, args);
      }
    } else if name == "EXEC" || name == "DISCARD" || name == "QUIT" {
      hide Dispatch, Serve, Does, Classify, Sane, ValidEnv;
      NamesEnd(env, c, args);
    } else {
      hide Dispatch, Serve;
    }
  }

  lemma {:induction false} ServeAllInRange<W>(env: Env<W>, w: W, db: nat, cmds: seq<seq<Value>>)
    requires db <= 15
    ensures ServeAll(env, w, db, cmds).1 <= 15
    decreases |cmds|
  {
    if cmds != [] {
      var (w1, db1, _) := Serve(env, w, db, cmds[0]);
      ServeAllInRange(env, w1, db1, cmds[1..]);
    }
  }

  /** Every command keeps the database index in range, the queue empty outside MULTI, and the queue free of
      unknown commands, too short ones and the ones that end or nest a transaction. */
  lemma StepKeepsSane<W(!new)>(env: Env<W>, c: Conn<W>, args: seq<Value>)
    requires ValidEnv(env) && Sane(env, c)
    ensures Sane(env, Step(env, c, args).0)
  {
    hide Step, ServeAll, Serve, Upper, AsciiNames;
    StepDoes(env, c, args);
    ServeAllInRange(env, c.world, c.db, c.queue);
    ServeInRange(env, c.world, c.db, args);
  }

  lemma ServeInRange<W>(env: Env<W>, w: W, db: nat, args: seq<Value>)
    requires db <= 15
    ensures Serve(env, w, db, args).1 <= 15
  {
  }

  lemma {:induction false} RunKeepsSane<W(!new)>(env: Env<W>, c: Conn<W>, cmds: seq<seq<Value>>)
    requires ValidEnv(env) && Sane(env, c)
    ensures Sane(env, Run(env, c, cmds).0)
    decreases |cmds|
  {
    if cmds != [] {
      hide Step, Sane, ValidEnv;
      StepKeepsSane(env, c, cmds[0]);
      RunKeepsSane(env, Step(env, c, cmds[0]).0, cmds[1..]);
    }
  }

  // ---------------------------------------------------------------- MULTI elimination

  /** The trace with its transactions taken out: executed blocks are replaced by their queued commands at
      the place of EXEC; discarded and unfinished blocks, and what is refused inside a block, are gone. */
  function Flatten<W>(env: Env<W>, inMulti: bool, queue: seq<seq<Value>>, cmds: seq<seq<Value>>): seq<seq<Value>>
    decreases |cmds|
  {
    if cmds == [] then []
    else
      match Classify(env, inMulti, cmds[0])
      case Direct => [cmds[0]] + Flatten(env, inMulti, queue, cmds[1..])
      case Begin => Flatten(env, true, [], cmds[1..])
      case Commit => queue + Flatten(env, false, [], cmds[1..])
      case Abort => Flatten(env, false, [], cmds[1..])
      case Enqueue => Flatten(env, inMulti, queue + [cmds[0]], cmds[1..])
      case Answer(_) => Flatten(env, inMulti, queue, cmds[1..])
  }

  /** The replies of the client, given those to the flattened trace: EXEC gathers the ones to its block. */
  function Regroup<W>(env: Env<W>, inMulti: bool, queue: seq<seq<Value>>, cmds: seq<seq<Value>>, vs: seq<Value>)
    : seq<Value>
    requires |vs| == |Flatten(env, inMulti, queue, cmds)|
    decreases |cmds|
  {
    if cmds == [] then []
    else
      match Classify(env, inMulti, cmds[0])
      case Direct => [vs[0]] + Regroup(env, inMulti, queue, cmds[1..], vs[1..])
      case Begin => [OK] + Regroup(env, true, [], cmds[1..], vs)
      case Commit => [Array(vs[..|queue|])] + Regroup(env, false, [], cmds[1..], vs[|queue|..])
      case Abort => [OK] + Regroup(env, false, [], cmds[1..], vs)
      case Enqueue => [QUEUED] + Regroup(env, inMulti, queue + [cmds[0]], cmds[1..], vs)
      case Answer(v) => [v] + Regroup(env, inMulti, queue, cmds[1..], vs)
  }

  ghost predicate Eliminated<W>(env: Env<W>, c: Conn<W>, cmds: seq<seq<Value>>, c': Conn<W>, replies: seq<Value>) {
    var (w, db, vs) := ServeAll(env, c.world, c.db, Flatten(env, c.inMulti, c.queue, cmds));
    c'.world == w && c'.db == db && replies == Regroup(env, c.inMulti, c.queue, cmds, vs)
  }

  lemma EliminateFirst<W>(env: Env<W>, c: Conn<W>, cmds: seq<seq<Value>>, c1: Conn<W>, v: Value,
                          c': Conn<W>, vs: seq<Value>)
    requires cmds != [] && Does(env, c, cmds[0], c1, v)
    requires Eliminated(env, c1, cmds[1..], c', vs)
    ensures Eliminated(env, c, cmds, c', [v] + vs)
  {
    hide Classify, Serve;
    var rest := Flatten(env, c1.inMulti, c1.queue, cmds[1..]);
    match Classify(env, c.inMulti, cmds[0]) {
      case Direct =>
        assert ([cmds[0]] + rest)[1..] == rest;
      case Commit =>
        hide ServeAll;
        ServeAllConcat(env, c.world, c.db, c.queue, rest);
        var (w, db, us) := ServeAll(env, c.world, c.db, c.queue);
        var ts := ServeAll(env, w, db, rest).2;
        assert (us + ts)[..|c.queue|] == us && (us + ts)[|c.queue|..] == ts;
      case _ =>
        hide ServeAll;
    }
  }

  /** For every trace of commands on one connection, the final world, the selected database and all replies
      are those of the flattened trace on a machine that knows no transactions. */
  lemma {:induction false} MultiElimination<W(!new)>(env: Env<W>, c: Conn<W>, cmds: seq<seq<Value>>)
    requires ValidEnv(env) && Sane(env, c)
    ensures Eliminated(env, c, cmds, Run(env, c, cmds).0, Run(env, c, cmds).1)
    decreases |cmds|
  {
    if cmds != [] {
      hide Step, Sane, Eliminated, Does, ValidEnv;
      var (c1, v) := Step(env, c, cmds[0]);
      StepDoes(env, c, cmds[0]);
      StepKeepsSane(env, c, cmds[0]);
      MultiElimination(env, c1, cmds[1..]);
      EliminateFirst(env, c, cmds, c1, v, Run(env, c1, cmds[1..]).0, Run(env, c1, cmds[1..]).1);
    }
  }

  /** Result i of EXEC is the reply to queued command i from the state that commands 0 to i-1 leave. */
  lemma ExecResult<W(!new)>(env: Env<W>, c: Conn<W>, args: seq<Value>, i: nat)
    requires ValidEnv(env) && Sane(env, c) && c.inMulti && i < |c.queue|
    requires Classify(env, true, args) == Commit
    ensures var reply := Step(env, c, args).1;
      var (w, db, _) := ServeAll(env, c.world, c.db, c.queue[..i]);
      && reply.Array? && |reply.elems| == |c.queue|
      && reply.elems[i] == Serve(env, w, db, c.queue[i]).2
  {
    hide Step, Serve, Classify, Sane, ValidEnv;
    StepDoes(env, c, args);
    var q := c.queue;
    assert q == q[..i] + q[i..] && q[i..][0] == q[i];
    ServeAllConcat(env, c.world, c.db, q[..i], q[i..]);
  }

  // ---------------------------------------------------------------- what single commands do

  /** The command is `name`, in any case of letters. */
  predicate Named(args: seq<Value>, name: string) {
    args != [] && Upper(args[0].Str()) == name
  }

  /** The number that an index text stands for, if it is one of a database. */
  function DbIndex(text: string): D.Option<nat> {
    var n := D.ParseInt(text);
    if n.Some? && 0 <= n.value <= 15 then D.Some(n.value) else D.None
  }

  /** Outside a transaction SELECT selects the database that its argument names, and refuses every other. */
  lemma SelectSelects<W(!new)>(env: Env<W>, c: Conn<W>, args: seq<Value>)
    requires ValidEnv(env) && !c.inMulti && Named(args, "SELECT") && |args| == 2
    ensures var i := DbIndex(args[1].Str());
      Step(env, c, args)
      == if i.Some? then (c.(db := i.value), Simple("OK")) else (c, Error("ERR DB index is out of range"))
  {
    hide RunQueue, D.ParseInt;
    NameInRegistry(env, args[0].Str());
  }

  lemma IndexFormatted(n: nat)
    requires n <= 15
    ensures DbIndex(D.FormatInt(n)) == D.Some(n)
  {
    D.ParseFormat(n);
  }

  /** Outside a transaction a plain command runs its handler on the world and the selected database when it
      has as many arguments as it may have; otherwise it is refused and nothing changes. */
  lemma PlainServed<W(!new)>(env: Env<W>, c: Conn<W>, args: seq<Value>, cmd: Cmd<W>)
    requires ValidEnv(env) && !c.inMulti && args != []
    requires var name := Upper(args[0].Str()); name in env.registry && env.registry[name] == cmd && cmd.handler.Plain?
    ensures Step(env, c, args)
         == if cmd.minArgs <= |args| && (cmd.maxArgs < 0 || |args| <= cmd.maxArgs) then
              (c.(world := cmd.handler.run(c.world, c.db, args).0), cmd.handler.run(c.world, c.db, args).1)
            else
              (c, Error("ERR wrong number of arguments for '" + env.lower(Upper(args[0].Str())) + "' command"))
  {
    hide RunQueue;
    NameInRegistry(env, args[0].Str());
  }

  lemma UnknownRefused<W>(env: Env<W>, c: Conn<W>, args: seq<Value>)
    requires !c.inMulti && args != [] && env.upper(args[0].Str()) !in env.registry
    ensures Step(env, c, args) == (c, Error("ERR unknown command `" + env.lower(env.upper(args[0].Str())) + "`"))
  {
    hide RunQueue;
  }

  /** The commands that open, end and drop a block, and the queueing in between, with their replies. */
  lemma BlockReplies<W(!new)>(env: Env<W>, c: Conn<W>, args: seq<Value>)
    requires ValidEnv(env) && Sane(env, c) && args != []
    ensures Named(args, "MULTI") && |args| == 1 && !c.inMulti ==>
      Step(env, c, args) == (c.(inMulti := true), Simple("OK"))
    ensures Named(args, "MULTI") && c.inMulti ==>
      Step(env, c, args) == (c, Error("ERR MULTI calls can not be nested"))
    ensures Named(args, "EXEC") && |args| == 1 && !c.inMulti ==>
      Step(env, c, args) == (c, Error("ERR EXEC without MULTI"))
    ensures Named(args, "DISCARD") && |args| == 1 && !c.inMulti ==>
      Step(env, c, args) == (c, Error("ERR DISCARD without MULTI"))
    ensures Named(args, "DISCARD") && |args| == 1 && c.inMulti ==>
      Step(env, c, args) == (c.(inMulti := false, queue := []), Simple("OK"))
    ensures c.inMulti && Queueable(env, args) ==>
      Step(env, c, args) == (c.(queue := c.queue + [args]), Simple("QUEUED"))
  {
    hide Queueable, Step, ServeAll;
    StepDoes(env, c, args);
    if Upper(args[0].Str()) in env.registry {
      NameInRegistry(env, args[0].Str());
    }
    QueueableText(env, args);
  }

  /** Inside a block a command that is unknown or too short is refused by name, and nothing is queued. */
  lemma BlockRefuses<W(!new)>(env: Env<W>, c: Conn<W>, args: seq<Value>)
    requires ValidEnv(env) && Sane(env, c) && c.inMulti && args != []
    requires var name := Upper(args[0].Str());
      name != "MULTI" && name != "EXEC" && name != "DISCARD" && name != "QUIT"
    ensures var name := Upper(args[0].Str());
      && (name !in env.registry ==>
            Step(env, c, args) == (c, Error("ERR unknown command `" + Lower(name) + "`")))
      && (name in env.registry && |args| < env.registry[name].minArgs ==>
            Step(env, c, args) == (c, Error("ERR wrong number of arguments for '" + Lower(name) + "' command")))
  {
    hide Dispatch, RunQueue, ServeAll, Serve;
  }

  lemma NothingSent<W>(env: Env<W>, c: Conn<W>)
    requires !c.inMulti
    ensures Step(env, c, []) == (c, Error("ERR empty command"))
  {
  }

  lemma QueueableText<W>(env: Env<W>, args: seq<Value>)
    ensures Queueable(env, args) <==> args != [] && Classify(env, true, args) == Enqueue
  {
  }

  /** So a plain command after SELECT n works on database n. */
  lemma SelectedIsUsed<W(!new)>(env: Env<W>, c: Conn<W>, name: Value, n: nat, args: seq<Value>, cmd: Cmd<W>)
    requires ValidEnv(env) && !c.inMulti && Upper(name.Str()) == "SELECT" && n <= 15 && args != []
    requires var name := Upper(args[0].Str()); name in env.registry && env.registry[name] == cmd && cmd.handler.Plain?
    requires cmd.minArgs <= |args| && (cmd.maxArgs < 0 || |args| <= cmd.maxArgs)
    ensures var (w, v) := cmd.handler.run(c.world, n, args);
      Run(env, c, [[name, Bulk(D.FormatInt(n))], args]) == (c.(world := w, db := n), [Simple("OK"), v])
  {
    hide Step, D.FormatInt, ValidEnv;
    var select := [name, Bulk(D.FormatInt(n))];
    SelectSelects(env, c, select);
    IndexFormatted(n);
    PlainServed(env, c.(db := n), args, cmd);
    RunTwo(env, c, select, args);
  }

  lemma RunTwo<W>(env: Env<W>, c: Conn<W>, x: seq<Value>, y: seq<Value>)
    ensures var (c1, v) := Step(env, c, x);
      Run(env, c, [x, y]) == (Step(env, c1, y).0, [v, Step(env, c1, y).1])
  {
    hide Step;
    var (c1, v) := Step(env, c, x);
    var (c2, u) := Step(env, c1, y);
    RunNone(env, c2);
    RunFirst(env, c1, [y]);
    RunFirst(env, c, [x, y]);
    assert [x, y][1..] == [y] && [y][1..] == [] && [u] + [] == [u] && [v] + [u] == [v, u];
  }

  lemma RunNone<W>(env: Env<W>, c: Conn<W>)
    ensures Run(env, c, []) == (c, [])
  {
  }

  lemma RunFirst<W>(env: Env<W>, c: Conn<W>, cmds: seq<seq<Value>>)
    requires cmds != []
    ensures var (c1, v) := Step(env, c, cmds[0]);
      var (c2, vs) := Run(env, c1, cmds[1..]);
      Run(env, c, cmds) == (c2, [v] + vs)
  {
    hide Step;
  }

  /** The index of the last SELECT that is accepted, or `db` when there is none. */
  function LastSelected<W>(env: Env<W>, db: nat, cmds: seq<seq<Value>>): nat
    decreases |cmds|
  {
    if cmds == [] then db
    else
      var args := cmds[|cmds| - 1];
      if |args| == 2 && env.upper(args[0].Str()) == "SELECT" && DbIndex(args[1].Str()).Some?
      then DbIndex(args[1].Str()).value
      else LastSelected(env, db, cmds[..|cmds| - 1])
  }

  lemma ServeSelects<W(!new)>(env: Env<W>, w: W, db: nat, args: seq<Value>)
    requires ValidEnv(env)
    ensures Serve(env, w, db, args).1
         == if |args| == 2 && env.upper(args[0].Str()) == "SELECT" && DbIndex(args[1].Str()).Some?
            then DbIndex(args[1].Str()).value else db
  {
    hide D.ParseInt;
  }

  lemma {:induction false} ServeAllSelects<W(!new)>(env: Env<W>, w: W, db: nat, cmds: seq<seq<Value>>)
    requires ValidEnv(env)
    ensures ServeAll(env, w, db, cmds).1 == LastSelected(env, db, cmds)
    decreases |cmds|
  {
    if cmds != [] {
      hide Serve, DbIndex, ValidEnv;
      var n := |cmds| - 1;
      var (init, args) := (cmds[..n], cmds[n]);
      assert cmds == init + [args] && [args][1..] == [];
      ServeAllSelects(env, w, db, init);
      ServeAllConcat(env, w, db, init, [args]);
      var (w1, db1, _) := ServeAll(env, w, db, init);
      ServeSelects(env, w1, db1, args);
      ServeOne(env, w1, db1, args);
    }
  }

  lemma ServeOne<W>(env: Env<W>, w: W, db: nat, args: seq<Value>)
    ensures ServeAll(env, w, db, [args]) == (Serve(env, w, db, args).0, Serve(env, w, db, args).1, [Serve(env, w, db, args).2])
  {
    hide Serve;
    var (w1, db1, v) := Serve(env, w, db, args);
    assert [args][1..] == [] && ServeAll(env, w1, db1, []) == (w1, db1, []) && [v] + [] == [v];
  }

  /** Over every trace, the selected database is that of the last SELECT accepted in the flattened trace. */
  lemma TraceSelects<W(!new)>(env: Env<W>, c: Conn<W>, cmds: seq<seq<Value>>)
    requires ValidEnv(env) && Sane(env, c)
    ensures Run(env, c, cmds).0.db == LastSelected(env, c.db, Flatten(env, c.inMulti, c.queue, cmds))
  {
    hide Run, ServeAll, Flatten, Regroup, ValidEnv, Sane, LastSelected;
    MultiElimination(env, c, cmds);
    ServeAllSelects(env, c.world, c.db, Flatten(env, c.inMulti, c.queue, cmds));
  }
}

/** The connection object and its handlers. */
module ClientConns {
  import opened Letters
  import opened Resp
  import opened Session
  import Sequences
  import D = Decimal

  class ClientConn<W(!new)> {
    var world: W
    var db: nat
    var inMulti: bool
    var queued: seq<seq<Value>>

    function State(): Conn<W>
      reads this
    {
      Conn(world, db, inMulti, queued)
    }

    constructor (w: W)
      ensures State() == Conn(w, 0, false, [])
    {
      world, db, inMulti, queued := w, 0, false, [];
    }

    method CmdMulti() returns (r: Value)
      modifies this
      ensures (State(), r) == BeginBlock(old(State()))
    {
      if inMulti {
        return Error("ERR MULTI calls can not be nested");
      }
      inMulti, queued := true, [];
      r := Simple("OK");
    }

    method CmdDiscard() returns (r: Value)
      modifies this
      ensures (State(), r) == DropBlock(old(State()))
    {
      if !inMulti {
        return Error("ERR DISCARD without MULTI");
      }
      inMulti, queued := false, [];
      r := Simple("OK");
    }

    method CmdSelect(index: string) returns (r: Value)
      modifies this
      ensures (State(), r) == (old(State()).(db := SelectDb(old(db), index).0), SelectDb(old(db), index).1)
    {
      var n := D.ParseInt(index);
      if n.None? || n.value < 0 || n.value > 15 {
        return Error("ERR DB index is out of range");
      }
      db := n.value;
      r := Simple("OK");
    }

    method CmdExec(env: Env<W>) returns (r: Value)
      modifies this
      ensures old(inMulti) ==>
        var c := old(State());
        var (c', vs) := RunQueue(env, c.(inMulti := false, queue := []), c.queue);
        State() == c' && r == Array(vs)
      ensures !old(inMulti) ==> State() == old(State()) && r == Error("ERR EXEC without MULTI")
      decreases |queued|, 0
    {
      if !inMulti {
        return Error("ERR EXEC without MULTI");
      }
      hide Session.Dispatch;
      inMulti := false;
      var queue := queued;
      queued := [];
      ghost var all := RunQueue(env, State(), queue);
      var results := new Value[|queue|](_ => NullBulk);
      assert queue[0..] == queue;
      assert results[..0] == [] && [] + all.1 == all.1;
      for i := 0 to |queue|
        invariant queued == []
        invariant all.0 == RunQueue(env, State(), queue[i..]).0
        invariant all.1 == results[..i] + RunQueue(env, State(), queue[i..]).1
      {
        ghost var done, left := results[..i], queue[i..];
        assert left[0] == queue[i] && left[1..] == queue[i + 1..];
        ghost var c := State();
        var v := Dispatch(env, queue[i]);
        results[i] := v;
        assert results[..i + 1] == done + [v];
        Sequences.Assoc(done, [v], RunQueue(env, State(), queue[i + 1..]).1);
      }
      assert queue[|queue|..] == [];
      assert results[..] + [] == results[..|queue|];
      r := Array(results[..]);
    }

    method Dispatch(env: Env<W>, args: seq<Value>) returns (r: Value)
      modifies this
      ensures (State(), r) == Session.Dispatch(env, old(State()), args)
      decreases |queued|, 1
    {
      if |args| == 0 {
        return Error("ERR empty command");
      }
      var name := env.upper(args[0].Str());
      if name !in env.registry {
        return Unknown(env.lower(name));
      }
      var cmd := env.registry[name];
      if |args| < cmd.minArgs {
        return BadArity(env.lower(name));
      }
      if cmd.maxArgs >= 0 && |args| > cmd.maxArgs {
        return BadArity(env.lower(name));
      }
      match cmd.handler {
        case Multi => r := CmdMulti();
        case Discard => r := CmdDiscard();
        case Exec => r := CmdExec(env);
        case Select => r := CmdSelect(Arg(args, 1));
        case Plain(run) =>
          var (w, v) := run(world, db, args);
          world := w;
          r := v;
      }
    }

    method QueueOrDispatch(env: Env<W>, args: seq<Value>) returns (r: Value)
      modifies this
      ensures (State(), r) == Step(env, old(State()), args)
    {
      hide Session.Dispatch;
      if !inMulti {
        r := Dispatch(env, args);
        return;
      }
      var name := "";
      if |args| > 0 {
        name := UpperStr(args[0].Str());
      }
      if name == "EXEC" || name == "DISCARD" || name == "QUIT" {
        r := Dispatch(env, args);
        return;
      } else if name == "MULTI" {
        return Error("ERR MULTI calls can not be nested");
      }
      var lower := LowerStr(name);
      if name !in env.registry {
        return Unknown(lower);
      }
      if |args| < env.registry[name].minArgs {
        return BadArity(lower);
      }
      queued := queued + [args];
      r := Simple("QUEUED");
    }
  }
}
