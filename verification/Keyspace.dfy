/** The abstract keyspace: what each command means for the value and deadline of the keys it names. */
module Keyspace {
  import opened Decimal
  import opened Sequences
  import opened ListEdits
  import opened Ranking
  import Glob

  datatype Id = Id(db: nat, key: string)

  datatype Kind = KString | KList | KHash | KSet | KZSet

  datatype Content =
    | Str(text: string)
    | List(items: seq<string>)
    | Hash(fields: map<string, string>)
    | Set(members: set<string>)
    | ZSet(scores: Table)

  function KindOf(c: Content): Kind {
    match c
    case Str(_) => KString
    case List(_) => KList
    case Hash(_) => KHash
    case Set(_) => KSet
    case ZSet(_) => KZSet
  }

  /** `deadline` is a Unix time in milliseconds. */
  datatype Entry = Entry(content: Content, deadline: Option<int>)

  type Space = map<Id, Entry>

  datatype Reply =
    | Bool(b: bool) | Int(n: int) | Missing | Text(text: string) | Texts(texts: seq<string>)
    | Members(names: set<string>) | Fields(fields: map<string, string>) | Points(score: Score)
    | TypeName(kind: Option<Kind>) | Done
    | WrongType | NoSuchKey | NotInteger | OutOfRange | Crashed

  // ---------------------------------------------------------------- operations on one key

  datatype KeyOp = ExpireAt(at: int) | TimeToLive(millis: bool) | Persist | TypeOf

  datatype StrOp =
    | Get | SetText(value: string, expires: Option<int>, nx: bool, xx: bool)
    | IncrBy(delta: Int64) | Append(suffix: string) | StrLen

  datatype ListOp =
    | LPush(values: seq<string>) | RPush(values: seq<string>) | LPop | RPop | LLen
    | LRange(start: Int64, stop: Int64) | LIndex(index: Int64) | LSet(index: Int64, value: string)
    | LInsert(before: bool, pivot: string, value: string) | LRem(count: Int64, value: string)

  datatype HashOp =
    | HSet(pairs: map<string, string>) | HGet(field: string) | HDel(names: seq<string>) | HGetAll | HLen

  datatype SetOp =
    | SAdd(names: seq<string>) | SRem(names: seq<string>) | SMembers | SIsMember(name: string) | SCard

  datatype ZOp =
    | ZAdd(scores: Table, nx: bool, xx: bool) | ZRem(names: seq<string>) | ZScore(name: string) | ZRank(name: string)
    | ZRange(start: Int64, stop: Int64) | ZRangeByScore(min: Bound, max: Bound)
    | ZCount(min: Bound, max: Bound) | ZCard

  datatype Op =
    | OnKey(k: KeyOp) | OnString(s: StrOp) | OnList(l: ListOp) | OnHash(h: HashOp) | OnSet(m: SetOp) | OnZSet(z: ZOp)

  /** The type an operation insists on; the generic ones insist on none. */
  function Wants(op: Op): Option<Kind> {
    match op
    case OnKey(_) => None
    case OnString(_) => Some(KString)
    case OnList(_) => Some(KList)
    case OnHash(_) => Some(KHash)
    case OnSet(_) => Some(KSet)
    case OnZSet(_) => Some(KZSet)
  }

  predicate Mismatch(op: Op, e: Option<Entry>) {
    e.Some? && Wants(op).Some? && Wants(op).value != KindOf(e.value.content)
  }

  function DeadlineOf(e: Option<Entry>): Option<int> {
    if e.None? then None else e.value.deadline
  }

  function DoKey(op: KeyOp, e: Option<Entry>, now: int): (Option<Entry>, Reply) {
    match op
    case ExpireAt(at) =>
      if e.None? then (e, Bool(false)) else (Some(e.value.(deadline := Some(at))), Bool(true))
    case TimeToLive(millis) =>
      if e.None? then (e, Int(-2))
      else if e.value.deadline.None? then (e, Int(-1))
      else
        var rem := e.value.deadline.value - now;
        (e, Int(if rem < 0 then -2 else if millis then rem else rem / 1000))
    case Persist =>
      if DeadlineOf(e).None? then (e, Bool(false)) else (Some(e.value.(deadline := None)), Bool(true))
    case TypeOf => (e, TypeName(if e.None? then None else Some(KindOf(e.value.content))))
  }

  function DoString(op: StrOp, e: Option<Entry>): (Option<Entry>, Reply)
    requires e.Some? ==> e.value.content.Str?
  {
    match op
    case Get => (e, if e.None? then Missing else Text(e.value.content.text))
    case StrLen => (e, Int(if e.None? then 0 else |e.value.content.text|))
    case SetText(value, expires, nx, xx) =>
      if (nx && e.Some?) || (xx && e.None?) then (e, Bool(false))
      else (Some(Entry(Str(value), expires)), Bool(true))
    case Append(suffix) =>
      var text := (if e.None? then "" else e.value.content.text) + suffix;
      (Some(Entry(Str(text), DeadlineOf(e))), Int(|text|))
    case IncrBy(delta) =>
      var cur := if e.None? then Some(0) else ParseInt(e.value.content.text);
      if cur.None? then (e, NotInteger)
      else
        var next := Wrap(cur.value + delta);
        (Some(Entry(Str(FormatInt(next)), DeadlineOf(e))), Int(next))
  }

  /** List operations are operations on a sequence; an absent key is the empty sequence. */
  function DoList(op: ListOp, s: seq<string>): (seq<string>, Reply) {
    match op
    case LPush(values) => (Reverse(values) + s, Int(|values| + |s|))
    case RPush(values) => (s + values, Int(|s| + |values|))
    case LPop => if s == [] then (s, Missing) else (s[1..], Text(s[0]))
    case RPop => if s == [] then (s, Missing) else (s[..|s| - 1], Text(s[|s| - 1]))
    case LLen => (s, Int(|s|))
    case LRange(start, stop) => (s, Texts(Range(s, start, stop)))
    case LIndex(index) =>
      var i := Norm(|s|, index);
      (s, if 0 <= i < |s| then Text(s[i]) else Missing)
    case LSet(index, value) =>
      var i := Norm(|s|, index);
      if 0 <= i < |s| then (s[i := value], Done) else (s, OutOfRange)
    case LInsert(before, pivot, value) =>
      if pivot !in s then (s, Int(-1))
      else
        var i := IndexOf(s, pivot);
        var at := if before then i else i + 1;
        assert at <= |s| by { assert s[..|s|] == s; }
        (s[..at] + [value] + s[at..], Int(|s| + 1))
    case LRem(count, value) =>
      var r := Rem(s, value, count);
      (r, Int(|s| - |r|))
  }

  function SetOf(s: seq<string>): set<string> { set x | x in s }

  function DoHash(op: HashOp, m: map<string, string>): (map<string, string>, Reply) {
    match op
    case HSet(pairs) => (m + pairs, Int(|m + pairs| - |m|))
    case HGet(field) => (m, if field in m then Text(m[field]) else Missing)
    case HDel(names) => (m - SetOf(names), Int(|m| - |m - SetOf(names)|))
    case HGetAll => (m, Fields(m))
    case HLen => (m, Int(|m|))
  }

  function DoSet(op: SetOp, m: set<string>): (set<string>, Reply) {
    match op
    case SAdd(names) => (m + SetOf(names), Int(|m + SetOf(names)| - |m|))
    case SRem(names) => (m - SetOf(names), Int(|m| - |m - SetOf(names)|))
    case SMembers => (m, Members(m))
    case SIsMember(name) => (m, Bool(name in m))
    case SCard => (m, Int(|m|))
  }

  /** The pairs of a ZADD that its NX and XX options let through. */
  function Admitted(m: Table, scores: Table, nx: bool, xx: bool): (r: Table)
    ensures forall k :: k in r <==> k in scores && !(nx && k in m) && !(xx && k !in m)
    ensures forall k :: k in r ==> r[k] == scores[k]
  {
    map k | k in scores && !(nx && k in m) && !(xx && k !in m) :: scores[k]
  }

  function DoZSet(op: ZOp, m: Table): (Table, Reply) {
    match op
    case ZAdd(scores, nx, xx) =>
      var r := m + Admitted(m, scores, nx, xx);
      (r, Int(|r| - |m|))
    case ZRem(names) => (m - SetOf(names), Int(|m| - |m - SetOf(names)|))
    case ZScore(name) => (m, if name in m then Points(m[name]) else Missing)
    case ZRank(name) => (m, if name in m then Int(|Below(m, name)|) else Missing)
    case ZRange(start, stop) => (m, Texts(Range(Ranked(m), start, stop)))
    case ZRangeByScore(min, max) => (m, Texts(Ranked(Between(m, min, max))))
    case ZCount(min, max) => (m, Int(|Between(m, min, max)|))
    case ZCard => (m, Int(|m|))
  }

  function ItemsOf(e: Option<Entry>): seq<string>
    requires e.Some? ==> e.value.content.List?
  { if e.None? then [] else e.value.content.items }

  function FieldsOf(e: Option<Entry>): map<string, string>
    requires e.Some? ==> e.value.content.Hash?
  { if e.None? then map[] else e.value.content.fields }

  function MembersOf(e: Option<Entry>): set<string> {
    if e.Some? && e.value.content.Set? then e.value.content.members else {}
  }

  function ScoresOf(e: Option<Entry>): Table
    requires e.Some? ==> e.value.content.ZSet?
  { if e.None? then map[] else e.value.content.scores }

  /** An emptied list loses its key; every other container keeps it, and only the adding operations create one. */
  function Store(e: Option<Entry>, creates: bool, c: Content): Option<Entry> {
    if c == List([]) || (e.None? && !creates) then None else Some(Entry(c, DeadlineOf(e)))
  }

  /** The meaning of an operation on the entry of a key, or on its absence. */
  function Do(op: Op, e: Option<Entry>, now: int): (Option<Entry>, Reply) {
    if Mismatch(op, e) then (e, WrongType)
    else
      match op
      case OnKey(k) => DoKey(k, e, now)
      case OnString(s) => DoString(s, e)
      case OnList(l) => var (c, r) := DoList(l, ItemsOf(e)); (Store(e, true, List(c)), r)
      case OnHash(h) => var (c, r) := DoHash(h, FieldsOf(e)); (Store(e, h.HSet?, Hash(c)), r)
      case OnSet(m) => var (c, r) := DoSet(m, MembersOf(e)); (Store(e, m.SAdd?, Set(c)), r)
      case OnZSet(z) => var (c, r) := DoZSet(z, ScoresOf(e)); (Store(e, z.ZAdd?, ZSet(c)), r)
  }

  // ---------------------------------------------------------------- commands on a keyspace with dead rows

  predicate AliveAt(e: Entry, now: int) {
    e.deadline.None? || e.deadline.value > now
  }

  /** What a client can still see at `now`. */
  function Live(s: Space, now: int): (r: Space)
    ensures forall id :: id in r <==> id in s && AliveAt(s[id], now)
    ensures forall id :: id in r ==> r[id] == s[id]
  {
    map id | id in s && AliveAt(s[id], now) :: s[id]
  }

  function Lookup(s: Space, id: Id, now: int): Option<Entry> {
    if id in s && AliveAt(s[id], now) then Some(s[id]) else None
  }

  function Put(s: Space, id: Id, e: Option<Entry>): (r: Space)
    ensures id in r <==> e.Some?
    ensures e.Some? ==> r[id] == e.value
    ensures forall x :: x != id ==> (x in r <==> x in s) && (x in r ==> r[x] == s[x])
  {
    if e.Some? then s[id := e.value] else s - {id}
  }

  /** Lazy expiry of the named keys: their dead rows go, everything else stays. */
  function Reap(s: Space, ids: set<Id>, now: int): (r: Space)
    ensures forall x :: x in r <==> x in s && (x in ids ==> AliveAt(s[x], now))
    ensures forall x :: x in r ==> r[x] == s[x]
  {
    map x | x in s && (x in ids ==> AliveAt(s[x], now)) :: s[x]
  }

  datatype Command =
    | One(key: string, op: Op)
    | Del(keys: seq<string>) | Exists(keys: seq<string>)
    | Rename(src: string, dst: string)
    | Keys(pattern: string, stack: nat) | DBSize | FlushDB | FlushAll
    | SUnion(keys: seq<string>) | SInter(keys: seq<string>) | SDiff(keys: seq<string>)

  function Ids(db: nat, keys: seq<string>): (r: set<Id>)
    ensures forall id :: id in r <==> id.db == db && id.key in keys
  {
    set k | k in keys :: Id(db, k)
  }

  /** EXISTS counts a key as often as it is named. */
  function CountPresent(s: Space, db: nat, keys: seq<string>, now: int): nat {
    if keys == [] then 0
    else (if Lookup(s, Id(db, keys[0]), now).Some? then 1 else 0) + CountPresent(s, db, keys[1..], now)
  }

  /** The live key names of a database. */
  function Names(s: Space, db: nat, now: int): (r: set<string>)
    ensures forall k :: k in r <==> Lookup(s, Id(db, k), now).Some?
  {
    set id | id in s && id.db == db && AliveAt(s[id], now) :: id.key
  }

  /** KEYS: the live names that match, unless matching one of them ends the program; `stack` is the number of
      nested calls of the matcher that there is room for. */
  ghost function KeysReply(names: set<string>, pattern: string, stack: nat): Reply {
    var p := Glob.Bounded(Glob.Parse(pattern), stack);
    if exists k :: k in names && Glob.Expected(p, k) == Glob.Panic then Crashed
    else Members(set k | k in names && Glob.Expected(p, k) == Glob.Yes)
  }

  function LiveMembers(s: Space, id: Id, now: int): set<string> {
    MembersOf(Lookup(s, id, now))
  }

  /** SUNION goes key by key and stops at the first key of another type. */
  function Union(s: Space, db: nat, keys: seq<string>, now: int, acc: set<string>): (Space, Reply)
    decreases |keys|
  {
    if keys == [] then (s, Members(acc))
    else
      var id := Id(db, keys[0]);
      var e := Lookup(s, id, now);
      var s' := Reap(s, {id}, now);
      if e.Some? && !e.value.content.Set? then (s', WrongType)
      else Union(s', db, keys[1..], now, acc + MembersOf(e))
  }

  function InterAll(s: Space, db: nat, keys: seq<string>, now: int, base: set<string>): set<string> {
    if keys == [] then base else InterAll(s, db, keys[1..], now, base * LiveMembers(s, Id(db, keys[0]), now))
  }

  function DiffAll(s: Space, db: nat, keys: seq<string>, now: int, base: set<string>): set<string> {
    if keys == [] then base else DiffAll(s, db, keys[1..], now, base - LiveMembers(s, Id(db, keys[0]), now))
  }

  /** The rows of the first key of SINTER and SDIFF, read without looking at its deadline or type. */
  function RawMembers(s: Space, id: Id): set<string> {
    MembersOf(if id in s then Some(s[id]) else None)
  }

  /** One command at time `now` on database `db`, dead rows and all. */
  ghost function Step(s: Space, now: int, db: nat, cmd: Command): (Space, Reply) {
    match cmd
    case One(key, op) =>
      var id := Id(db, key);
      var (e, r) := Do(op, Lookup(s, id, now), now);
      (Put(s, id, e), r)
    case Del(keys) => (s - Ids(db, keys), Int(|s.Keys * Ids(db, keys)|))
    case Exists(keys) => (Reap(s, Ids(db, keys), now), Int(CountPresent(s, db, keys, now)))
    case Rename(src, dst) =>
      var e := Lookup(s, Id(db, src), now);
      if e.None? then (s - {Id(db, src)}, NoSuchKey)
      else (s[Id(db, dst) := e.value] - {Id(db, src)}, Done)
    case Keys(pattern, stack) => (s, KeysReply(Names(s, db, now), pattern, stack))
    case DBSize => (s, Int(|Names(s, db, now)|))
    case FlushDB => (map id | id in s && id.db != db :: s[id], Done)
    case FlushAll => (map[], Done)
    case SUnion(keys) => Union(s, db, keys, now, {})
    case SInter(keys) =>
      if keys == [] then (s, Members({}))
      else (Reap(s, Ids(db, keys[1..]), now),
            Members(InterAll(s, db, keys[1..], now, RawMembers(s, Id(db, keys[0])))))
    case SDiff(keys) =>
      if keys == [] then (s, Members({}))
      else (Reap(s, Ids(db, keys[1..]), now),
            Members(DiffAll(s, db, keys[1..], now, RawMembers(s, Id(db, keys[0])))))
  }

  /** The background sweep. */
  function Sweep(s: Space, now: int): Space {
    Live(s, now)
  }
}
