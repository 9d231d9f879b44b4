/** RESP2 values, their wire form, and what the stream reader makes of any byte sequence. */
module Resp {
  import opened Decimal
  import opened Sequences

  datatype Value =
    | Simple(text: string)
    | Error(text: string)
    | Integer(n: Int64)
    | Bulk(text: string)
    | NullBulk
    | Array(elems: seq<Value>)
    | NullArray
  {
    /** The accessor Str(): the string part, empty for the kinds that have none. */
    function Str(): string {
      if Simple? || Error? || Bulk? then text else ""
    }
  }

  const CRLF := "\r\n"

  // ---------------------------------------------------------------- printing

  function Encode(v: Value): (s: string)
    ensures s != ""
    decreases v, 1
  {
    match v
    case Simple(text) => "+" + text + CRLF
    case Error(text) => "-" + text + CRLF
    case Integer(n) => ":" + FormatInt(n) + CRLF
    case Bulk(text) => "$" + FormatInt(|text|) + CRLF + text + CRLF
    case NullBulk => "$-1" + CRLF
    case Array(elems) => "*" + FormatInt(|elems|) + CRLF + EncodeAll(elems)
    case NullArray => "*-1" + CRLF
  }

  function EncodeAll(vs: seq<Value>): string
    decreases vs, 0
  {
    if vs == [] then "" else Encode(vs[0]) + EncodeAll(vs[1..])
  }

  lemma {:induction false} EncodeAllSnoc(vs: seq<Value>, v: Value)
    ensures EncodeAll(vs + [v]) == EncodeAll(vs) + Encode(v)
  {
    if vs == [] {
      assert EncodeAll([v]) == Encode(v) + EncodeAll([]);
    } else {
      assert (vs + [v])[0] == vs[0] && (vs + [v])[1..] == vs[1..] + [v];
      EncodeAllSnoc(vs[1..], v);
    }
  }

  /** The type bytes of RESP2. */
  lemma TypeBytes(v: Value)
    ensures Encode(v)[0]
         == if v.Simple? then '+' else if v.Error? then '-' else if v.Integer? then ':'
            else if v.Array? || v.NullArray? then '*' else '$'
  {
  }

  /** Examples of the wire form, as the protocol specification gives them. */
  lemma WireExamples()
    ensures Encode(Simple("OK")) == "+OK\r\n" && Encode(Error("ERR no")) == "-ERR no\r\n"
    ensures Encode(Integer(12)) == ":12\r\n" && Encode(Bulk("hello")) == "$5\r\nhello\r\n"
    ensures Encode(Bulk("")) == "$0\r\n\r\n" && Encode(NullBulk) == "$-1\r\n" && Encode(NullArray) == "*-1\r\n"
  {
    SmallLengths();
    hide FormatInt;
    assert "$" + "5" + CRLF + "hello" + CRLF == "$5\r\nhello\r\n";
    assert "$" + "0" + CRLF + "" + CRLF == "$0\r\n\r\n";
  }

  lemma WireArrays()
    ensures Encode(Array([])) == "*0\r\n" && Encode(Array([Integer(1), Bulk("a")])) == "*2\r\n:1\r\n$1\r\na\r\n"
  {
    SmallLengths();
    hide FormatInt;
    assert "*" + "0" + CRLF + EncodeAll([]) == "*0\r\n";
    var vs := [Integer(1), Bulk("a")];
    assert vs[0] == Integer(1) && vs[1..] == [Bulk("a")] && [Bulk("a")][1..] == [];
    assert Encode(Bulk("a")) == "$" + "1" + CRLF + "a" + CRLF == "$1\r\na\r\n";
    assert EncodeAll([Bulk("a")]) == "$1\r\na\r\n" + EncodeAll([]) == "$1\r\na\r\n";
    assert EncodeAll(vs) == ":1\r\n" + "$1\r\na\r\n";
  }

  lemma SmallLengths()
    ensures FormatInt(0) == "0" && FormatInt(1) == "1" && FormatInt(2) == "2" && FormatInt(5) == "5"
    ensures FormatInt(12) == "12"
  {
    assert Digits(1) == "1";
  }

  // ---------------------------------------------------------------- reading

  type Block = n: int | 64 <= n <= INT64_MAX witness 64

  /** What the runtime grants a reader: the largest block, in bytes, that `make` allocates, and how many
      arrays may be open around a value before the stack of the goroutine is used up. Past either, the
      program ends. */
  datatype Limits = Limits(block: Block, depth: nat)

  /** Inside one more array. */
  function Deeper(lim: Limits): Limits {
    lim.(depth := if lim.depth == 0 then 0 else lim.depth - 1)
  }

  /** The bytes that one element of a slice of values takes. */
  const VALUE_SIZE: nat := 64

  /** make([]T, count), with `size` the bytes of a T, gives a slice rather than a panic. */
  predicate Granted(block: Block, count: int, size: nat) {
    0 <= count && count * size <= block
  }

  /** Eof: the bytes ran out inside a value (or before it). Protocol: the bytes are not RESP2. Panic: a
      limit of the runtime was passed; nothing recovers, so the program ends. */
  datatype ReadError = Eof | Protocol | Panic

  /** A value and the bytes after it, or a failure. */
  datatype Read<+T> = Done(value: T, rest: string) | Fail(err: ReadError)

  /** A line and its end; ReadString copies what it has read into one buffer, end or no end. */
  function ReadLine(s: string, block: Block): (r: Read<string>)
    ensures r.Done? ==> |r.value| + 2 + |r.rest| == |s| && |r.value| + 2 <= block && '\n' !in r.value
  {
    var i := IndexOf(s, '\n');
    if !Granted(block, if i == |s| then i else i + 1, 1) then Fail(Panic)
    else if i == |s| then Fail(Eof)
    else if i == 0 || s[i - 1] != '\r' then Fail(Protocol)
    else
      assert s[..i][..i - 1] == s[..i - 1];
      Done(s[..i - 1], s[i + 1..])
  }

  function ReadBulk(s: string, block: Block): (r: Read<Value>)
    ensures r.Done? ==> |r.rest| < |s|
  {
    match ReadLine(s, block)
    case Fail(e) => Fail(e)
    case Done(line, rest) =>
      match ParseInt(line)
      case None => Fail(Protocol)
      case Some(n) =>
        if n < 0 then Done(NullBulk, rest)
        else if !Granted(block, Wrap(n + 2), 1) then Fail(Panic)
        else TakeBulk(n, rest)
  }

  /** `n` bytes and a line end. */
  function TakeBulk(n: nat, s: string): (r: Read<Value>)
    ensures r.Done? ==> |r.rest| < |s|
  {
    if |s| < n + 2 then Fail(Eof)
    else if s[n] != '\r' || s[n + 1] != '\n' then Fail(Protocol)
    else Done(Bulk(s[..n]), s[n + 2..])
  }

  predicate IsBlank(c: char) { c == ' ' || c == '\t' }

  /** The leading run of characters that are (or are not) blank. */
  function Run(s: string, blank: bool): (k: nat)
    ensures k <= |s|
    ensures forall i :: 0 <= i < k ==> IsBlank(s[i]) == blank
    ensures k < |s| ==> IsBlank(s[k]) != blank
  {
    if s == "" || IsBlank(s[0]) != blank then 0 else 1 + Run(s[1..], blank)
  }

  /** The words of a line: its maximal blank-free runs, in order. */
  function Words(line: string): (ws: seq<string>)
    decreases |line|
  {
    var s := line[Run(line, true)..];
    if s == "" then [] else [s[..Run(s, false)]] + Words(s[Run(s, false)..])
  }

  function Bulks(ws: seq<string>): (vs: seq<Value>)
    ensures |vs| == |ws| && forall i :: 0 <= i < |ws| ==> vs[i] == Bulk(ws[i])
  {
    seq(|ws|, i requires 0 <= i < |ws| => Bulk(ws[i]))
  }

  function ReadInline(s: string, block: Block): (r: Read<Value>)
    ensures r.Done? ==> |r.rest| < |s|
  {
    match ReadLine(s, block)
    case Fail(e) => Fail(e)
    case Done(line, rest) =>
      if !Granted(block, |Words(line)|, VALUE_SIZE) then Fail(Panic) else Done(Array(Bulks(Words(line))), rest)
  }

  function Decode(s: string, lim: Limits): (r: Read<Value>)
    ensures r.Done? ==> |r.rest| < |s|
    decreases |s|, 0, 0
  {
    if s == "" then Fail(Eof)
    else if s[0] == '+' || s[0] == '-' || s[0] == ':' then
      match ReadLine(s[1..], lim.block)
      case Fail(e) => Fail(e)
      case Done(line, rest) =>
        if s[0] == '+' then Done(Simple(line), rest)
        else if s[0] == '-' then Done(Error(line), rest)
        else if ParseInt(line).Some? then Done(Integer(ParseInt(line).value), rest)
        else Fail(Protocol)
    else if s[0] == '$' then ReadBulk(s[1..], lim.block)
    else if s[0] == '*' then DecodeArray(s[1..], lim)
    else ReadInline(s, lim.block)
  }

  function DecodeArray(s: string, lim: Limits): (r: Read<Value>)
    ensures r.Done? ==> |r.rest| < |s|
    decreases |s|, 0, 0
  {
    match ReadLine(s, lim.block)
    case Fail(e) => Fail(e)
    case Done(line, rest) =>
      match ParseInt(line)
      case None => Fail(Protocol)
      case Some(n) =>
        if n < 0 then Done(NullArray, rest)
        else if !Granted(lim.block, n, VALUE_SIZE) || (n > 0 && lim.depth == 0) then Fail(Panic)
        else
          match DecodeMany(n, rest, Deeper(lim))
          case Fail(e) => Fail(e)
          case Done(vs, rest') => Done(Array(vs), rest')
  }

  function DecodeMany(n: nat, s: string, lim: Limits): (r: Read<seq<Value>>)
    ensures r.Done? ==> |r.rest| <= |s| && |r.value| == n
    decreases |s|, 1, n
  {
    if n == 0 then Done([], s)
    else
      match Decode(s, lim)
      case Fail(e) => Fail(e)
      case Done(v, rest) =>
        match DecodeMany(n - 1, rest, lim)
        case Fail(e) => Fail(e)
        case Done(vs, rest') => Done([v] + vs, rest')
  }

  // ---------------------------------------------------------------- round trip

  /** What RESP2 can carry to a reader with these limits: line-framed texts have no newline, every line, text
      and slice of elements fits a block, and arrays with elements do not nest too deep. */
  predicate WellFormed(v: Value, lim: Limits)
    decreases v
  {
    match v
    case Simple(text) => '\n' !in text && |text| + 2 <= lim.block
    case Error(text) => '\n' !in text && |text| + 2 <= lim.block
    case Integer(_) => true
    case Bulk(text) => |text| + 2 <= lim.block
    case NullBulk => true
    case Array(elems) =>
      && |elems| * VALUE_SIZE <= lim.block && (elems != [] ==> lim.depth > 0)
      && forall e :: e in elems ==> WellFormed(e, Deeper(lim))
    case NullArray => true
  }

  lemma ReadLineOf(line: string, rest: string, block: Block)
    requires '\n' !in line && |line| + 2 <= block
    ensures ReadLine(line + CRLF + rest, block) == Done(line, rest)
  {
    var s := line + CRLF + rest;
    var k := |line| + 1;
    assert s[..k] == line + "\r";
    IndexIs(s, '\n', k);
    assert s[..k - 1] == line && s[k + 1..] == rest;
  }

  /** The wrapped length of the buffer for a bulk string is granted when the true one is. */
  lemma BulkGranted(n: nat, block: Block)
    requires IsInt64(n)
    ensures Granted(block, Wrap(n + 2), 1) <==> n + 2 <= block
  {
    if !IsInt64(n + 2) {
      assert n + 2 - INT64_MIN == TWO_64 + (n + 2 - INT64_MAX - 1);
    }
  }

  lemma HeaderOf(n: int, rest: string, block: Block)
    requires IsInt64(n)
    ensures ReadLine(FormatInt(n) + CRLF + rest, block) == Done(FormatInt(n), rest)
    ensures ParseInt(FormatInt(n)) == Some(n)
  {
    ParseFormat(n);
    FormatIsShort(n);
    ReadLineOf(FormatInt(n), rest, block);
  }

  lemma BulkRoundTrip(text: string, rest: string, lim: Limits)
    requires |text| + 2 <= lim.block
    ensures Decode(Encode(Bulk(text)) + rest, lim) == Done(Bulk(text), rest)
  {
    var body := text + CRLF + rest;
    HeaderOf(|text|, body, lim.block);
    BulkGranted(|text|, lim.block);
    assert body[..|text|] == text && body[|text| + 2..] == rest;
    assert body[|text|] == '\r' && body[|text| + 1] == '\n';
    assert ReadBulk(FormatInt(|text|) + CRLF + body, lim.block) == Done(Bulk(text), rest);
    Tagged("$", FormatInt(|text|), CRLF, text + CRLF, rest);
    assert Encode(Bulk(text)) == "$" + FormatInt(|text|) + CRLF + (text + CRLF);
    TypeDollar(FormatInt(|text|) + CRLF + body, lim);
  }

  lemma TypeDollar(s: string, lim: Limits)
    ensures Decode("$" + s, lim) == ReadBulk(s, lim.block)
  {
    assert ("$" + s)[1..] == s;
  }

  lemma LineRoundTrip(v: Value, rest: string, lim: Limits)
    requires WellFormed(v, lim) && (v.Simple? || v.Error? || v.Integer?)
    ensures Decode(Encode(v) + rest, lim) == Done(v, rest)
  {
    if v.Integer? {
      HeaderOf(v.n, rest, lim.block);
      Framed(":", FormatInt(v.n), rest);
    } else {
      ReadLineOf(v.text, rest, lim.block);
      Framed(if v.Simple? then "+" else "-", v.text, rest);
    }
  }

  /** The reader's view of a framed line: the type byte, and the stream after it. */
  lemma Framed(tag: string, line: string, rest: string)
    requires |tag| == 1
    ensures (tag + line + CRLF + rest)[0] == tag[0] && (tag + line + CRLF + rest)[1..] == line + CRLF + rest
  {
  }

  lemma NullRoundTrip(v: Value, rest: string, lim: Limits)
    requires v.NullBulk? || v.NullArray?
    ensures Decode(Encode(v) + rest, lim) == Done(v, rest)
  {
    var s := Encode(v) + rest;
    assert FormatInt(-1) == "-1";
    assert s[1..] == FormatInt(-1) + CRLF + rest;
    HeaderOf(-1, rest, lim.block);
  }

  lemma ArrayBody(elems: seq<Value>, tail: string, rest: string, lim: Limits)
    requires |elems| * VALUE_SIZE <= lim.block && (elems != [] ==> lim.depth > 0)
    requires DecodeMany(|elems|, tail, Deeper(lim)) == Done(elems, rest)
    ensures DecodeArray(FormatInt(|elems|) + CRLF + tail, lim) == Done(Array(elems), rest)
  {
    HeaderOf(|elems|, tail, lim.block);
  }

  lemma ArrayRoundTrip(elems: seq<Value>, body: string, rest: string, lim: Limits)
    requires |elems| * VALUE_SIZE <= lim.block && (elems != [] ==> lim.depth > 0)
    requires DecodeMany(|elems|, body + rest, Deeper(lim)) == Done(elems, rest)
    ensures Decode("*" + FormatInt(|elems|) + CRLF + body + rest, lim) == Done(Array(elems), rest)
  {
    ArrayBody(elems, body + rest, rest, lim);
    Tagged("*", FormatInt(|elems|), CRLF, body, rest);
    TypeStar(FormatInt(|elems|) + CRLF + (body + rest), lim);
  }

  lemma TypeStar(s: string, lim: Limits)
    ensures Decode("*" + s, lim) == DecodeArray(s, lim)
  {
    assert ("*" + s)[1..] == s;
  }

  /** Bracketing of a type byte, a header line, a body and what follows. */
  lemma Tagged(tag: string, header: string, end: string, body: string, rest: string)
    ensures tag + header + end + body + rest == tag + (header + end + (body + rest))
  {
  }

  /** The reader takes exactly the value off the stream and leaves exactly what follows it. */
  lemma {:induction false} RoundTrip(v: Value, rest: string, lim: Limits)
    requires WellFormed(v, lim)
    ensures Decode(Encode(v) + rest, lim) == Done(v, rest)
    decreases v, 1
  {
    match v {
      case Simple(_) => LineRoundTrip(v, rest, lim);
      case Error(_) => LineRoundTrip(v, rest, lim);
      case Integer(_) => LineRoundTrip(v, rest, lim);
      case Bulk(text) => BulkRoundTrip(text, rest, lim);
      case NullBulk => NullRoundTrip(v, rest, lim);
      case NullArray => NullRoundTrip(v, rest, lim);
      case Array(elems) =>
        RoundTripAll(elems, rest, Deeper(lim));
        ArrayRoundTrip(elems, EncodeAll(elems), rest, lim);
    }
  }

  lemma {:induction false} RoundTripAll(vs: seq<Value>, rest: string, lim: Limits)
    requires forall v :: v in vs ==> WellFormed(v, lim)
    ensures DecodeMany(|vs|, EncodeAll(vs) + rest, lim) == Done(vs, rest)
    decreases vs, 0
  {
    if vs == [] {
      assert EncodeAll(vs) + rest == rest;
    } else {
      assert EncodeAll(vs) + rest == Encode(vs[0]) + (EncodeAll(vs[1..]) + rest);
      RoundTrip(vs[0], EncodeAll(vs[1..]) + rest, lim);
      RoundTripAll(vs[1..], rest, lim);
      assert [vs[0]] + vs[1..] == vs;
    }
  }

  // ---------------------------------------------------------------- more input never changes an answer

  /** `r` is settled: later bytes `t` only follow what is left over. */
  ghost predicate Settled<T>(r: Read<T>, t: string, r': Read<T>) {
    match r
    case Done(v, rest) => r' == Done(v, rest + t)
    case Fail(e) => e == Eof || r' == Fail(e)
  }

  lemma LineSettled(s: string, t: string, block: Block)
    ensures Settled(ReadLine(s, block), t, ReadLine(s + t, block))
  {
    var i := IndexOf(s, '\n');
    if i < |s| {
      assert (s + t)[..i] == s[..i];
      IndexIs(s + t, '\n', i);
      assert i > 0 ==> (s + t)[..i - 1] == s[..i - 1];
      assert (s + t)[i + 1..] == s[i + 1..] + t;
    }
  }

  lemma TakeSettled(n: nat, s: string, t: string)
    ensures Settled(TakeBulk(n, s), t, TakeBulk(n, s + t))
  {
    if |s| >= n + 2 {
      assert (s + t)[..n] == s[..n] && (s + t)[n + 2..] == s[n + 2..] + t;
    }
  }

  lemma BulkSettled(s: string, t: string, block: Block)
    ensures Settled(ReadBulk(s, block), t, ReadBulk(s + t, block))
  {
    LineSettled(s, t, block);
    var line := ReadLine(s, block);
    if line.Done? && ParseInt(line.value).Some? && ParseInt(line.value).value >= 0 {
      TakeSettled(ParseInt(line.value).value, line.rest, t);
    }
  }

  lemma {:induction false} DecodeSettled(s: string, t: string, lim: Limits)
    ensures Settled(Decode(s, lim), t, Decode(s + t, lim))
    decreases |s|, 0, 0
  {
    if s != "" {
      assert (s + t)[0] == s[0] && (s + t)[1..] == s[1..] + t;
      LineSettled(s[1..], t, lim.block);
      if s[0] == '$' {
        BulkSettled(s[1..], t, lim.block);
      } else if s[0] == '*' {
        ArraySettled(s[1..], t, lim);
      } else {
        LineSettled(s, t, lim.block);
      }
    }
  }

  lemma {:induction false} ArraySettled(s: string, t: string, lim: Limits)
    ensures Settled(DecodeArray(s, lim), t, DecodeArray(s + t, lim))
    decreases |s|, 0, 0
  {
    LineSettled(s, t, lim.block);
    var line := ReadLine(s, lim.block);
    if line.Done? && ParseInt(line.value).Some? && ParseInt(line.value).value >= 0 {
      ManySettled(ParseInt(line.value).value, line.rest, t, Deeper(lim));
    }
  }

  lemma {:induction false} ManySettled(n: nat, s: string, t: string, lim: Limits)
    ensures Settled(DecodeMany(n, s, lim), t, DecodeMany(n, s + t, lim))
    decreases |s|, 1, n
  {
    if n > 0 {
      DecodeSettled(s, t, lim);
      if Decode(s, lim).Done? {
        ManySettled(n - 1, Decode(s, lim).rest, t, lim);
      }
    }
  }

  /** No encoding is cut short unnoticed: every strict prefix makes the reader ask for more bytes. */
  lemma PrefixFree(v: Value, n: nat, lim: Limits)
    requires WellFormed(v, lim) && n < |Encode(v)|
    ensures Decode(Encode(v)[..n], lim) == Fail(Eof)
  {
    var s := Encode(v);
    assert s[..n] + s[n..] == s && s + "" == s;
    DecodeSettled(s[..n], s[n..], lim);
    RoundTrip(v, "", lim);
  }

  // ---------------------------------------------------------------- what the reader makes of any input

  lemma TypeColon(s: string, lim: Limits)
    ensures Decode(":" + s, lim)
         == match ReadLine(s, lim.block)
            case Fail(e) => Fail(e)
            case Done(line, rest) =>
              if ParseInt(line).Some? then Done(Integer(ParseInt(line).value), rest) else Fail(Protocol)
  {
    hide ReadLine, ParseInt;
    assert (":" + s)[1..] == s;
  }

  /** A length or integer that is no number is a protocol error; nothing at all is the end of the input. */
  lemma BadNumbers(line: string, rest: string, lim: Limits)
    requires '\n' !in line && |line| + 2 <= lim.block && ParseInt(line) == None
    ensures Decode("$" + (line + CRLF + rest), lim) == Fail(Protocol)
    ensures Decode("*" + (line + CRLF + rest), lim) == Fail(Protocol)
    ensures Decode(":" + (line + CRLF + rest), lim) == Fail(Protocol)
    ensures Decode("", lim) == Fail(Eof)
  {
    hide ReadLine, ParseInt;
    ReadLineOf(line, rest, lim.block);
    TypeDollar(line + CRLF + rest, lim);
    TypeStar(line + CRLF + rest, lim);
    TypeColon(line + CRLF + rest, lim);
  }

  /** Any text of a number is read as it: an integer, a null for a negative length, and for another length
      so many bytes and their line end, which must be there. */
  lemma NumbersRead(line: string, n: Int64, s: string, lim: Limits)
    requires '\n' !in line && |line| + 2 <= lim.block && ParseInt(line) == Some(n)
    ensures Decode(":" + (line + CRLF + s), lim) == Done(Integer(n), s)
    ensures n < 0 ==> Decode("$" + (line + CRLF + s), lim) == Done(NullBulk, s)
    ensures n < 0 ==> Decode("*" + (line + CRLF + s), lim) == Done(NullArray, s)
    ensures 0 <= n && n + 2 <= lim.block ==>
      Decode("$" + (line + CRLF + s), lim)
      == if |s| < n + 2 then Fail(Eof)
         else if s[n..n + 2] == CRLF then Done(Bulk(s[..n]), s[n + 2..])
         else Fail(Protocol)
  {
    hide ReadLine, ParseInt, DecodeMany;
    ReadLineOf(line, s, lim.block);
    TypeDollar(line + CRLF + s, lim);
    TypeStar(line + CRLF + s, lim);
    TypeColon(line + CRLF + s, lim);
    if 0 <= n && n + 2 <= lim.block {
      BulkGranted(n, lim.block);
      BytesTaken(n, s);
    }
  }

  lemma BytesTaken(n: nat, s: string)
    ensures TakeBulk(n, s)
         == if |s| < n + 2 then Fail(Eof)
            else if s[n..n + 2] == CRLF then Done(Bulk(s[..n]), s[n + 2..])
            else Fail(Protocol)
  {
    if |s| >= n + 2 {
      assert s[n..n + 2] == [s[n], s[n + 1]];
      assert s[n..n + 2] == CRLF <==> s[n] == '\r' && s[n + 1] == '\n';
    }
  }

  /** A line must end with a carriage return before its newline; without a newline it is not finished. */
  lemma LineEnds(tag: char, line: string, rest: string, lim: Limits)
    requires '\n' !in line && |line| + 1 <= lim.block && (line == "" || line[|line| - 1] != '\r')
    requires tag == '+' || tag == '-' || tag == ':' || tag == '$' || tag == '*'
    ensures Decode([tag] + (line + "\n" + rest), lim) == Fail(Protocol)
    ensures Decode([tag] + line, lim) == Fail(Eof)
  {
    var s := line + "\n" + rest;
    assert ([tag] + s)[1..] == s && ([tag] + line)[1..] == line;
    assert s[..|line|] == line;
    IndexIs(s, '\n', |line|);
    IndexIs(line, '\n', |line|);
    assert ReadLine(s, lim.block) == Fail(Protocol) && ReadLine(line, lim.block) == Fail(Eof);
    hide ReadLine, ParseInt, DecodeMany;
  }

  // ---------------------------------------------------------------- closure

  lemma {:induction false} WordsAreShort(line: string)
    ensures |Words(line)| <= |line| && forall w :: w in Words(line) ==> |w| <= |line|
    decreases |line|
  {
    hide Run, IsBlank;
    var s := line[Run(line, true)..];
    if s != "" {
      var k := Run(s, false);
      assert k > 0 by { assert !IsBlank(s[0]); }
      WordsAreShort(s[k..]);
      assert Words(line) == [s[..k]] + Words(s[k..]);
    }
  }

  /** A reader that nests one array deeper. */
  function Wider(lim: Limits): Limits {
    lim.(depth := lim.depth + 1)
  }

  lemma InlineWellFormed(s: string, lim: Limits)
    requires ReadInline(s, lim.block).Done?
    ensures WellFormed(ReadInline(s, lim.block).value, Wider(lim))
  {
    WordsAreShort(ReadLine(s, lim.block).value);
    WordsWellFormed(Words(ReadLine(s, lim.block).value), Wider(lim));
  }

  /** Everything the reader returns is well formed, for a reader that nests one deeper: an inline command
      inside the innermost arrays was no array before ... */
  lemma {:induction false} DecodedWellFormed(s: string, lim: Limits)
    ensures Decode(s, lim).Done? ==> WellFormed(Decode(s, lim).value, Wider(lim))
    decreases |s|, 0, 1
  {
    if Decode(s, lim).Done? {
      if s[0] == '*' {
        ArrayWellFormed(s[1..], lim);
      } else if !IsTypeByte(s) {
        InlineWellFormed(s, lim);
      }
    }
  }

  lemma {:induction false} ArrayWellFormed(s: string, lim: Limits)
    requires DecodeArray(s, lim).Done?
    ensures WellFormed(DecodeArray(s, lim).value, Wider(lim))
    decreases |s|, 0, 0
  {
    var line := ReadLine(s, lim.block);
    var n := ParseInt(line.value).value;
    if n > 0 {
      ManyWellFormed(n, line.rest, Deeper(lim));
      assert Wider(Deeper(lim)) == Deeper(Wider(lim));
    }
  }

  lemma {:induction false} ManyWellFormed(n: nat, s: string, lim: Limits)
    ensures DecodeMany(n, s, lim).Done? ==> forall v :: v in DecodeMany(n, s, lim).value ==> WellFormed(v, Wider(lim))
    decreases |s|, 1, n
  {
    if n > 0 && Decode(s, lim).Done? {
      DecodedWellFormed(s, lim);
      ManyWellFormed(n - 1, Decode(s, lim).rest, lim);
    }
  }

  /** ... and so re-encodes to bytes that decode to the same value, whatever follows. */
  lemma ReadValuesRoundTrip(s: string, rest: string, lim: Limits)
    requires Decode(s, lim).Done?
    ensures Decode(Encode(Decode(s, lim).value) + rest, Wider(lim)) == Done(Decode(s, lim).value, rest)
  {
    DecodedWellFormed(s, lim);
    RoundTrip(Decode(s, lim).value, rest, Wider(lim));
  }

  lemma BulkFits(s: string, block: Block)
    requires ReadBulk(s, block).Done? && ReadBulk(s, block).value.Bulk?
    ensures |ReadBulk(s, block).value.text| + 2 <= block
  {
    BulkGranted(ParseInt(ReadLine(s, block).value).value, block);
  }

  /** What comes back from its encoding is well formed. */
  lemma {:induction false} RoundTripNeeds(v: Value, rest: string, lim: Limits)
    requires var r := Decode(Encode(v) + rest, lim); r.Done? && r.value == v
    ensures WellFormed(v, lim)
    decreases v, 1
  {
    match v {
      case Simple(_) => LineNeeds(v, rest, lim);
      case Error(_) => LineNeeds(v, rest, lim);
      case Bulk(_) => BulkNeeds(v, rest, lim);
      case Array(elems) =>
        hide Decode, DecodeMany;
        ArrayNeeds(elems, rest, lim);
        if elems != [] {
          AllNeeded(elems, rest, Deeper(lim));
        }
      case _ =>
    }
  }

  lemma LineNeeds(v: Value, rest: string, lim: Limits)
    requires v.Simple? || v.Error?
    requires var r := Decode(Encode(v) + rest, lim); r.Done? && r.value == v
    ensures WellFormed(v, lim)
  {
    hide ReadLine;
    Framed(if v.Simple? then "+" else "-", v.text, rest);
  }

  lemma BulkNeeds(v: Value, rest: string, lim: Limits)
    requires v.Bulk?
    requires var r := Decode(Encode(v) + rest, lim); r.Done? && r.value == v
    ensures WellFormed(v, lim)
  {
    hide Decode, ReadBulk, FormatInt;
    var s := (Encode(v) + rest)[1..];
    assert Encode(v) + rest == "$" + s;
    TypeDollar(s, lim);
    BulkFits(s, lim.block);
  }

  lemma ArrayNeeds(elems: seq<Value>, rest: string, lim: Limits)
    requires var r := Decode(Encode(Array(elems)) + rest, lim); r.Done? && r.value == Array(elems)
    ensures |elems| * VALUE_SIZE <= lim.block && (elems != [] ==> lim.depth > 0)
    ensures DecodeMany(|elems|, EncodeAll(elems) + rest, Deeper(lim)).Done?
    ensures DecodeMany(|elems|, EncodeAll(elems) + rest, Deeper(lim)).value == elems
  {
    hide Decode, DecodeArray, FormatInt;
    var tail := EncodeAll(elems) + rest;
    Tagged("*", FormatInt(|elems|), CRLF, EncodeAll(elems), rest);
    TypeStar(FormatInt(|elems|) + CRLF + tail, lim);
    HeaderNeeds(elems, tail, FormatInt(|elems|) + CRLF + tail, lim);
  }

  lemma HeaderNeeds(elems: seq<Value>, tail: string, s: string, lim: Limits)
    requires s == FormatInt(|elems|) + CRLF + tail
    requires DecodeArray(s, lim).Done? && DecodeArray(s, lim).value == Array(elems)
    ensures |elems| * VALUE_SIZE <= lim.block && (elems != [] ==> lim.depth > 0)
    ensures DecodeMany(|elems|, tail, Deeper(lim)).Done? && DecodeMany(|elems|, tail, Deeper(lim)).value == elems
  {
    hide FormatInt, ParseInt, ReadLine;
    assert |elems| * VALUE_SIZE <= lim.block;
    HeaderOf(|elems|, tail, lim.block);
  }

  lemma EncodeFirst(vs: seq<Value>, rest: string)
    requires vs != []
    ensures EncodeAll(vs) + rest == Encode(vs[0]) + (EncodeAll(vs[1..]) + rest)
  {
  }

  lemma ManyFirst(n: nat, s: string, lim: Limits)
    requires n > 0 && DecodeMany(n, s, lim).Done?
    ensures var (r, all) := (Decode(s, lim), DecodeMany(n, s, lim).value);
      && r.Done? && DecodeMany(n - 1, r.rest, lim).Done?
      && all != [] && all[0] == r.value && all[1..] == DecodeMany(n - 1, r.rest, lim).value
  {
    hide Decode;
  }

  lemma {:induction false} AllNeeded(vs: seq<Value>, rest: string, lim: Limits)
    requires var r := DecodeMany(|vs|, EncodeAll(vs) + rest, lim); r.Done? && r.value == vs
    ensures forall v :: v in vs ==> WellFormed(v, lim)
    decreases vs, 0
  {
    if vs != [] {
      hide *;
      var s, tail := EncodeAll(vs) + rest, EncodeAll(vs[1..]) + rest;
      EncodeFirst(vs, rest);
      ManyFirst(|vs|, s, lim);
      RoundTripNeeds(vs[0], tail, lim);
      RoundTrip(vs[0], tail, lim);
      AllNeeded(vs[1..], rest, lim);
      assert forall v :: v in vs ==> v == vs[0] || v in vs[1..];
    }
  }

  /** Being well formed is not only enough for the round trip but needed: a newline in a line-framed text, at
      any depth, spoils it, and so does a part that is too large for the reader or nested too deep. */
  lemma RoundTripExactly(v: Value, rest: string, lim: Limits)
    ensures Decode(Encode(v) + rest, lim) == Done(v, rest) <==> WellFormed(v, lim)
  {
    if WellFormed(v, lim) {
      RoundTrip(v, rest, lim);
    } else if Decode(Encode(v) + rest, lim) == Done(v, rest) {
      RoundTripNeeds(v, rest, lim);
    }
  }

  /** For instance, this text is cut at its newline, which has no carriage return before it. */
  lemma NewlineSpoils(rest: string, lim: Limits)
    ensures Decode(Encode(Simple("a\nb")) + rest, lim) == Fail(Protocol)
  {
    var s := "a\nb\r\n" + rest;
    assert (Encode(Simple("a\nb")) + rest)[1..] == s;
    assert s[..1] == "a";
    IndexIs(s, '\n', 1);
  }

  // ---------------------------------------------------------------- inline commands

  predicate IsWord(w: string) {
    w != "" && forall i :: 0 <= i < |w| ==> w[i] != ' ' && w[i] != '\t' && w[i] != '\n'
  }

  /** The words separated by single spaces. */
  function Line(ws: seq<string>): string {
    if ws == [] then "" else if |ws| == 1 then ws[0] else ws[0] + " " + Line(ws[1..])
  }

  lemma {:induction false} RunIs(s: string, blank: bool, k: nat)
    requires k <= |s| && (forall i :: 0 <= i < k ==> IsBlank(s[i]) == blank)
    requires k < |s| ==> IsBlank(s[k]) != blank
    ensures Run(s, blank) == k
  {
    if k > 0 {
      RunIs(s[1..], blank, k - 1);
    }
  }

  /** A word followed by a blank, or by nothing, is cut off whole. */
  lemma WordEnds(s: string, k: nat)
    requires 0 < k <= |s| && (forall j :: 0 <= j < k ==> !IsBlank(s[j])) && (k < |s| ==> IsBlank(s[k]))
    ensures Words(s) == [s[..k]] + Words(s[k..])
  {
    RunIs(s, true, 0);
    assert s[0..] == s;
    RunIs(s, false, k);
  }

  lemma BlankSkipped(s: string)
    requires s != "" && IsBlank(s[0])
    ensures Words(s) == Words(s[1..])
  {
    var k := Run(s, true);
    assert s[1..][k - 1..] == s[k..];
  }

  lemma {:induction false} WordsOfLine(ws: seq<string>)
    requires forall w :: w in ws ==> IsWord(w)
    ensures Words(Line(ws)) == ws && '\n' !in Line(ws)
    ensures ws != [] ==> Line(ws) != "" && Line(ws)[0] == ws[0][0]
  {
    if ws != [] {
      var w := ws[0];
      assert IsWord(w);
      if |ws| == 1 {
        OneWord(w);
      } else {
        WordsOfLine(ws[1..]);
        FirstWord(w, Line(ws[1..]));
        assert ws == [w] + ws[1..];
      }
    }
  }

  lemma OneWord(w: string)
    requires IsWord(w)
    ensures Words(w) == [w]
  {
    WordEnds(w, |w|);
    assert w[..|w|] == w && w[|w|..] == "" && Words("") == [];
  }

  lemma FirstWord(w: string, tail: string)
    requires IsWord(w)
    ensures Words(w + " " + tail) == [w] + Words(tail)
  {
    BlanksSeparate(w, ' ', tail);
    assert w + ([' '] + tail) == w + " " + tail;
  }

  /** Spaces and tabs are skipped alike ... */
  lemma BlanksSkipped(blank: char, tail: string)
    requires blank == ' ' || blank == '\t'
    ensures Words([blank] + tail) == Words(tail)
  {
    hide Words;
    BlankSkipped([blank] + tail);
    assert ([blank] + tail)[1..] == tail;
  }

  /** ... and end a word alike. */
  lemma BlanksSeparate(w: string, blank: char, tail: string)
    requires IsWord(w) && (blank == ' ' || blank == '\t')
    ensures Words(w + ([blank] + tail)) == [w] + Words(tail)
  {
    hide Words;
    var line := w + ([blank] + tail);
    WordEnds(line, |w|);
    assert line[..|w|] == w && line[|w|..] == [blank] + tail;
    BlanksSkipped(blank, tail);
  }

  lemma InlineDecoded(line: string, rest: string, lim: Limits)
    requires line != "" && !IsTypeByte(line) && '\n' !in line
    requires |line| + 2 <= lim.block && |Words(line)| * VALUE_SIZE <= lim.block
    ensures Decode(line + CRLF + rest, lim) == Done(Array(Bulks(Words(line))), rest)
  {
    hide Words, ReadLine;
    ReadLineOf(line, rest, lim.block);
    var s := line + CRLF + rest;
    assert s[0] == line[0];
    assert Decode(s, lim) == ReadInline(s, lim.block);
  }

  lemma WordsWellFormed(ws: seq<string>, lim: Limits)
    requires |ws| * VALUE_SIZE <= lim.block && lim.depth > 0 && forall w :: w in ws ==> |w| + 2 <= lim.block
    ensures WellFormed(Array(Bulks(ws)), lim)
  {
    forall e | e in Bulks(ws) ensures WellFormed(e, lim) {
      var i :| 0 <= i < |ws| && Bulks(ws)[i] == e;
      assert ws[i] in ws;
    }
  }

  /** A command typed as a line of words means the same as the command sent as an array of bulks. */
  lemma InlineMeansArray(ws: seq<string>, rest: string, lim: Limits)
    requires ws != [] && |ws| * VALUE_SIZE <= lim.block && |Line(ws)| + 2 <= lim.block && lim.depth > 0
    requires forall w :: w in ws ==> IsWord(w)
    requires !IsTypeByte(Line(ws))
    ensures Decode(Line(ws) + CRLF + rest, lim) == Done(Array(Bulks(ws)), rest)
    ensures Decode(Encode(Array(Bulks(ws))) + rest, lim) == Done(Array(Bulks(ws)), rest)
  {
    hide Words, Line, WellFormed, Decode, ReadLine;
    WordsOfLine(ws);
    WordsAreShort(Line(ws));
    InlineDecoded(Line(ws), rest, lim);
    WordsWellFormed(ws, lim);
    RoundTrip(Array(Bulks(ws)), rest, lim);
  }

  /** Where no more arrays may be open, an inline command is still read, while the array it is read as would
      not be: to be read back it needs a reader that nests one deeper. */
  lemma InlineNeedsRoom(rest: string, lim: Limits)
    requires lim.depth == 0
    ensures Decode("A" + CRLF + rest, lim) == Done(Array([Bulk("A")]), rest) && !WellFormed(Array([Bulk("A")]), lim)
  {
    OneWord("A");
    InlineDecoded("A", rest, lim);
    assert Bulks(["A"]) == [Bulk("A")];
  }

  /** The line starts with one of the five RESP2 type bytes. */
  predicate IsTypeByte(s: string) {
    s != "" && (s[0] == '+' || s[0] == '-' || s[0] == ':' || s[0] == '$' || s[0] == '*')
  }

  // ---------------------------------------------------------------- pipelining

  /** Everything a connection reads from a finished byte stream, and why reading stopped. */
  function DecodeStream(s: string, lim: Limits): (r: (seq<Value>, ReadError))
    decreases |s|
  {
    match Decode(s, lim)
    case Fail(e) => ([], e)
    case Done(v, rest) => var (vs, e) := DecodeStream(rest, lim); ([v] + vs, e)
  }

  lemma StreamCons(s: string, v: Value, rest: string, lim: Limits)
    requires Decode(s, lim) == Done(v, rest)
    ensures DecodeStream(s, lim) == ([v] + DecodeStream(rest, lim).0, DecodeStream(rest, lim).1)
  {
  }

  /** Pipelined encodings, the last one possibly cut anywhere, are read as the complete ones in order. */
  lemma {:induction false} Pipeline(vs: seq<Value>, last: Value, n: nat, lim: Limits)
    requires WellFormed(last, lim) && n < |Encode(last)|
    requires forall v :: v in vs ==> WellFormed(v, lim)
    ensures DecodeStream(EncodeAll(vs) + Encode(last)[..n], lim) == (vs, Eof)
  {
    hide WellFormed, Decode, Encode;
    var cut := Encode(last)[..n];
    var s := EncodeAll(vs) + cut;
    PrefixFree(last, n, lim);
    if vs == [] {
      assert s == cut;
    } else {
      var rest := EncodeAll(vs[1..]) + cut;
      assert s == Encode(vs[0]) + rest;
      RoundTrip(vs[0], rest, lim);
      StreamCons(s, vs[0], rest, lim);
      Pipeline(vs[1..], last, n, lim);
      assert [vs[0]] + vs[1..] == vs;
    }
  }

  // ---------------------------------------------------------------- what ends the program

  /** No line end within the largest block. */
  predicate LongLine(s: string, block: Block) {
    |s| > block && '\n' !in s[..block]
  }

  /** A value starts here on which the program ends: an endless line, a bulk string or an array whose header
      is too large, an inline command of too many words, or an array with elements where no more may be open. */
  predicate Oversized(s: string, lim: Limits) {
    && s != ""
    && if s[0] == '$' then LongLine(s[1..], lim.block) || TooLong(s[1..], lim.block, 2, 1)
       else if s[0] == '*' then LongLine(s[1..], lim.block) || TooLong(s[1..], lim.block, 0, VALUE_SIZE) || TooDeep(s[1..], lim)
       else if s[0] == '+' || s[0] == '-' || s[0] == ':' then LongLine(s[1..], lim.block)
       else LongLine(s, lim.block) || (ReadLine(s, lim.block).Done? && |Words(ReadLine(s, lim.block).value)| * VALUE_SIZE > lim.block)
  }

  predicate TooDeep(s: string, lim: Limits) {
    && lim.depth == 0 && ReadLine(s, lim.block).Done?
    && var n := ParseInt(ReadLine(s, lim.block).value);
       n.Some? && n.value > 0
  }

  /** The header asks for `extra` elements more than it says, of `size` bytes each, and more than there are. */
  predicate TooLong(s: string, block: Block, extra: nat, size: nat) {
    && ReadLine(s, block).Done?
    && var n := ParseInt(ReadLine(s, block).value);
       n.Some? && n.value >= 0 && (n.value + extra) * size > block
  }

  lemma LinePanics(s: string, block: Block)
    ensures ReadLine(s, block) == Fail(Panic) <==> LongLine(s, block)
  {
    var i := IndexOf(s, '\n');
    if |s| > block {
      if i < block {
        assert s[..block][i] == '\n';
      } else {
        assert s[..block] == s[..i][..block];
      }
    }
  }

  /** Reading such a value panics. */
  lemma OversizedPanics(s: string, lim: Limits)
    requires Oversized(s, lim)
    ensures Decode(s, lim) == Fail(Panic)
  {
    LinePanics(s[1..], lim.block);
    LinePanics(s, lim.block);
    BulkPanics(s[1..], lim.block);
  }

  /** A bulk string header panics exactly when its length and the line end exceed a block; an array header
      exactly when its elements do, or are not to be read at this depth, or reading one of them panics. */
  lemma HeaderPanics(n: nat, rest: string, lim: Limits)
    requires IsInt64(n)
    ensures Decode("$" + (FormatInt(n) + CRLF + rest), lim) == Fail(Panic) <==> n + 2 > lim.block
    ensures Decode("*" + (FormatInt(n) + CRLF + rest), lim) == Fail(Panic)
       <==> n * 64 > lim.block || (n > 0 && lim.depth == 0)
            || DecodeMany(n, rest, Deeper(lim)) == Fail(Panic)
  {
    hide FormatInt, ParseInt, ReadLine;
    HeaderOf(n, rest, lim.block);
    BulkGranted(n, lim.block);
    TypeDollar(FormatInt(n) + CRLF + rest, lim);
    TypeStar(FormatInt(n) + CRLF + rest, lim);
  }

  /** The panic comes from the first such value, after any complete ones and inside an array. */
  lemma {:induction false} StreamPanics(vs: seq<Value>, t: string, lim: Limits)
    requires Oversized(t, lim) && forall v :: v in vs ==> WellFormed(v, lim)
    ensures DecodeStream(EncodeAll(vs) + t, lim) == (vs, Panic)
    ensures forall n :: n > |vs| ==> DecodeMany(n, EncodeAll(vs) + t, lim) == Fail(Panic)
    decreases |vs|
  {
    hide Oversized, WellFormed, Decode;
    var s := EncodeAll(vs) + t;
    if vs == [] {
      assert s == t;
      OversizedPanics(t, lim);
    } else {
      var rest := EncodeAll(vs[1..]) + t;
      assert s == Encode(vs[0]) + rest;
      RoundTrip(vs[0], rest, lim);
      StreamCons(s, vs[0], rest, lim);
      StreamPanics(vs[1..], t, lim);
      assert [vs[0]] + vs[1..] == vs;
    }
  }

  /** `k` array headers, each array the one element of the one before. */
  function Nest(k: nat): string {
    if k == 0 then "" else "*" + (FormatInt(1) + CRLF + Nest(k - 1))
  }

  /** However small each header, the reader ends the program on more of them than the stack has room for, and
      asks for more bytes on fewer. */
  lemma {:induction false} NestedPanics(k: nat, lim: Limits)
    ensures Decode(Nest(k), lim) == Fail(if k > lim.depth then Panic else Eof)
    decreases k
  {
    hide *;
    if k == 0 {
      NestNone(lim);
    } else {
      NestFirst(k, lim);
      NestedPanics(k - 1, Deeper(lim));
      NestInner(k, lim);
    }
  }

  lemma NestNone(lim: Limits)
    ensures Decode(Nest(0), lim) == Fail(Eof)
  {
    assert Nest(0) == "";
  }

  lemma NestFirst(k: nat, lim: Limits)
    requires k > 0
    ensures Decode(Nest(k), lim) == DecodeArray(FormatInt(1) + CRLF + Nest(k - 1), lim)
  {
    hide FormatInt, Decode, DecodeArray;
    TypeStar(FormatInt(1) + CRLF + Nest(k - 1), lim);
  }

  lemma NestInner(k: nat, lim: Limits)
    requires k > 0 && Decode(Nest(k - 1), Deeper(lim)).Fail?
    ensures DecodeArray(FormatInt(1) + CRLF + Nest(k - 1), lim)
         == if lim.depth == 0 then Fail(Panic) else Fail(Decode(Nest(k - 1), Deeper(lim)).err)
    ensures lim.depth > 0 ==> Deeper(lim).depth == lim.depth - 1
  {
    hide FormatInt, ParseInt, ReadLine, Decode, DecodeArray, Nest;
    HeaderOf(1, Nest(k - 1), lim.block);
    OneElement(FormatInt(1) + CRLF + Nest(k - 1), Nest(k - 1), lim);
  }

  lemma OneElement(s: string, rest: string, lim: Limits)
    requires ReadLine(s, lim.block).Done? && ReadLine(s, lim.block).rest == rest && ParseInt(ReadLine(s, lim.block).value) == Some(1)
    requires Decode(rest, Deeper(lim)).Fail?
    ensures DecodeArray(s, lim) == if lim.depth == 0 then Fail(Panic) else Fail(Decode(rest, Deeper(lim)).err)
  {
    hide Decode, ReadLine, ParseInt;
  }

  lemma BulkPanics(s: string, block: Block)
    ensures ReadBulk(s, block) == Fail(Panic) <==> LongLine(s, block) || TooLong(s, block, 2, 1)
  {
    hide LongLine;
    LinePanics(s, block);
    if ReadLine(s, block).Done? && ParseInt(ReadLine(s, block).value).Some? {
      var n := ParseInt(ReadLine(s, block).value).value;
      if n >= 0 {
        BulkGranted(n, block);
      }
    }
  }

  /** The number of elements an array starts to read, if its header gets that far, and what follows it. */
  function Opened(s: string, lim: Limits): (r: (nat, string))
    ensures r.0 > 0 ==> |r.1| < |s|
  {
    if s != "" && s[0] == '*' && ReadLine(s[1..], lim.block).Done? && lim.depth > 0 then
      var n := ParseInt(ReadLine(s[1..], lim.block).value);
      if n.Some? && Granted(lim.block, n.value, VALUE_SIZE) then (n.value, ReadLine(s[1..], lim.block).rest) else (0, "")
    else (0, "")
  }

  /** A place at which the reader begins a value: what is left of the input, and the limits that hold there. */
  datatype Place = Place(left: string, lim: Limits)

  /** The places that the reader comes to when it is asked for one value. */
  function Visited(s: string, lim: Limits): set<Place>
    decreases |s|, 1, 0
  {
    {Place(s, lim)}
    + if Opened(s, lim).0 > 0 then VisitedMany(Opened(s, lim).0, Opened(s, lim).1, Deeper(lim)) else {}
  }

  function VisitedMany(n: nat, s: string, lim: Limits): set<Place>
    decreases |s|, 2, n
  {
    if n == 0 then {}
    else
      match Decode(s, lim)
      case Fail(_) => Visited(s, lim)
      case Done(_, rest) => Visited(s, lim) + VisitedMany(n - 1, rest, lim)
  }

  /** The same for a whole stream. */
  function VisitedAll(s: string, lim: Limits): set<Place>
    decreases |s|
  {
    match Decode(s, lim)
    case Fail(_) => Visited(s, lim)
    case Done(_, rest) => Visited(s, lim) + VisitedAll(rest, lim)
  }

  ghost predicate Blocked(at: set<Place>) {
    exists p :: p in at && Oversized(p.left, p.lim)
  }

  lemma BlockedUnion(a: set<Place>, b: set<Place>)
    ensures Blocked(a + b) <==> Blocked(a) || Blocked(b)
  {
    hide Oversized;
    if p :| p in a && Oversized(p.left, p.lim) {
      assert p in a + b;
    }
    if p :| p in b && Oversized(p.left, p.lim) {
      assert p in a + b;
    }
  }

  lemma BlockedHere(s: string, lim: Limits)
    ensures Blocked({Place(s, lim)}) <==> Oversized(s, lim)
    ensures !Blocked({})
  {
    hide Oversized;
    if Oversized(s, lim) {
      assert Place(s, lim) in {Place(s, lim)};
    }
  }

  lemma ArrayPanics(s: string, lim: Limits)
    requires s != "" && s[0] == '*'
    ensures DecodeArray(s[1..], lim) == Fail(Panic) <==> Oversized(s, lim) || ElementPanics(s, lim)
  {
    hide ReadLine, ParseInt, LongLine;
    LinePanics(s[1..], lim.block);
    var line := ReadLine(s[1..], lim.block);
    if line.Done? && ParseInt(line.value).Some? {
      var n: int := ParseInt(line.value).value;
      if n == 0 {
        assert DecodeMany(0, line.rest, Deeper(lim)) == Done([], line.rest);
      } else if n > 0 && Granted(lim.block, n, VALUE_SIZE) && lim.depth > 0 {
        assert Opened(s, lim) == (n, line.rest);
      }
    }
  }

  predicate ElementPanics(s: string, lim: Limits) {
    Opened(s, lim).0 > 0 && DecodeMany(Opened(s, lim).0, Opened(s, lim).1, Deeper(lim)) == Fail(Panic)
  }

  /** The first header aside, a panic comes from an element of an array. */
  lemma PanicsHere(s: string, lim: Limits)
    ensures Decode(s, lim) == Fail(Panic) <==> Oversized(s, lim) || ElementPanics(s, lim)
  {
    hide ReadLine, ParseInt, LongLine, Words, DecodeMany;
    LinePanics(s, lim.block);
    if s != "" {
      LinePanics(s[1..], lim.block);
      if s[0] == '*' {
        ArrayPanics(s, lim);
      } else if s[0] == '$' {
        BulkPanics(s[1..], lim.block);
      }
    }
  }

  /** The reader ends the program if and only if it does at one of the values that it begins. */
  lemma {:induction false} PanicsExactly(s: string, lim: Limits)
    ensures Decode(s, lim) == Fail(Panic) <==> Blocked(Visited(s, lim))
    decreases |s|, 1, 0
  {
    hide Decode, Oversized, Opened, Blocked;
    var (n, rest) := Opened(s, lim);
    PanicsHere(s, lim);
    BlockedHere(s, lim);
    if n > 0 {
      ElementsPanicExactly(n, rest, Deeper(lim));
      BlockedUnion({Place(s, lim)}, VisitedMany(n, rest, Deeper(lim)));
    } else {
      assert {Place(s, lim)} + {} == {Place(s, lim)};
    }
  }

  lemma {:induction false} ElementsPanicExactly(n: nat, s: string, lim: Limits)
    ensures DecodeMany(n, s, lim) == Fail(Panic) <==> Blocked(VisitedMany(n, s, lim))
    decreases |s|, 2, n
  {
    hide Decode, Visited, Blocked;
    if n == 0 {
      BlockedHere(s, lim);
    } else {
      PanicsExactly(s, lim);
      if Decode(s, lim).Done? {
        var rest := Decode(s, lim).rest;
        ElementsPanicExactly(n - 1, rest, lim);
        BlockedUnion(Visited(s, lim), VisitedMany(n - 1, rest, lim));
      }
    }
  }

  lemma {:induction false} StreamPanicsExactly(s: string, lim: Limits)
    ensures DecodeStream(s, lim).1 == Panic <==> Blocked(VisitedAll(s, lim))
    decreases |s|
  {
    hide Decode, Visited, Blocked;
    PanicsExactly(s, lim);
    if Decode(s, lim).Done? {
      var rest := Decode(s, lim).rest;
      StreamPanicsExactly(rest, lim);
      BlockedUnion(Visited(s, lim), VisitedAll(rest, lim));
    }
  }
}

/** The writer and the reader as the program runs them: appending to a buffer, consuming a cursor. */
module RespStream {
  import opened Decimal
  import opened Sequences
  import opened Resp

  datatype Result = Ok(value: Value) | Err(err: ReadError)

  class Writer {
    var out: string

    constructor ()
      ensures out == ""
    {
      out := "";
    }

    method WriteValue(v: Value)
      modifies this
      ensures out == old(out) + Encode(v)
      decreases v, 1
    {
      match v {
        case Simple(text) => out := out + ("+" + text + CRLF);
        case Error(text) => out := out + ("-" + text + CRLF);
        case Integer(n) => out := out + (":" + FormatInt(n) + CRLF);
        case Bulk(text) =>
          var header := "$" + FormatInt(|text|) + CRLF;
          ghost var was := out;
          out := out + header;
          out := out + text;
          out := out + CRLF;
          Assoc(was, header, text);
          Assoc(was, header + text, CRLF);
        case NullBulk => out := out + "$-1\r\n";
        case NullArray => out := out + "*-1\r\n";
        case Array(elems) =>
          out := out + ("*" + FormatInt(|elems|) + CRLF);
          WriteElems(elems);
      }
    }

    /** The element loop of an array. */
    method WriteElems(elems: seq<Value>)
      modifies this
      ensures out == old(out) + EncodeAll(elems)
      decreases elems, 0
    {
      for i := 0 to |elems|
        invariant out == old(out) + EncodeAll(elems[..i])
      {
        WriteValue(elems[i]);
        EncodeAllSnoc(elems[..i], elems[i]);
        assert elems[..i] + [elems[i]] == elems[..i + 1];
        Assoc(old(out), EncodeAll(elems[..i]), Encode(elems[i]));
      }
      assert elems[..|elems|] == elems;
    }
  }

  class Reader {
    const limits: Limits
    var input: string

    constructor (s: string, lim: Limits)
      ensures input == s && limits == lim
    {
      input := s;
      limits := lim;
    }

    /** `r` and the remaining input are what decoding the old input gives. */
    ghost predicate Gives(r: Result, d: Read<Value>)
      reads this
    {
      match d
      case Done(v, rest) => r == Ok(v) && input == rest
      case Fail(e) => r == Err(e)
    }

    /** One line, without its line end. */
    method TakeLine() returns (r: Read<string>)
      modifies this
      ensures r == ReadLine(old(input), limits.block)
      ensures r.Done? ==> input == r.rest
    {
      var i := 0;
      while i < |input| && input[i] != '\n'
        invariant i <= |input| && input == old(input)
        invariant '\n' !in input[..i]
      {
        i := i + 1;
      }
      IndexIs(input, '\n', i);
      if !Granted(limits.block, if i == |input| then i else i + 1, 1) {
        r := Fail(Panic);
      } else if i == |input| {
        r := Fail(Eof);
      } else if i == 0 || input[i - 1] != '\r' {
        r := Fail(Protocol);
      } else {
        r := Done(input[..i - 1], input[i + 1..]);
        input := input[i + 1..];
      }
    }

    method ReadValue() returns (r: Result)
      modifies this
      ensures Gives(r, Decode(old(input), limits))
    {
      assert limits == Limits(limits.block, limits.depth);
      r := ReadNested(limits.depth);
    }

    /** readValue, with room on the stack for `room` more arrays around a value. */
    method ReadNested(room: nat) returns (r: Result)
      modifies this
      ensures Gives(r, Decode(old(input), Limits(limits.block, room)))
      decreases |input|, 0, 0
    {
      if |input| == 0 {
        return Err(Eof);
      }
      var b := input[0];
      if b == '+' || b == '-' || b == ':' {
        input := input[1..];
        var line := TakeLine();
        if line.Fail? {
          return Err(line.err);
        }
        if b == '+' {
          return Ok(Simple(line.value));
        } else if b == '-' {
          return Ok(Error(line.value));
        }
        var n := ParseInt(line.value);
        r := if n.None? then Err(Protocol) else Ok(Integer(n.value));
      } else if b == '$' {
        input := input[1..];
        r := ReadBulkString();
      } else if b == '*' {
        input := input[1..];
        r := ReadArray(room);
      } else {
        var line := TakeLine(); // the type byte is unread first
        if line.Fail? {
          return Err(line.err);
        }
        var parts := SplitInline(line.value);
        r := if Granted(limits.block, |parts|, VALUE_SIZE) then Ok(Array(Bulks(parts))) else Err(Panic);
      }
    }

    method ReadBulkString() returns (r: Result)
      modifies this
      ensures Gives(r, ReadBulk(old(input), limits.block))
    {
      var line := TakeLine();
      if line.Fail? {
        return Err(line.err);
      }
      var n := ParseInt(line.value);
      if n.None? {
        return Err(Protocol);
      }
      if n.value < 0 {
        return Ok(NullBulk);
      }
      var k: int := n.value;
      if !Granted(limits.block, Wrap(k + 2), 1) {
        return Err(Panic);
      }
      if |input| < k + 2 {
        return Err(Eof);
      }
      if input[k] != '\r' || input[k + 1] != '\n' {
        return Err(Protocol);
      }
      r := Ok(Bulk(input[..k]));
      input := input[k + 2..];
    }

    method ReadArray(room: nat) returns (r: Result)
      modifies this
      ensures Gives(r, DecodeArray(old(input), Limits(limits.block, room)))
      decreases |input|, 1, 0
    {
      var line := TakeLine();
      if line.Fail? {
        return Err(line.err);
      }
      var n := ParseInt(line.value);
      if n.None? {
        return Err(Protocol);
      }
      if n.value < 0 {
        return Ok(NullArray);
      }
      if !Granted(limits.block, n.value, VALUE_SIZE) {
        return Err(Panic);
      }
      if n.value > 0 && room == 0 {
        return Err(Panic); // the stack overflows in the call for the first element
      }
      var elems := FillElems(n.value, if room == 0 then 0 else room - 1);
      r := if elems.Fail? then Err(elems.err) else Ok(Array(elems.value));
    }

    /** The element loop of an array. */
    method FillElems(n: nat, room: nat) returns (r: Read<seq<Value>>)
      modifies this
      ensures r == DecodeMany(n, old(input), Limits(limits.block, room))
      ensures r.Done? ==> input == r.rest
      decreases |input|, 2, 0
    {
      var elems: seq<Value> := [];
      ghost var start := input;
      while |elems| < n
        invariant |elems| <= n && |input| <= |start| == |old(input)|
        invariant DecodeMany(|elems|, start, Limits(limits.block, room)) == Done(elems, input)
      {
        ManySnoc(|elems|, start, n, Limits(limits.block, room));
        var v := ReadNested(room);
        if v.Err? {
          return Fail(v.err);
        }
        elems := elems + [v.value];
      }
      r := Done(elems, input);
    }
  }

  /** Decoding one value more, after `k` of them have been decoded. */
  lemma {:induction false} ManySnoc(k: nat, s: string, n: nat, lim: Limits)
    requires DecodeMany(k, s, lim).Done? && k < n
    ensures var (vs, rest) := (DecodeMany(k, s, lim).value, DecodeMany(k, s, lim).rest);
      match Decode(rest, lim)
      case Done(v, rest') => DecodeMany(k + 1, s, lim) == Done(vs + [v], rest')
      case Fail(e) => DecodeMany(n, s, lim) == Fail(e)
    decreases k
  {
    if k == 0 {
      assert DecodeMany(0, s, lim) == Done([], s);
      if Decode(s, lim).Done? {
        assert [Decode(s, lim).value] + [] == [] + [Decode(s, lim).value];
      }
    } else {
      var v0, s1 := Decode(s, lim).value, Decode(s, lim).rest;
      ManySnoc(k - 1, s1, n - 1, lim);
      var (vs, rest) := (DecodeMany(k - 1, s1, lim).value, DecodeMany(k - 1, s1, lim).rest);
      if Decode(rest, lim).Done? {
        Assoc([v0], vs, [Decode(rest, lim).value]);
      }
    }
  }

  /** splitInline: one pass that remembers where the current word started, or -1 between words. */
  method SplitInline(line: string) returns (parts: seq<string>)
    ensures parts == Words(line)
  {
    parts := [];
    var start := -1;
    var i := 0;
    while i < |line|
      invariant i <= |line| && -1 <= start && (start < i || start == -1)
      invariant Reported(line, 0, -1) == parts + Reported(line, i, start)
    {
      if line[i] == ' ' || line[i] == '\t' {
        if start >= 0 {
          parts := parts + [line[start..i]];
          start := -1;
        }
      } else {
        if start < 0 {
          start := i;
        }
      }
      i := i + 1;
    }
    if start >= 0 {
      parts := parts + [line[start..]];
    }
    ReportedWords(line, 0, -1);
    assert line[0..] == line;
  }

  /** The words still to be reported by a scan that has reached `i` with a word open since `start`. */
  function Reported(line: string, i: nat, start: int): seq<string>
    requires i <= |line| && -1 <= start <= i
    decreases |line| - i
  {
    if i == |line| then if start >= 0 then [line[start..]] else []
    else if IsBlank(line[i]) then
      if start >= 0 then [line[start..i]] + Reported(line, i + 1, -1) else Reported(line, i + 1, -1)
    else Reported(line, i + 1, if start < 0 then i else start)
  }

  /** The part of the line whose words are still to be reported. */
  function Pending(line: string, i: nat, start: int): string
    requires i <= |line| && -1 <= start <= i
  {
    if start < 0 then line[i..] else line[start..]
  }

  lemma {:induction false} ReportedWords(line: string, i: nat, start: int)
    requires i <= |line| && (start == -1 || 0 <= start < i)
    requires start >= 0 ==> forall j :: start <= j < i ==> !IsBlank(line[j])
    ensures Reported(line, i, start) == Words(Pending(line, i, start))
    decreases |line| - i
  {
    if i == |line| {
      LineEnd(line, start);
    } else if IsBlank(line[i]) {
      ReportedWords(line, i + 1, -1);
      AtBlank(line, i, start);
    } else {
      ReportedWords(line, i + 1, if start < 0 then i else start);
    }
  }

  lemma AtBlank(line: string, i: nat, start: int)
    requires i < |line| && IsBlank(line[i]) && (start == -1 || 0 <= start < i)
    requires start >= 0 ==> forall j :: start <= j < i ==> !IsBlank(line[j])
    ensures Words(Pending(line, i, start)) == if start < 0 then Words(line[i + 1..]) else [line[start..i]] + Words(line[i + 1..])
  {
    BlankAt(line, i);
    if start >= 0 {
      WordCut(line, start, i);
    }
  }

  lemma LineEnd(line: string, start: int)
    requires start == -1 || 0 <= start < |line|
    requires start >= 0 ==> forall j :: start <= j < |line| ==> !IsBlank(line[j])
    ensures Words(Pending(line, |line|, start)) == if start < 0 then [] else [line[start..]]
  {
    if start < 0 {
      assert line[|line|..] == "";
    } else {
      var w := line[start..];
      WordEnds(w, |w|);
      assert w[..|w|] == w && w[|w|..] == "";
    }
    assert Words("") == [];
  }

  lemma BlankAt(line: string, i: nat)
    requires i < |line| && IsBlank(line[i])
    ensures Words(line[i..]) == Words(line[i + 1..])
  {
    BlankSkipped(line[i..]);
    assert line[i..][1..] == line[i + 1..];
  }

  lemma WordCut(line: string, start: nat, i: nat)
    requires start < i <= |line| && (forall j :: start <= j < i ==> !IsBlank(line[j]))
    requires i < |line| ==> IsBlank(line[i])
    ensures Words(line[start..]) == [line[start..i]] + Words(line[i..])
  {
    var s, k := line[start..], i - start;
    assert s[k..] == line[i..] && s[..k] == line[start..i];
    WordEnds(s, k);
  }
}
