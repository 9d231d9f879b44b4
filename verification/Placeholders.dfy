/** Rewriting `?` placeholders to `$1`, `$2`, ... for PostgreSQL, leaving single-quoted literals alone. */
module Placeholders {
  import Letters
  import opened Decimal
  import opened Sequences

  // ---------------------------------------------------------------- itoa

  /** The digit loop, prepending the last digit; it agrees with the shortest decimal text. */
  method Itoa(n: nat) returns (s: string)
    ensures s == Digits(n)
  {
    hide Digits;
    DigitsSplit(n, "");
    if n < 10 {
      return [DigitChar(n)];
    }
    s := "";
    var k := n;
    assert Digits(n) == Digits(k) + s;
    while k > 0
      invariant Digits(n) == (if k > 0 then Digits(k) else "") + s
    {
      DigitsSplit(k, s);
      s := [DigitChar(k % 10)] + s;
      k := k / 10;
    }
  }

  lemma DigitsSplit(k: nat, s: string)
    ensures k >= 10 ==> Digits(k) + s == Digits(k / 10) + ([DigitChar(k % 10)] + s)
    ensures k < 10 ==> Digits(k) == [DigitChar(k)]
  {
    if k >= 10 {
      assert Digits(k) == Digits(k / 10) + [DigitChar(k % 10)];
    }
  }

  /** Distinct numbers have distinct texts. */
  lemma DigitsInjective(m: nat, n: nat)
    requires Digits(m) == Digits(n)
    ensures m == n
  {
    assert Value(Digits(m)) == Value(Digits(n));
  }

  // ---------------------------------------------------------------- what the rewrite is to do

  function Quotes(s: string): nat {
    if s == "" then 0 else (if s[0] == '\'' then 1 else 0) + Quotes(s[1..])
  }

  /** Quote parity: `inside` is turned over once for each quote of the text gone by. */
  predicate Parity(before: string, inside: bool) {
    (Quotes(before) % 2 == 1) != inside
  }

  lemma ParityStep(s: string, inside: bool)
    requires s != ""
    ensures Parity(s, inside) == Parity(s[1..], inside != (s[0] == '\''))
  {
    var r := Quotes(s[1..]);
    assert (r + 1) % 2 == 1 <==> r % 2 == 0;
  }

  /** The text that replaces one character, given how many placeholders came before it. */
  function Replacement(c: char, inside: bool, n: nat): string {
    if c == '?' && !inside then "$" + Digits(n) else [c]
  }

  /** The rewrite of `q`, character by character: `inside` and `n` are the parity and the number of the next
      placeholder at its start. */
  function Rewrite(q: string, inside: bool, n: nat): string {
    if q == "" then ""
    else Replacement(q[0], inside, n) + Rewrite(q[1..], inside != (q[0] == '\''), Following(q[0], inside, n))
  }

  function Following(c: char, inside: bool, n: nat): nat {
    if c == '?' && !inside then n + 1 else n
  }

  /** The placeholders outside literals in a text. */
  function Holes(q: string, inside: bool): nat {
    if q == "" then 0 else Following(q[0], inside, 0) + Holes(q[1..], inside != (q[0] == '\''))
  }

  lemma RewriteFirst(q: string, inside: bool, n: nat)
    requires q != ""
    ensures Rewrite(q, inside, n)
         == Replacement(q[0], inside, n) + Rewrite(q[1..], inside != (q[0] == '\''), Following(q[0], inside, n))
    ensures Holes(q, inside) == Following(q[0], inside, 0) + Holes(q[1..], inside != (q[0] == '\''))
    ensures Following(q[0], inside, n) == n + Following(q[0], inside, 0)
  {
  }

  lemma RewriteAfterNothing(t: string, inside: bool, n: nat)
    ensures Rewrite(t, inside, n) == Rewrite("", inside, n) + Rewrite(t, Parity("", inside), n + Holes("", inside))
  {
    assert "" + Rewrite(t, inside, n) == Rewrite(t, inside, n);
  }

  /** The rewrite of a text from some point on depends on what is before only through the quote parity and
      the number of placeholders. */
  lemma {:induction false} RewriteConcat(s: string, t: string, inside: bool, n: nat)
    ensures Rewrite(s + t, inside, n)
         == Rewrite(s, inside, n) + Rewrite(t, Parity(s, inside), n + Holes(s, inside))
  {
    hide *;
    if s == "" {
      RewriteAfterNothing(t, inside, n);
      assert s + t == t;
    } else {
      var inside', n' := inside != (s[0] == '\''), Following(s[0], inside, n);
      assert (s + t)[1..] == s[1..] + t && (s + t)[0] == s[0];
      RewriteConcat(s[1..], t, inside', n');
      RewriteFirst(s, inside, n);
      RewriteFirst(s + t, inside, n);
      ParityStep(s, inside);
      Assoc(Replacement(s[0], inside, n), Rewrite(s[1..], inside', n'),
            Rewrite(t, Parity(s, inside), n + Holes(s, inside)));
    }
  }

  /** The recursion and the parity rule agree: a character is kept, unless it is a `?` after an even number
      of quotes; then it becomes `$k`, where k-1 placeholders stand before it. */
  lemma RewriteAt(before: string, c: char, after: string)
    ensures var inside, k := Quotes(before) % 2 == 1, 1 + Holes(before, false);
      Rewrite(before + ([c] + after), false, 1)
      == Rewrite(before, false, 1)
         + (Replacement(c, inside, k) + Rewrite(after, inside != (c == '\''), Following(c, inside, k)))
  {
    hide *;
    OutsideAtFirst(before);
    RewriteConcat(before, [c] + after, false, 1);
    RewriteFirst([c] + after, Parity(before, false), 1 + Holes(before, false));
    assert ([c] + after)[1..] == after;
  }

  lemma OutsideAtFirst(s: string)
    ensures Parity(s, false) == (Quotes(s) % 2 == 1)
  {
  }

  // ---------------------------------------------------------------- the scanner of the program

  /** rewritePlaceholders: a scan that looks one character ahead at a quote inside a literal, so as to take
      a doubled quote at one go. It gives what the quote-parity scan gives. */
  method RewritePlaceholders(query: string) returns (b: string)
    ensures b == Rewrite(query, false, 1)
  {
    hide Rewrite;
    b := "";
    var n := 1;
    var inString := false;
    var i := 0;
    assert query[0..] == query;
    ghost var all := Rewrite(query, false, 1);
    while i < |query|
      invariant i <= |query| && n >= 1
      invariant all == b + Rewrite(query[i..], inString, n)
    {
      var ch := query[i];
      Unfold(query, i, inString, n, b);
      if ch == '\'' && !inString {
        inString := true;
        b := b + [ch];
      } else if ch == '\'' && inString {
        if i + 1 < |query| && query[i + 1] == '\'' {
          Unfold(query, i + 1, false, n, b + [ch]);
          b := b + [ch];
          b := b + [ch];
          i := i + 1;
        } else {
          inString := false;
          b := b + [ch];
        }
      } else if ch == '?' && !inString {
        var digits := Itoa(n);
        b := b + ("$" + digits);
        n := n + 1;
      } else {
        b := b + [ch];
      }
      i := i + 1;
    }
    RewriteNothing(query[i..], inString, n);
  }

  lemma Unfold(q: string, i: nat, inside: bool, n: nat, b: string)
    requires i < |q|
    ensures b + Rewrite(q[i..], inside, n)
         == b + Replacement(q[i], inside, n) + Rewrite(q[i + 1..], inside != (q[i] == '\''), Following(q[i], inside, n))
  {
    assert q[i..][1..] == q[i + 1..];
  }

  lemma RewriteNothing(q: string, inside: bool, n: nat)
    requires q == ""
    ensures Rewrite(q, inside, n) == ""
  {
  }

  // ---------------------------------------------------------------- laws

  /** The replacement of a character leaves the parity as the character does, and has no placeholder. */
  lemma {:induction false} DigitsArePlain(s: string, inside: bool, n: nat)
    requires AllDigits(s)
    ensures Quotes(s) == 0 && Rewrite(s, inside, n) == s
  {
    if s != "" {
      assert s == [s[0]] + s[1..];
      DigitsArePlain(s[1..], inside, n);
    }
  }

  lemma {:induction false} NoHolesInDigits(s: string, inside: bool)
    requires AllDigits(s)
    ensures Holes(s, inside) == 0
  {
    if s != "" {
      NoHolesInDigits(s[1..], inside);
    }
  }

  lemma ReplacementIsPlain(c: char, inside: bool, n: nat, m: nat)
    ensures var r := Replacement(c, inside, n);
      && Rewrite(r, inside, m) == r && Holes(r, inside) == 0
      && Quotes(r) == if c == '\'' then 1 else 0
  {
    if c == '?' && !inside {
      var r := "$" + Digits(n);
      assert r[1..] == Digits(n);
      DigitsArePlain(Digits(n), inside, m);
      NoHolesInDigits(Digits(n), inside);
    } else {
      assert Rewrite([c], inside, m) == [c] + Rewrite("", inside != (c == '\''), Following(c, inside, m));
    }
  }

  /** Rewriting again, from any starting number, changes nothing. */
  lemma {:induction false} RewriteIdempotent(q: string, inside: bool, n: nat, m: nat)
    ensures Rewrite(Rewrite(q, inside, n), inside, m) == Rewrite(q, inside, n)
  {
    if q == "" {
      assert Rewrite(q, inside, n) == "";
    } else {
      hide *;
      var r, inside' := Replacement(q[0], inside, n), inside != (q[0] == '\'');
      var rest := Rewrite(q[1..], inside', Following(q[0], inside, n));
      RewriteFirst(q, inside, n);
      RewriteIdempotent(q[1..], inside', Following(q[0], inside, n), m);
      ReplacementKept(q[0], inside, n, rest, m);
    }
  }

  lemma ReplacementKept(c: char, inside: bool, n: nat, rest: string, m: nat)
    requires Rewrite(rest, inside != (c == '\''), m) == rest
    ensures Rewrite(Replacement(c, inside, n) + rest, inside, m) == Replacement(c, inside, n) + rest
  {
    hide Rewrite, Replacement, Digits;
    ReplacementIsPlain(c, inside, n, m);
    RewriteConcat(Replacement(c, inside, n), rest, inside, m);
  }

  /** No `$` outside literals. */
  predicate NoDollar(q: string, inside: bool) {
    q == "" || ((q[0] != '$' || inside) && NoDollar(q[1..], inside != (q[0] == '\'')))
  }

  /** Undoing the rewrite: the n-th `$` outside literals and the digits of n become a `?`. */
  function Restore(s: string, inside: bool, n: nat): string
    decreases |s|
  {
    if s == "" then ""
    else if s[0] == '$' && !inside && |s| > |Digits(n)| then "?" + Restore(s[1 + |Digits(n)|..], inside, n + 1)
    else [s[0]] + Restore(s[1..], inside != (s[0] == '\''), n)
  }

  lemma RestoreFirst(c: char, rest: string, inside: bool, n: nat)
    requires c == '$' ==> inside
    ensures Restore(Replacement(c, inside, n) + rest, inside, n)
         == [c] + Restore(rest, inside != (c == '\''), Following(c, inside, n))
  {
    hide Digits, AllDigits, Value;
    var s := Replacement(c, inside, n) + rest;
    if c == '?' && !inside {
      assert s[0] == '$' && s[1 + |Digits(n)|..] == rest;
    } else {
      assert s[0] == c && s[1..] == rest;
    }
  }

  /** So the rewrite loses nothing: a query without `$` outside its literals can be read back. */
  lemma {:induction false} RewriteInvertible(q: string, inside: bool, n: nat)
    requires NoDollar(q, inside)
    ensures Restore(Rewrite(q, inside, n), inside, n) == q
  {
    if q != "" {
      hide Replacement, Restore, Following, Digits;
      var inside', n' := inside != (q[0] == '\''), Following(q[0], inside, n);
      RewriteInvertible(q[1..], inside', n');
      RewriteFirst(q, inside, n);
      RestoreFirst(q[0], Rewrite(q[1..], inside', n'), inside, n);
      assert q == [q[0]] + q[1..];
    }
  }

  // ---------------------------------------------------------------- what PostgreSQL reads

  predicate IdentStart(c: char) {
    'a' <= c <= 'z' || 'A' <= c <= 'Z' || c == '_' || c as int >= 128
  }

  predicate IdentCont(c: char) {
    IdentStart(c) || IsDigit(c) || c == '$'
  }

  /** Where PostgreSQL's scanner stands before a character. */
  datatype Lex =
    | Top                                 // between tokens, or in an operator
    | Word | E                            // in an identifier; `E` is one that is only an `e` so far
    | Number                              // in a number; a letter makes it an error in the query itself
    | Tag(tag: string)                    // after a `$` that may open a dollar quote with this tag
    | Lit | LitE | Escape | LitEQuote     // in '...'; in E'...', after its backslash, after a quote in it
    | Name                                // in a quoted identifier
    | Dash | Slash                        // after a character that may open a comment
    | Line                                // in a line comment
    | Block(d: nat) | BlockStar(d: nat) | BlockSlash(d: nat) // in a block comment, `d` of them around
    | Dollar(tag: string, seen: string)   // in a dollar quote, and what has been seen of its text

  function Start(c: char): Lex {
    if c == '\'' then Lit
    else if c == '"' then Name
    else if c == '-' then Dash
    else if c == '/' then Slash
    else if c == '$' then Tag("")
    else if c == 'e' || c == 'E' then E
    else if IdentStart(c) then Word
    else if IsDigit(c) then Number
    else Top
  }

  predicate EndsWith(s: string, end: string) {
    |end| <= |s| && s[|s| - |end|..] == end
  }

  function Next(l: Lex, c: char): Lex {
    match l
    case Top => Start(c)
    case Word => if IdentCont(c) then Word else Start(c)
    case E => if c == '\'' then LitE else if IdentCont(c) then Word else Start(c)
    case Number => if IdentStart(c) || IsDigit(c) then Number else Start(c)
    case Tag(tag) =>
      if c == '$' then Dollar(tag, "")
      else if IdentStart(c) || (tag != "" && IsDigit(c)) then Tag(tag + [c])
      else Start(c)
    case Lit => if c == '\'' then Top else Lit
    case LitE => if c == '\\' then Escape else if c == '\'' then LitEQuote else LitE
    case Escape => LitE
    case LitEQuote => if c == '\'' then LitE else Start(c)
    case Name => if c == '"' then Top else Name
    case Dash => if c == '-' then Line else Start(c)
    case Slash => if c == '*' then Block(0) else Start(c)
    case Line => if c == '\n' || c == '\r' then Top else Line
    case Block(d) => if c == '*' then BlockStar(d) else if c == '/' then BlockSlash(d) else Block(d)
    case BlockStar(d) =>
      if c == '/' then (if d == 0 then Top else Block(d - 1)) else if c == '*' then BlockStar(d) else Block(d)
    case BlockSlash(d) => if c == '*' then Block(d + 1) else if c == '/' then BlockSlash(d) else Block(d)
    case Dollar(tag, seen) =>
      if EndsWith(seen + [c], "$" + tag + "$") then Top else Dollar(tag, seen + [c])
  }

  /** Inside a literal, a quoted identifier or a comment, where every character is only itself. */
  predicate Inert(l: Lex) {
    l.Lit? || l.LitE? || l.Escape? || l.Name? || l.Line? || l.Block? || l.BlockStar? || l.BlockSlash? || l.Dollar?
  }

  /** Here a `$` with digits is a parameter, and not part of something that has begun before. */
  predicate ParamHere(l: Lex) {
    !Inert(l) && !l.Word? && !l.E? && !l.Tag?
  }

  /** A text as the scanner sees it: characters, and parameters with their number. A parameter that runs
      into a letter is an error, at which the scan ends. */
  datatype Piece = Text(c: char) | Param(n: nat) | Junk

  function DigitRun(s: string): (k: nat)
    ensures k <= |s| && AllDigits(s[..k]) && (k < |s| ==> !IsDigit(s[k]))
  {
    if s == "" || !IsDigit(s[0]) then 0
    else
      var k := 1 + DigitRun(s[1..]);
      assert s[..k] == [s[0]] + s[1..][..k - 1];
      k
  }

  /** A parameter takes the longest run of digits after its `$`. */
  function Scan(s: string, l: Lex): seq<Piece>
    decreases |s|, 0
  {
    if s == "" then []
    else if s[0] == '$' && ParamHere(l) && DigitRun(s[1..]) > 0 then
      var k := DigitRun(s[1..]);
      [Param(Value(s[1..][..k]))] + AfterParam(s[1 + k..])
    else [Text(s[0])] + Scan(s[1..], Next(l, s[0]))
  }

  function AfterParam(s: string): seq<Piece>
    decreases |s|, 1
  {
    if s != "" && IdentStart(s[0]) then [Junk] else Scan(s, Top)
  }

  /** What is meant: the k-th `?` that PostgreSQL does not take for text is parameter k, and everything else
      is itself. */
  function Meant(q: string, l: Lex, n: nat): seq<Piece> {
    if q == "" then []
    else if q[0] == '?' && !Inert(l) then [Param(n)] + Meant(q[1..], Top, n + 1)
    else [Text(q[0])] + Meant(q[1..], Next(l, q[0]), n)
  }

  /** The program and PostgreSQL agree on which `?` are placeholders, each of them stands where a parameter
      may begin and no digit or letter follows it, and no parameter was there before. */
  predicate Apart(q: string, inside: bool, l: Lex) {
    q == ""
    || if q[0] == '?' then
         if Inert(l) then inside && Apart(q[1..], inside, Next(l, '?'))
         else !inside && ParamHere(l) && Separate(q[1..]) && Apart(q[1..], inside, Top)
       else
         && !(q[0] == '$' && ParamHere(l) && q[1..] != "" && IsDigit(q[1]))
         && Apart(q[1..], inside != (q[0] == '\''), Next(l, q[0]))
  }

  predicate Separate(s: string) {
    s == "" || (!IsDigit(s[0]) && !IdentStart(s[0]))
  }

  lemma {:induction false} RunAdds(d: string, rest: string)
    requires AllDigits(d)
    ensures DigitRun(d + rest) == |d| + DigitRun(rest)
  {
    if d == "" {
      assert d + rest == rest;
    } else {
      assert (d + rest)[1..] == d[1..] + rest && (d + rest)[0] == d[0];
      RunAdds(d[1..], rest);
    }
  }

  /** Digits that run on make a number larger. */
  lemma {:induction false} ValueGrows(d: string, e: string)
    requires AllDigits(d) && AllDigits(e)
    ensures AllDigits(d + e) && (e != "" ==> Value(d + e) >= 10 * Value(d))
    decreases |e|
  {
    var e' := if e == "" then e else e[..|e| - 1];
    if e != "" {
      assert (d + e)[..|d + e| - 1] == d + e';
      ValueGrows(d, e');
      assert e' == "" ==> d + e' == d;
    }
  }

  /** What matters of the character after a parameter. */
  predicate SameKind(c: char, d: char) {
    && (IsDigit(c) <==> IsDigit(d))
    && (IdentStart(c) <==> IdentStart(d))
  }

  lemma FirstRewritten(q: string, inside: bool, n: nat)
    ensures q == "" ==> Rewrite(q, inside, n) == ""
    ensures q != "" ==> Rewrite(q, inside, n) != "" && SameKind(Rewrite(q, inside, n)[0], q[0])
  {
    hide Digits, Value;
  }

  lemma ScanParam(s: string, l: Lex)
    requires s != "" && s[0] == '$' && ParamHere(l) && DigitRun(s[1..]) > 0
    ensures var k := DigitRun(s[1..]);
      Scan(s, l) == [Param(Value(s[1..][..k]))] + AfterParam(s[1 + k..])
  {
    hide DigitRun, Value, ParamHere, Next, AfterParam;
  }

  /** How a rewritten placeholder is read: its own digits and those that run on after them. */
  lemma ScanHole(n: nat, rest: string, l: Lex)
    requires ParamHere(l)
    ensures var k := DigitRun(rest);
      && AllDigits(Digits(n) + rest[..k])
      && Scan("$" + Digits(n) + rest, l) == [Param(Value(Digits(n) + rest[..k]))] + AfterParam(rest[k..])
  {
    hide *;
    var k, d := DigitRun(rest), Digits(n);
    var s := "$" + d + rest;
    RunAdds(d, rest);
    assert s[0] == '$' && s[1..] == d + rest;
    assert s[1..][..|d| + k] == d + rest[..k];
    assert s[1 + (|d| + k)..] == rest[k..];
    ScanParam(s, l);
  }

  lemma ScanOther(c: char, rest: string, l: Lex)
    requires c == '$' && ParamHere(l) ==> DigitRun(rest) == 0
    ensures Scan([c] + rest, l) == [Text(c)] + Scan(rest, Next(l, c))
  {
    hide DigitRun, Value, ParamHere, Next, AfterParam;
    assert ([c] + rest)[1..] == rest;
  }

  lemma RunStarts(s: string)
    ensures DigitRun(s) == 0 <==> s == "" || !IsDigit(s[0])
  {
  }

  lemma SameTails<T>(x: T, s: seq<T>, t: seq<T>)
    ensures [x] + s == [x] + t <==> s == t
  {
    assert ([x] + s)[1..] == s && ([x] + t)[1..] == t;
  }

  lemma OtherHeads<T>(x: T, y: T, s: seq<T>, t: seq<T>)
    requires x != y
    ensures [x] + s != [y] + t
  {
    assert ([x] + s)[0] == x && ([y] + t)[0] == y;
  }

  lemma MeantFirst(q: string, l: Lex, n: nat)
    requires q != ""
    ensures Meant(q, l, n)
         == if q[0] == '?' && !Inert(l) then [Param(n)] + Meant(q[1..], Top, n + 1)
            else [Text(q[0])] + Meant(q[1..], Next(l, q[0]), n)
  {
    hide Inert, Next;
  }

  /** PostgreSQL reads the rewritten query as it is meant if and only if it is `Apart`. */
  lemma {:induction false} ScanIsMeant(q: string, inside: bool, l: Lex, n: nat)
    requires n >= 1
    ensures Scan(Rewrite(q, inside, n), l) == Meant(q, l, n) <==> Apart(q, inside, l)
  {
    if q == "" {
      NothingMeant(inside, l, n);
    } else if q[0] == '?' && !inside {
      hide *;
      if !Inert(l) && ParamHere(l) {
        ScanIsMeant(q[1..], inside, Top, n + 1);
      }
      HoleIsMeant(q, l, n);
    } else {
      hide *;
      ScanIsMeant(q[1..], inside != (q[0] == '\''), Next(l, q[0]), n);
      KeptIsMeant(q, inside, l, n);
    }
  }

  lemma NothingMeant(inside: bool, l: Lex, n: nat)
    ensures Scan(Rewrite("", inside, n), l) == Meant("", l, n) && Apart("", inside, l)
  {
    assert Rewrite("", inside, n) == "";
  }

  lemma NotInert(l: Lex)
    ensures ParamHere(l) ==> !Inert(l)
  {
  }

  /** A character that is kept. */
  lemma KeptIsMeant(q: string, inside: bool, l: Lex, n: nat)
    requires q != "" && !(q[0] == '?' && !inside)
    requires Scan(Rewrite(q[1..], inside != (q[0] == '\''), n), Next(l, q[0])) == Meant(q[1..], Next(l, q[0]), n)
      <==> Apart(q[1..], inside != (q[0] == '\''), Next(l, q[0]))
    ensures Scan(Rewrite(q, inside, n), l) == Meant(q, l, n) <==> Apart(q, inside, l)
  {
    hide Scan, Rewrite, Meant, Next, ParamHere, Inert, DigitRun, Digits, Value;
    var rest := Rewrite(q[1..], inside != (q[0] == '\''), n);
    RewriteFirst(q, inside, n);
    MeantFirst(q, l, n);
    NotInert(l);
    FirstRewritten(q[1..], inside != (q[0] == '\''), n);
    RunStarts(rest);
    assert Rewrite(q, inside, n) == [q[0]] + rest;
    if q[0] == '$' && ParamHere(l) && DigitRun(rest) > 0 {
      DollarIsParam(rest, l);
      OtherHeads(Param(Value(rest[..DigitRun(rest)])), Text('$'), AfterParam(rest[DigitRun(rest)..]),
                 Meant(q[1..], Next(l, q[0]), n));
    } else {
      ScanOther(q[0], rest, l);
      if q[0] == '?' && !Inert(l) {
        OtherHeads(Text('?'), Param(n), Scan(rest, Next(l, '?')), Meant(q[1..], Top, n + 1));
      } else {
        SameTails(Text(q[0]), Scan(rest, Next(l, q[0])), Meant(q[1..], Next(l, q[0]), n));
      }
    }
  }

  lemma DollarIsParam(rest: string, l: Lex)
    requires ParamHere(l) && DigitRun(rest) > 0
    ensures var k := DigitRun(rest);
      Scan(['$'] + rest, l) == [Param(Value(rest[..k]))] + AfterParam(rest[k..])
  {
    hide *;
    var s := ['$'] + rest;
    assert s[0] == '$' && s[1..] == rest && s[1 + DigitRun(rest)..] == rest[DigitRun(rest)..];
    ScanParam(s, l);
  }

  /** A placeholder that is rewritten. */
  lemma HoleIsMeant(q: string, l: Lex, n: nat)
    requires q != "" && q[0] == '?' && n >= 1
    requires !Inert(l) && ParamHere(l) ==>
      (Scan(Rewrite(q[1..], false, n + 1), Top) == Meant(q[1..], Top, n + 1) <==> Apart(q[1..], false, Top))
    ensures Scan(Rewrite(q, false, n), l) == Meant(q, l, n) <==> Apart(q, false, l)
  {
    hide Scan, Rewrite, Meant, Next, ParamHere, Inert, DigitRun, Digits, Value, AfterParam;
    var rest := Rewrite(q[1..], false, n + 1);
    RewriteFirst(q, false, n);
    MeantFirst(q, l, n);
    NotInert(l);
    if ParamHere(l) {
      HoleIsRead(q, l, n);
    } else {
      var tail := Digits(n) + rest;
      assert Rewrite(q, false, n) == ['$'] + tail;
      ScanOther('$', tail, l);
      if Inert(l) {
        OtherHeads(Text('$'), Text('?'), Scan(tail, Next(l, '$')), Meant(q[1..], Next(l, '?'), n));
      } else {
        OtherHeads(Text('$'), Param(n), Scan(tail, Next(l, '$')), Meant(q[1..], Top, n + 1));
      }
    }
  }

  lemma HoleIsRead(q: string, l: Lex, n: nat)
    requires q != "" && q[0] == '?' && n >= 1 && ParamHere(l)
    ensures var rest := Rewrite(q[1..], false, n + 1);
      Scan(Rewrite(q, false, n), l) == [Param(n)] + Meant(q[1..], Top, n + 1)
      <==> Separate(q[1..]) && Scan(rest, Top) == Meant(q[1..], Top, n + 1)
  {
    hide Scan, Rewrite, Meant, Next, ParamHere, Inert, DigitRun, Digits, Value, AfterParam;
    var rest := Rewrite(q[1..], false, n + 1);
    var k := DigitRun(rest);
    RewriteFirst(q, false, n);
    FirstRewritten(q[1..], false, n + 1);
    ScanHole(n, rest, l);
    RunStarts(rest);
    DigitsValue(n);
    if k == 0 {
      assert rest[..k] == "" && rest[k..] == rest && Digits(n) + "" == Digits(n);
      AfterHole(q[1..], rest, n + 1);
      SameTails(Param(n), AfterParam(rest), Meant(q[1..], Top, n + 1));
    } else {
      ValueGrows(Digits(n), rest[..k]);
      OtherHeads(Param(Value(Digits(n) + rest[..k])), Param(n), AfterParam(rest[k..]), Meant(q[1..], Top, n + 1));
    }
  }

  lemma DigitsValue(n: nat)
    ensures AllDigits(Digits(n)) && Value(Digits(n)) == n
  {
  }

  /** Past the digits: a letter is an error, and is never meant to be one. */
  lemma AfterHole(q: string, rest: string, n: nat)
    requires rest == Rewrite(q, false, n) && DigitRun(rest) == 0
    ensures AfterParam(rest) == Meant(q, Top, n) <==> Separate(q) && Scan(rest, Top) == Meant(q, Top, n)
  {
    hide Scan, Rewrite, Next, DigitRun;
    FirstRewritten(q, false, n);
    RunStarts(rest);
    if q != "" && IdentStart(q[0]) {
      MeantFirst(q, Top, n);
      OtherHeads(Junk, Text(q[0]), [], Meant(q[1..], Next(Top, q[0]), n));
      assert [Junk] + [] == [Junk];
    }
  }

  // ---------------------------------------------------------------- queries that lose their meaning

  ghost predicate Kept(q: string) {
    Scan(Rewrite(q, false, 1), Top) == Meant(q, Top, 1)
  }

  /** A digit right after a placeholder is taken into its number, and a letter is an error there. */
  lemma TakenOn(c: char, t: string)
    requires IsDigit(c) || IdentStart(c)
    ensures !Kept("?" + ([c] + t))
  {
    hide Scan, Rewrite, Meant;
    var q := "?" + ([c] + t);
    assert q[1..] == [c] + t;
    ScanIsMeant(q, false, Top, 1);
  }

  /** Where the scanner stands after a text. */
  function Lexed(s: string, l: Lex): Lex {
    if s == "" then l else Lexed(s[1..], Next(l, s[0]))
  }

  lemma {:induction false} Skipped(s: string, t: string, l: Lex)
    requires '?' !in s && '$' !in s && '\'' !in s
    ensures Apart(s + t, false, l) <==> Apart(t, false, Lexed(s, l))
  {
    hide Next, ParamHere, Inert;
    if s == "" {
      assert s + t == t;
    } else {
      assert (s + t)[1..] == s[1..] + t && (s + t)[0] == s[0];
      Skipped(s[1..], t, Next(l, s[0]));
    }
  }

  predicate Identifier(w: string) {
    w != "" && IdentStart(w[0]) && forall i :: 0 <= i < |w| ==> IdentStart(w[i]) || IsDigit(w[i])
  }

  lemma {:induction false} StillWord(w: string, l: Lex)
    requires (l.Word? || l.E?) && forall i :: 0 <= i < |w| ==> IdentStart(w[i]) || IsDigit(w[i])
    ensures Lexed(w, l).Word? || Lexed(w, l).E?
  {
    if w != "" {
      StillWord(w[1..], Next(l, w[0]));
    }
  }

  /** An identifier takes in the `$` of a placeholder right after it. */
  lemma TakenIn(w: string, t: string)
    requires Identifier(w)
    ensures !Kept(w + ("?" + t))
  {
    hide Scan, Rewrite, Meant;
    ScanIsMeant(w + ("?" + t), false, Top, 1);
    Skipped(w, "?" + t, Top);
    StillWord(w[1..], Next(Top, w[0]));
  }

  /** A `$` before a placeholder opens a dollar quote with it, and one before a digit is a parameter. */
  lemma TakenBefore(c: char, t: string)
    requires c == '?' || IsDigit(c)
    ensures !Kept("$" + ([c] + t))
  {
    hide Scan, Rewrite, Meant;
    var q := "$" + ([c] + t);
    assert q[1..] == [c] + t;
    ScanIsMeant(q, false, Top, 1);
  }

  /** For instance `LIMIT?`, while `a=?` is kept. */
  lemma LimitTaken()
    ensures !Kept("LIMIT?") && Kept("a=?")
  {
    hide Scan, Rewrite, Meant;
    TakenIn("LIMIT", "");
    assert "LIMIT" + ("?" + "") == "LIMIT?";
    ScanIsMeant("a=?", false, Top, 1);
    Skipped("a=", "?", Top);
    assert "a=" + "?" == "a=?" && "a="[1..] == "=" && "="[1..] == "" && "?"[1..] == "";
    assert Lexed("=", Word) == Lexed("", Top) == Top;
  }

  /** And `$1?`, where one parameter is named twice. */
  lemma DollarTaken()
    ensures Rewrite("$1?", false, 1) == "$1$1" && !Kept("$1?")
  {
    hide Scan, Meant;
    TakenBefore('1', "?");
    assert "$" + (['1'] + "?") == "$1?";
    assert Digits(1) == "1";
    assert "$1?"[1..] == "1?" && "1?"[1..] == "?" && "?"[1..] == "";
    assert Rewrite("?", false, 1) == "$1" + Rewrite("", false, 2) == "$1";
    assert Rewrite("1?", false, 1) == "1" + "$1" == "1$1";
    assert "$" + "1$1" == "$1$1";
  }

  // ---------------------------------------------------------------- the scanner's contexts

  lemma {:induction false} Stays(w: string, l: Lex)
    requires forall i :: 0 <= i < |w| ==> Next(l, w[i]) == l
    ensures Lexed(w, l) == l
  {
    if w != "" {
      assert Next(l, w[0]) == l;
      assert forall i :: 0 <= i < |w[1..]| ==> w[1..][i] == w[i + 1];
      Stays(w[1..], l);
    }
  }

  lemma {:induction false} LexedConcat(s: string, t: string, l: Lex)
    ensures Lexed(s + t, l) == Lexed(t, Lexed(s, l))
  {
    hide Next;
    if s == "" {
      assert s + t == t;
    } else {
      assert (s + t)[1..] == s[1..] + t;
      LexedConcat(s[1..], t, Next(l, s[0]));
    }
  }

  lemma TwoChars(c: char, d: char, l: Lex)
    ensures Lexed([c], l) == Next(l, c) && Lexed([c, d], l) == Next(Next(l, c), d)
  {
    assert [c][1..] == "" && [d][1..] == "" && [c, d][1..] == [d] && [c, d][0] == c;
    assert Lexed([d], Next(l, c)) == Next(Next(l, c), d);
  }

  /** A context: from `open` on everything is text up to `close`, which ends it. */
  predicate Encloses(open: string, w: string, close: string) {
    Inert(Lexed(open + w, Top)) && Lexed(open + w + close, Top) == Top
  }

  lemma EnclosedBy(open: string, w: string, close: string, l: Lex)
    requires Lexed(open, Top) == l && Inert(l) && (forall i :: 0 <= i < |w| ==> Next(l, w[i]) == l)
    requires Lexed(close, l) == Top
    ensures Encloses(open, w, close)
  {
    hide Next, Inert;
    LexedConcat(open, w, Top);
    Stays(w, l);
    LexedConcat(open + w, close, Top);
  }

  /** Literals, quoted identifiers and line comments end where they should and nowhere before. */
  lemma SimpleContexts(w: string)
    ensures '\'' !in w ==> Encloses("'", w, "'")
    ensures '"' !in w ==> Encloses("\"", w, "\"")
    ensures '\n' !in w && '\r' !in w ==> Encloses("--", w, "\n") && Encloses("--", w, "\r")
  {
    TwoChars('\'', '\'', Top);
    TwoChars('"', '"', Top);
    TwoChars('-', '-', Top);
    TwoChars('\'', '\'', Lit);
    TwoChars('"', '"', Name);
    TwoChars('\n', '\r', Line);
    TwoChars('\r', '\n', Line);
    assert ['\''] == "'" && ['"'] == "\"" && ['-', '-'] == "--" && ['\n'] == "\n" && ['\r'] == "\r";
    if '\'' !in w {
      EnclosedBy("'", w, "'", Lit);
    }
    if '"' !in w {
      EnclosedBy("\"", w, "\"", Name);
    }
    if '\n' !in w && '\r' !in w {
      EnclosedBy("--", w, "\n", Line);
      EnclosedBy("--", w, "\r", Line);
    }
  }

  /** Block comments nest. */
  lemma BlockContexts(w: string, d: nat)
    ensures '*' !in w && '/' !in w ==> Encloses("/*", w, "*/")
    ensures Lexed("/*", Top) == Block(0) && Lexed("/*", Block(d)) == Block(d + 1)
    ensures Lexed("*/", Block(d + 1)) == Block(d) && Lexed("*/", Block(0)) == Top
  {
    TwoChars('/', '*', Top);
    TwoChars('/', '*', Block(d));
    TwoChars('*', '/', Block(d + 1));
    TwoChars('*', '/', Block(0));
    assert ['/', '*'] == "/*" && ['*', '/'] == "*/";
    if '*' !in w && '/' !in w {
      EnclosedBy("/*", w, "*/", Block(0));
    }
  }

  /** E'...' and e'...' open a literal in which ... */
  lemma EscapeOpens(w: string)
    requires '\'' !in w && '\\' !in w
    ensures Lexed("E'" + w, Top) == LitE && Lexed("e'" + w, Top) == LitE && Inert(LitE)
  {
    TwoChars('E', '\'', Top);
    TwoChars('e', '\'', Top);
    assert ['E', '\''] == "E'" && ['e', '\''] == "e'";
    LexedConcat("E'", w, Top);
    LexedConcat("e'", w, Top);
    Stays(w, LitE);
  }

  /** ... a backslash keeps a quote inside, and a doubled quote stays inside, there and in '...' alike. */
  lemma EscapeContexts(c: char)
    ensures Lexed(['\\', c], LitE) == LitE && Lexed("''", LitE) == LitE && Lexed("''", Lit) == Lit
    ensures !Inert(Lexed("'", LitE)) && Lexed("' ", LitE) == Top
  {
    TwoChars('\\', c, LitE);
    TwoChars('\'', '\'', LitE);
    TwoChars('\'', '\'', Lit);
    TwoChars('\'', ' ', LitE);
    assert ['\'', '\''] == "''" && ['\'', ' '] == "' " && ['\''] == "'";
  }

  lemma {:induction false} StillNumber(w: string)
    requires forall i :: 0 <= i < |w| ==> IdentStart(w[i]) || IsDigit(w[i])
    ensures Lexed(w, Number) == Number
  {
    if w != "" {
      StillNumber(w[1..]);
    }
  }

  /** An identifier goes on over a `$` and the digits after it; a number goes on over letters, and a parameter
      may begin right after it. */
  lemma WordContexts(w: string, d: string, n: string)
    requires Identifier(w) && AllDigits(d)
    requires n != "" && IsDigit(n[0]) && forall i :: 0 <= i < |n| ==> IdentStart(n[i]) || IsDigit(n[i])
    ensures Lexed(w + ("$" + d), Top).Word? && !ParamHere(Lexed(w, Top)) && !ParamHere(Lexed(w + ("$" + d), Top))
    ensures Lexed(n, Top) == Number && ParamHere(Number)
  {
    StillWord(w[1..], Next(Top, w[0]));
    LexedConcat(w, "$" + d, Top);
    assert ("$" + d)[1..] == d;
    DigitsInWord(d);
    StillNumber(n[1..]);
  }

  lemma {:induction false} DigitsInWord(d: string)
    requires AllDigits(d)
    ensures Lexed(d, Word) == Word
  {
    if d != "" {
      DigitsInWord(d[1..]);
    }
  }

  lemma {:induction false} TagGrows(tag: string, more: string)
    requires forall i :: 0 <= i < |more| ==> IdentStart(more[i]) || (tag + more[..i] != "" && IsDigit(more[i]))
    ensures Lexed(more, Tag(tag)) == Tag(tag + more)
    decreases |more|
  {
    if more == "" {
      assert tag + more == tag;
    } else {
      var c, rest := more[0], more[1..];
      assert tag + more[..0] == tag;
      forall i | 0 <= i < |rest| ensures IdentStart(rest[i]) || (tag + [c] + rest[..i] != "" && IsDigit(rest[i])) {
        assert rest[i] == more[i + 1];
      }
      TagGrows(tag + [c], rest);
      assert tag + [c] + rest == tag + more;
    }
  }

  /** The last character of an end is the last of the text, and its first is among those before. */
  lemma EndChars(s: string, end: string)
    requires |end| >= 2
    ensures EndsWith(s, end) ==> |s| >= 2 && s[|s| - 1] == end[|end| - 1] && end[0] in s[..|s| - 1]
  {
    if EndsWith(s, end) {
      var i := |s| - |end|;
      assert s[i..][|end| - 1] == s[|s| - 1] && s[i..][0] == s[..|s| - 1][i];
    }
  }

  lemma {:induction false} DollarGrows(tag: string, seen: string, more: string)
    requires '$' !in more
    ensures Lexed(more, Dollar(tag, seen)) == Dollar(tag, seen + more)
    decreases |more|
  {
    if more == "" {
      assert seen + more == seen;
    } else {
      var c, rest := more[0], more[1..];
      var now := seen + [c];
      EndChars(now, "$" + tag + "$");
      DollarGrows(tag, now, rest);
      assert now + rest == seen + more;
    }
  }

  /** A dollar quote ends with its own tag. */
  lemma DollarContexts(tag: string, w: string)
    requires (tag == "" || Identifier(tag)) && '$' !in w
    ensures Encloses("$" + tag + "$", w, "$" + tag + "$")
  {
    hide Next;
    var quote, end := "$" + tag + "$", w + ("$" + tag);
    OpensDollar(tag);
    LexedConcat(quote, w, Top);
    DollarGrows(tag, "", w);
    assert "" + w == w;
    LexedConcat(quote + w, quote, Top);
    ClosesDollar(tag, w);
  }

  lemma OpensDollar(tag: string)
    requires tag == "" || Identifier(tag)
    ensures Lexed("$" + tag + "$", Top) == Dollar(tag, "")
  {
    assert "$"[1..] == "" && Lexed("$", Top) == Tag("");
    LexedConcat("$", tag, Top);
    TagGrows("", tag);
    assert "" + tag == tag;
    LexedConcat("$" + tag, "$", Top);
    assert Lexed("$", Tag(tag)) == Dollar(tag, "");
  }

  lemma ClosesDollar(tag: string, w: string)
    requires (tag == "" || Identifier(tag)) && '$' !in w
    ensures Lexed("$" + tag + "$", Dollar(tag, w)) == Top
  {
    hide EndsWith;
    FirstDollar(tag, w);
    LexedConcat("$", tag, Dollar(tag, w));
    DollarGrows(tag, w + "$", tag);
    LexedConcat("$" + tag, "$", Dollar(tag, w));
    LastDollar(tag, w);
  }

  lemma FirstDollar(tag: string, w: string)
    requires '$' !in w
    ensures Lexed("$", Dollar(tag, w)) == Dollar(tag, w + "$")
  {
    EndChars(w + "$", "$" + tag + "$");
    assert (w + "$")[..|w + "$"| - 1] == w;
    assert "$"[1..] == "";
  }

  lemma LastDollar(tag: string, w: string)
    ensures Lexed("$", Dollar(tag, w + "$" + tag)) == Top
  {
    var quote := "$" + tag + "$";
    assert w + "$" + tag + "$" == w + quote;
    assert (w + quote)[|w + quote| - |quote|..] == quote;
    assert "$"[1..] == "";
  }

  /** An identifier starts with a letter, an underscore or a byte that is not ASCII. */
  lemma IdentifierLetters(c: char)
    ensures IdentStart(c) <==> c in Letters.SMALL || c in Letters.CAPITAL || c == '_' || c as int >= 128
  {
    hide Letters.SMALL, Letters.CAPITAL;
    Letters.SmallLetters(c);
    Letters.CapitalLetters(c);
  }
}
