/** The KEYS pattern matcher: a backtracking loop, and the language of patterns it decides. */
module Glob {

  /** One unit of a pattern. A class is a plain set of characters: no ranges and no negation. */
  datatype Token = Star | Any | Class(chars: string) | Lit(c: char)

  /** A pattern text is a token sequence, unless a `[` is never closed; `body` is then all that follows it.
      `Deep` is a pattern as far as the stack goes: after `tokens` comes a star whose nested call overflows. */
  datatype Pattern =
    | Closed(tokens: seq<Token>) | Unclosed(tokens: seq<Token>, body: string) | Deep(tokens: seq<Token>)

  /** What a call of the matcher does: it can also end the program, running off the end of an unclosed class
      or overflowing the stack. */
  datatype Outcome = Yes | No | Panic

  /** The index of the first `]` at or after `i`, or the length. */
  function ClassEnd(pat: string, i: nat): (end: nat)
    requires i <= |pat|
    ensures i <= end <= |pat|
    ensures forall j :: i <= j < end ==> pat[j] != ']'
    ensures end < |pat| ==> pat[end] == ']'
    decreases |pat| - i
  {
    if i == |pat| || pat[i] == ']' then i else ClassEnd(pat, i + 1)
  }

  function Prepend(t: Token, p: Pattern): Pattern {
    p.(tokens := [t] + p.tokens)
  }

  function Parse(pat: string): Pattern {
    if pat == "" then Closed([])
    else if pat[0] == '*' then Prepend(Star, Parse(pat[1..]))
    else if pat[0] == '?' then Prepend(Any, Parse(pat[1..]))
    else if pat[0] == '[' then
      var end := ClassEnd(pat, 1);
      if end == |pat| then Unclosed([], pat[1..])
      else Prepend(Class(pat[1..end]), Parse(pat[end + 1..]))
    else Prepend(Lit(pat[0]), Parse(pat[1..]))
  }

  // ---------------------------------------------------------------- the language

  predicate Fits(t: Token, part: string) {
    match t
    case Star => true
    case Any => |part| == 1
    case Class(chars) => |part| == 1 && part[0] in chars
    case Lit(c) => part == [c]
  }

  function Join(parts: seq<string>): string {
    if parts == [] then "" else parts[0] + Join(parts[1..])
  }

  /** `parts` cuts `s` into one piece per token, each piece fitting its token. */
  ghost predicate Cuts(ts: seq<Token>, s: string, parts: seq<string>) {
    |parts| == |ts| && Join(parts) == s && forall i :: 0 <= i < |ts| ==> Fits(ts[i], parts[i])
  }

  ghost predicate Matches(ts: seq<Token>, s: string) {
    exists parts :: Cuts(ts, s, parts)
  }

  /** Some prefix of `s` matches the tokens before the unclosed class and the next character is in the class. */
  ghost predicate Overruns(ts: seq<Token>, body: string, s: string) {
    exists i :: 0 <= i < |s| && Matches(ts, s[..i]) && s[i] in body
  }

  /** Some prefix of `s` matches the tokens. */
  ghost predicate Reaches(ts: seq<Token>, s: string) {
    exists i :: 0 <= i <= |s| && Matches(ts, s[..i])
  }

  ghost function Expected(p: Pattern, s: string): Outcome {
    match p
    case Closed(ts) => if Matches(ts, s) then Yes else No
    case Unclosed(ts, body) => if Overruns(ts, body, s) then Panic else No
    case Deep(ts) => if Reaches(ts, s) then Panic else No
  }

  /** The pattern as far as a stack with room for `stack` nested calls goes: each star that is not the end of
      the pattern takes one. */
  function Bounded(p: Pattern, stack: nat): Pattern
    decreases |p.tokens|
  {
    if p.tokens == [] then p
    else
      var t, rest := p.tokens[0], p.(tokens := p.tokens[1..]);
      if t.Star? && rest != Closed([]) then
        if stack == 0 then Deep([]) else Prepend(t, Bounded(rest, stack - 1))
      else Prepend(t, Bounded(rest, stack))
  }

  /** The stars that take a nested call. */
  function Stars(p: Pattern): nat
    decreases |p.tokens|
  {
    if p.tokens == [] then 0
    else
      var rest := p.(tokens := p.tokens[1..]);
      (if p.tokens[0].Star? && rest != Closed([]) then 1 else 0) + Stars(rest)
  }

  /** The stack matters only to a pattern with more such stars than it has room for. */
  lemma {:induction false} EnoughStack(p: Pattern, stack: nat)
    ensures !p.Deep? ==> (Bounded(p, stack) == p <==> Stars(p) <= stack)
    decreases |p.tokens|
  {
    if p.tokens != [] {
      var t, rest := p.tokens[0], p.(tokens := p.tokens[1..]);
      if t.Star? && rest != Closed([]) {
        if stack > 0 {
          EnoughStack(rest, stack - 1);
          SamePrepended(t, rest, Bounded(rest, stack - 1));
        }
      } else {
        EnoughStack(rest, stack);
        SamePrepended(t, rest, Bounded(rest, stack));
      }
    }
  }

  lemma SamePrepended(t: Token, p: Pattern, q: Pattern)
    ensures Prepend(t, p) == Prepend(t, q) <==> p == q
  {
    assert ([t] + p.tokens)[1..] == p.tokens && ([t] + q.tokens)[1..] == q.tokens;
  }

  lemma BoundedCons(t: Token, p: Pattern, stack: nat)
    ensures Bounded(Prepend(t, p), stack)
         == if t.Star? && p != Closed([]) then
              if stack == 0 then Deep([]) else Prepend(t, Bounded(p, stack - 1))
            else Prepend(t, Bounded(p, stack))
  {
    assert ([t] + p.tokens)[1..] == p.tokens;
    assert Prepend(t, p).(tokens := p.tokens) == p;
  }

  // ---------------------------------------------------------------- cutting off the first token

  lemma MatchesCons(t: Token, ts: seq<Token>, s: string, k: nat)
    requires k <= |s| && Fits(t, s[..k]) && Matches(ts, s[k..])
    ensures Matches([t] + ts, s)
  {
    var parts :| Cuts(ts, s[k..], parts);
    assert ([s[..k]] + parts)[1..] == parts;
    assert Cuts([t] + ts, s, [s[..k]] + parts);
  }

  lemma MatchesUncons(t: Token, ts: seq<Token>, s: string) returns (k: nat)
    requires Matches([t] + ts, s)
    ensures k <= |s| && Fits(t, s[..k]) && Matches(ts, s[k..])
  {
    var parts :| Cuts([t] + ts, s, parts);
    k := |parts[0]|;
    assert s[..k] == parts[0] && s[k..] == Join(parts[1..]);
    assert Fits(([t] + ts)[0], parts[0]);
    forall i | 0 <= i < |ts| ensures Fits(ts[i], parts[1..][i]) {
      assert Fits(([t] + ts)[i + 1], parts[i + 1]);
    }
    assert Cuts(ts, s[k..], parts[1..]);
  }

  lemma OverrunsCons(t: Token, ts: seq<Token>, body: string, s: string, k: nat)
    requires k <= |s| && Fits(t, s[..k]) && Overruns(ts, body, s[k..])
    ensures Overruns([t] + ts, body, s)
  {
    var i :| 0 <= i < |s[k..]| && Matches(ts, s[k..][..i]) && s[k..][i] in body;
    var a := s[..k + i];
    assert a[..k] == s[..k] && a[k..] == s[k..][..i];
    MatchesCons(t, ts, a, k);
    assert s[k + i] == s[k..][i];
  }

  lemma OverrunsUncons(t: Token, ts: seq<Token>, body: string, s: string) returns (k: nat)
    requires Overruns([t] + ts, body, s)
    ensures k <= |s| && Fits(t, s[..k]) && Overruns(ts, body, s[k..])
  {
    var i :| 0 <= i < |s| && Matches([t] + ts, s[..i]) && s[i] in body;
    k := MatchesUncons(t, ts, s[..i]);
    assert s[..i][..k] == s[..k];
    assert s[..i][k..] == s[k..][..i - k];
    assert s[k..][i - k] == s[i];
  }

  lemma ReachesCons(t: Token, ts: seq<Token>, s: string, k: nat)
    requires k <= |s| && Fits(t, s[..k]) && Reaches(ts, s[k..])
    ensures Reaches([t] + ts, s)
  {
    var i :| 0 <= i <= |s[k..]| && Matches(ts, s[k..][..i]);
    var a := s[..k + i];
    assert a[..k] == s[..k] && a[k..] == s[k..][..i];
    MatchesCons(t, ts, a, k);
  }

  lemma ReachesUncons(t: Token, ts: seq<Token>, s: string) returns (k: nat)
    requires Reaches([t] + ts, s)
    ensures k <= |s| && Fits(t, s[..k]) && Reaches(ts, s[k..])
  {
    var i :| 0 <= i <= |s| && Matches([t] + ts, s[..i]);
    k := MatchesUncons(t, ts, s[..i]);
    assert s[..i][..k] == s[..k];
    assert s[..i][k..] == s[k..][..i - k];
  }

  lemma NoTokens(s: string)
    ensures Matches([], s) <==> s == ""
  {
    if s == "" {
      assert Cuts([], s, []);
    }
  }

  /** A token that takes one character decides on the first character alone. */
  lemma SingleStep(t: Token, p: Pattern, s: string)
    requires !t.Star?
    ensures Expected(Prepend(t, p), s)
         == if s != "" && Fits(t, s[..1]) then Expected(p, s[1..]) else No
  {
    match p {
      case Closed(ts) =>
        if Matches([t] + ts, s) {
          var k := MatchesUncons(t, ts, s);
          assert k == 1;
        } else if s != "" && Fits(t, s[..1]) && Matches(ts, s[1..]) {
          MatchesCons(t, ts, s, 1);
        }
      case Unclosed(ts, body) =>
        if Overruns([t] + ts, body, s) {
          var k := OverrunsUncons(t, ts, body, s);
          assert k == 1;
        } else if s != "" && Fits(t, s[..1]) && Overruns(ts, body, s[1..]) {
          OverrunsCons(t, ts, body, s, 1);
        }
      case Deep(ts) =>
        if Reaches([t] + ts, s) {
          var k := ReachesUncons(t, ts, s);
          assert k == 1;
        } else if s != "" && Fits(t, s[..1]) && Reaches(ts, s[1..]) {
          ReachesCons(t, ts, s, 1);
        }
    }
  }

  /** The first suffix on which the rest of the pattern does anything but fail settles the star. */
  lemma StarHit(p: Pattern, s: string, i: nat)
    requires i <= |s| && Expected(p, s[i..]) != No
    ensures Expected(Prepend(Star, p), s) == Expected(p, s[i..])
  {
    match p {
      case Closed(ts) => MatchesCons(Star, ts, s, i);
      case Unclosed(ts, body) => OverrunsCons(Star, ts, body, s, i);
      case Deep(ts) => ReachesCons(Star, ts, s, i);
    }
  }

  lemma StarMiss(p: Pattern, s: string)
    requires forall i :: 0 <= i <= |s| ==> Expected(p, s[i..]) == No
    ensures Expected(Prepend(Star, p), s) == No
  {
    match p {
      case Closed(ts) =>
        if Matches([Star] + ts, s) {
          var k := MatchesUncons(Star, ts, s);
        }
      case Unclosed(ts, body) =>
        if Overruns([Star] + ts, body, s) {
          var k := OverrunsUncons(Star, ts, body, s);
        }
      case Deep(ts) =>
        if Reaches([Star] + ts, s) {
          var k := ReachesUncons(Star, ts, s);
        }
    }
  }

  // ---------------------------------------------------------------- the matcher

  /** The inner scan of a class for the character. */
  method InClass(body: string, ch: char) returns (matched: bool)
    ensures matched <==> ch in body
  {
    matched := false;
    var j := 0;
    while j < |body|
      invariant j <= |body|
      invariant !matched && ch !in body[..j]
    {
      if body[j] == ch {
        return true;
      }
      j := j + 1;
    }
  }

  /** A step of the loop over a token that takes one character. */
  lemma OneChar(t: Token, p: Pattern, s: string, stack: nat)
    requires !t.Star?
    ensures Expected(Bounded(Prepend(t, p), stack), s)
         == if s != "" && Fits(t, s[..1]) then Expected(Bounded(p, stack), s[1..]) else No
  {
    hide Expected, Bounded;
    BoundedCons(t, p, stack);
    SingleStep(t, Bounded(p, stack), s);
  }

  lemma OutOfStack(s: string)
    ensures Expected(Deep([]), s) == Panic
  {
    NoTokens("");
    assert s[..0] == "";
  }

  lemma UnclosedBounded(body: string, stack: nat)
    ensures Bounded(Unclosed([], body), stack) == Unclosed([], body)
  {
  }

  /** `stack` is the number of nested calls that the stack of the goroutine has room for. */
  method GlobMatch(pattern: string, key: string, stack: nat) returns (r: Outcome)
    ensures r == Expected(Bounded(Parse(pattern), stack), key)
    decreases |pattern|
  {
    hide Expected, Bounded, Fits;
    var pat, str := pattern, key;
    while |pat| > 0
      invariant |pat| <= |pattern|
      invariant Expected(Bounded(Parse(pat), stack), str) == Expected(Bounded(Parse(pattern), stack), key)
      decreases |pat|
    {
      if pat[0] == '*' {
        ghost var rest := Parse(pat[1..]);
        assert Parse(pat) == Prepend(Star, rest);
        BoundedCons(Star, rest, stack);
        pat := pat[1..];
        if |pat| == 0 {
          LastStar(str, stack);
          return Yes;
        }
        assert rest != Closed([]) by { ParseSome(pat); }
        if stack == 0 {
          OutOfStack(str);
          return Panic; // the stack overflows in the nested call
        }
        for i := 0 to |str| + 1
          invariant forall j :: 0 <= j < i ==> Expected(Bounded(rest, stack - 1), str[j..]) == No
        {
          var o := GlobMatch(pat, str[i..], stack - 1);
          if o != No {
            StarHit(Bounded(rest, stack - 1), str, i);
            return o;
          }
        }
        StarMiss(Bounded(rest, stack - 1), str);
        return No;
      } else if pat[0] == '?' {
        OneChar(Any, Parse(pat[1..]), str, stack);
        if |str| > 0 { FitsOne(str); }
        if |str| == 0 {
          return No;
        }
        pat, str := pat[1..], str[1..];
      } else if pat[0] == '[' {
        var end := 1;
        while end < |pat| && pat[end] != ']'
          invariant 1 <= end <= |pat|
          invariant ClassEnd(pat, 1) == ClassEnd(pat, end)
        {
          end := end + 1;
        }
        if end == |pat| {
          UnclosedBounded(pat[1..], stack);
          UnclosedOutcome(pat[1..], str);
        } else {
          OneChar(Class(pat[1..end]), Parse(pat[end + 1..]), str, stack);
          if |str| > 0 { FitsOne(str); }
        }
        if |str| == 0 {
          return No;
        }
        var matched := InClass(pat[1..end], str[0]);
        if !matched {
          return No;
        }
        if end == |pat| {
          return Panic; // pat[end+1:] is out of range
        }
        pat, str := pat[end + 1..], str[1..];
      } else {
        OneChar(Lit(pat[0]), Parse(pat[1..]), str, stack);
        if |str| > 0 { FitsOne(str); }
        if |str| == 0 || pat[0] != str[0] {
          return No;
        }
        pat, str := pat[1..], str[1..];
      }
    }
    NoPattern(str, stack);
    r := if |str| == 0 then Yes else No;
  }

  lemma NoPattern(s: string, stack: nat)
    ensures Expected(Bounded(Parse(""), stack), s) == if s == "" then Yes else No
  {
    NoTokens(s);
  }

  lemma LastStar(s: string, stack: nat)
    ensures Expected(Prepend(Star, Bounded(Parse(""), stack)), s) == Yes
  {
    NoPattern("", stack);
    assert s[|s|..] == "";
    StarHit(Bounded(Parse(""), stack), s, |s|);
  }

  lemma ParseSome(pat: string)
    requires pat != ""
    ensures Parse(pat) != Closed([])
  {
  }

  /** Whether a token fits the first character. */
  lemma FitsOne(s: string)
    requires s != ""
    ensures Fits(Any, s[..1])
    ensures forall c :: Fits(Lit(c), s[..1]) <==> s[0] == c
    ensures forall chars :: Fits(Class(chars), s[..1]) <==> s[0] in chars
  {
  }

  lemma UnclosedOutcome(body: string, s: string)
    ensures Expected(Unclosed([], body), s) == if s != "" && s[0] in body then Panic else No
  {
    UnclosedStep(body, s);
  }

  /** An unclosed class overruns on any string whose first character it contains. */
  lemma UnclosedStep(body: string, s: string)
    ensures Overruns([], body, s) <==> s != "" && s[0] in body
  {
    NoTokens("");
    if s != "" && s[0] in body {
      assert s[..0] == "";
    }
    if Overruns([], body, s) {
      var i :| 0 <= i < |s| && Matches([], s[..i]) && s[i] in body;
      NoTokens(s[..i]);
    }
  }

  // ---------------------------------------------------------------- composition

  /** For instance `[a` on `a`, while on `b` it is only no match. */
  lemma UnclosedPanics()
    ensures Expected(Parse("[a"), "a") == Panic && Expected(Parse("[a"), "b") == No
  {
    assert ClassEnd("[a", 1) == 2;
    assert "[a"[1..] == "a";
    assert Parse("[a") == Unclosed([], "a");
    NoTokens("");
    assert "a"[..0] == "" && "b"[..0] == "";
    assert "a"[0] in "a";
    assert Overruns([], "a", "a");
  }

  /** For instance two stars where there is room for one nested call. */
  lemma StarsOverflow(s: string)
    ensures Expected(Bounded(Parse("**a"), 1), s) == Panic
  {
    hide Expected;
    assert "**a"[1..] == "*a" && "*a"[1..] == "a" && "a"[1..] == "";
    assert Parse("a") == Prepend(Lit('a'), Closed([]));
    BoundedCons(Star, Prepend(Star, Parse("a")), 1);
    BoundedCons(Star, Parse("a"), 0);
    OutOfStack(s[0..]);
    StarHit(Deep([]), s, 0);
  }

  /** The pattern that starts with the tokens `ts` and goes on as `p`. */
  function After(ts: seq<Token>, p: Pattern): Pattern {
    p.(tokens := ts + p.tokens)
  }

  lemma AfterCons(t: Token, ts: seq<Token>, p: Pattern)
    ensures Prepend(t, After(ts, p)) == After([t] + ts, p)
  {
    assert [t] + (ts + p.tokens) == ([t] + ts) + p.tokens;
  }

  /** The first token of a non-empty closed pattern text, and the text left after it. */
  function Head(pat: string): (r: (Token, string))
    requires pat != "" && Parse(pat).Closed?
    ensures |r.1| < |pat| && Parse(r.1).Closed? && Parse(pat) == Prepend(r.0, Parse(r.1))
  {
    if pat[0] == '*' then (Star, pat[1..])
    else if pat[0] == '?' then (Any, pat[1..])
    else if pat[0] == '[' then var end := ClassEnd(pat, 1); (Class(pat[1..end]), pat[end + 1..])
    else (Lit(pat[0]), pat[1..])
  }

  lemma HeadConcat(p: string, q: string)
    requires p != "" && Parse(p).Closed?
    ensures Parse(p + q) == Prepend(Head(p).0, Parse(Head(p).1 + q))
  {
    if p[0] == '[' {
      var end := ClassEnd(p, 1);
      ClassEndConcat(p, q, 1);
      assert (p + q)[1..end] == p[1..end];
      assert (p + q)[end + 1..] == p[end + 1..] + q;
    } else {
      assert (p + q)[1..] == p[1..] + q;
    }
  }

  lemma {:induction false} ParseConcat(p: string, q: string)
    requires Parse(p).Closed?
    ensures Parse(p + q) == After(Parse(p).tokens, Parse(q))
    decreases |p|
  {
    if p == "" {
      assert p + q == q;
    } else {
      var (t, rest) := Head(p);
      HeadConcat(p, q);
      ParseConcat(rest, q);
      AfterCons(t, Parse(rest).tokens, Parse(q));
    }
  }

  lemma {:induction false} ClassEndConcat(p: string, q: string, i: nat)
    requires i <= |p| && ClassEnd(p, i) < |p|
    ensures ClassEnd(p + q, i) == ClassEnd(p, i)
    decreases |p| - i
  {
    if p[i] != ']' {
      ClassEndConcat(p, q, i + 1);
    }
  }

  lemma {:induction false} MatchesConcat(ts: seq<Token>, us: seq<Token>, s: string)
    ensures Matches(ts + us, s) <==> exists i :: 0 <= i <= |s| && Matches(ts, s[..i]) && Matches(us, s[i..])
    decreases |ts|
  {
    if ts == [] {
      assert ts + us == us;
      NoTokens(s[..0]);
      assert s[0..] == s;
      forall i | 0 <= i <= |s| && Matches(ts, s[..i]) ensures i == 0 {
        NoTokens(s[..i]);
      }
    } else {
      var t, rest := ts[0], ts[1..];
      assert ts == [t] + rest && ts + us == [t] + (rest + us);
      if Matches(ts + us, s) {
        var k := MatchesUncons(t, rest + us, s);
        MatchesConcat(rest, us, s[k..]);
        var i :| 0 <= i <= |s[k..]| && Matches(rest, s[k..][..i]) && Matches(us, s[k..][i..]);
        var a := s[..k + i];
        assert a[..k] == s[..k] && a[k..] == s[k..][..i];
        MatchesCons(t, rest, a, k);
        assert s[k..][i..] == s[k + i..];
      }
      if i :| 0 <= i <= |s| && Matches(ts, s[..i]) && Matches(us, s[i..]) {
        var k := MatchesUncons(t, rest, s[..i]);
        var b := s[k..];
        assert s[..i][..k] == s[..k] && s[..i][k..] == b[..i - k] && s[i..] == b[i - k..];
        MatchesConcat(rest, us, b);
        MatchesCons(t, rest + us, s, k);
      }
    }
  }

  lemma OverrunsConcat(ts: seq<Token>, us: seq<Token>, body: string, s: string)
    ensures Overruns(ts + us, body, s) <==> exists i :: 0 <= i <= |s| && Matches(ts, s[..i]) && Overruns(us, body, s[i..])
  {
    if j :| 0 <= j < |s| && Matches(ts + us, s[..j]) && s[j] in body {
      MatchesConcat(ts, us, s[..j]);
      var i :| 0 <= i <= j && Matches(ts, s[..j][..i]) && Matches(us, s[..j][i..]);
      assert s[..j][..i] == s[..i] && s[..j][i..] == s[i..][..j - i] && s[i..][j - i] == s[j];
      assert Overruns(us, body, s[i..]);
    }
    if i :| 0 <= i <= |s| && Matches(ts, s[..i]) && Overruns(us, body, s[i..]) {
      var j :| 0 <= j < |s[i..]| && Matches(us, s[i..][..j]) && s[i..][j] in body;
      var a := s[..i + j];
      assert a[..i] == s[..i] && a[i..] == s[i..][..j] && s[i + j] == s[i..][j];
      MatchesConcat(ts, us, a);
    }
  }

  /** The language is compositional in the pattern text: a closed `p` followed by any `q` does to a text what
      `q` does to what is left of it after a match of `p`. */
  lemma PatternConcat(p: string, q: string, s: string, o: Outcome)
    requires Parse(p).Closed? && o != No
    ensures Expected(Parse(p + q), s) == o
       <==> exists i :: 0 <= i <= |s| && Expected(Parse(p), s[..i]) == Yes && Expected(Parse(q), s[i..]) == o
  {
    hide Matches, Overruns, Parse;
    ParseConcat(p, q);
    NeverDeep(q);
    var ts, us := Parse(p).tokens, Parse(q).tokens;
    match Parse(q) {
      case Closed(_) => MatchesConcat(ts, us, s);
      case Unclosed(_, body) => OverrunsConcat(ts, us, body, s);
    }
  }

  lemma {:induction false} NeverDeep(pat: string)
    ensures !Parse(pat).Deep?
    decreases |pat|
  {
    if pat != "" {
      NeverDeep(pat[1..]);
      if pat[0] == '[' && ClassEnd(pat, 1) < |pat| {
        NeverDeep(pat[ClassEnd(pat, 1) + 1..]);
      }
    }
  }

  // ---------------------------------------------------------------- what the characters of a pattern mean

  /** A pattern that takes one token, and what it answers. */
  ghost predicate Answers(pat: string, s: string, yes: bool) {
    Parse(pat).Closed? && Expected(Parse(pat), s) == if yes then Yes else No
  }

  lemma OneToken(t: Token, s: string)
    ensures Matches([t], s) <==> Fits(t, s)
  {
    assert [t] == [t] + [];
    assert s[..|s|] == s && s[|s|..] == "";
    if Matches([t], s) {
      var k := MatchesUncons(t, [], s);
      NoTokens(s[k..]);
      assert k == |s|;
    }
    if Fits(t, s) {
      NoTokens("");
      MatchesCons(t, [], s, |s|);
    }
  }

  /** `?` stands for one character, whichever it is, and `*` for any text, even where the stack has no room. */
  lemma Wildcards(s: string)
    ensures Answers("", s, s == "") && Answers("?", s, |s| == 1) && Answers("*", s, true)
    ensures Expected(Bounded(Parse("*"), 0), s) == Yes
  {
    NoTokens(s);
    OneToken(Any, s);
    OneToken(Star, s);
    assert "?"[1..] == "" && "*"[1..] == "";
    assert Parse("?") == Closed([Any]) && Parse("*") == Closed([Star]);
    assert [Star][1..] == [];
    assert Bounded(Closed([Star]), 0) == Closed([Star]);
  }

  /** A class stands for one of its characters, and every other character for itself. */
  lemma Singles(chars: string, c: char, s: string)
    requires ']' !in chars && c != '*' && c != '?' && c != '['
    ensures Answers("[" + chars + "]", s, |s| == 1 && s[0] in chars)
    ensures Answers([c], s, s == [c])
  {
    var pat := "[" + chars + "]";
    ClassEndIs(pat, 1, |chars| + 1);
    assert pat[1..|chars| + 1] == chars && pat[|chars| + 2..] == "";
    assert Parse(pat) == Closed([Class(chars)]);
    assert [c][1..] == "" && Parse([c]) == Closed([Lit(c)]);
    OneToken(Class(chars), s);
    OneToken(Lit(c), s);
  }

  /** A class that is not closed ends the program on a text that starts with one of its characters. */
  lemma UnclosedClass(chars: string, s: string)
    requires ']' !in chars
    ensures Expected(Parse("[" + chars), s) == if s != "" && s[0] in chars then Panic else No
  {
    var pat := "[" + chars;
    ClassEndIs(pat, 1, |pat|);
    assert pat[1..] == chars;
    assert Parse(pat) == Unclosed([], chars);
    UnclosedStep(chars, s);
  }

  lemma {:induction false} ClassEndIs(pat: string, i: nat, end: nat)
    requires i <= end <= |pat| && (forall j :: i <= j < end ==> pat[j] != ']') && (end < |pat| ==> pat[end] == ']')
    ensures ClassEnd(pat, i) == end
    decreases end - i
  {
    if i < end {
      ClassEndIs(pat, i + 1, end);
    }
  }

  /** So `h?llo` matches what it should. */
  lemma HelloMatches(c: char)
    ensures Expected(Parse("h?llo"), ['h', c] + "llo") == Yes
  {
    hide Expected, Parse, Bounded;
    assert "h" + ("?" + "llo") == "h?llo" && "?" + "llo" == "?llo";
    assert "h" + ([c] + "llo") == ['h', c] + "llo";
    Exactly("h");
    Wildcards([c]);
    Exactly("llo");
    Joined("?", "llo", [c], "llo");
    Joined("h", "?llo", "h", [c] + "llo");
  }

  lemma Joined(p: string, q: string, s: string, t: string)
    requires Parse(p).Closed? && Expected(Parse(p), s) == Yes && Expected(Parse(q), t) == Yes
    ensures Expected(Parse(p + q), s + t) == Yes
  {
    hide Expected, Parse;
    PatternConcat(p, q, s + t, Yes);
    assert (s + t)[..|s|] == s && (s + t)[|s|..] == t;
  }

  lemma Appended(ts: seq<Token>, p: Pattern)
    ensures After(ts, p).Closed? == p.Closed?
  {
  }

  /** A pattern without special characters matches itself. */
  lemma {:induction false} Exactly(pat: string)
    requires forall c :: c in pat ==> c != '*' && c != '?' && c != '['
    ensures Answers(pat, pat, true)
  {
    hide Expected, Parse, Bounded;
    if pat == "" {
      Wildcards("");
    } else {
      var c, rest := pat[0], pat[1..];
      assert pat == [c] + rest && c in pat && forall d :: d in rest ==> d in pat;
      Singles("", c, [c]);
      Exactly(rest);
      Joined([c], rest, [c], rest);
      ParseConcat([c], rest);
      Appended(Parse([c]).tokens, Parse(rest));
    }
  }
}
