/** Command lines parsed, edited and printed, as on Windows: '"' quotes, nothing escapes. */
module CommandLine {
  import opened Options

  const QUOTE: char := '"'
  const NUL: char := '\0'

  /** An executable and its parameters. */
  datatype Cmd = Cmd(exec: string, params: seq<string>)

  // ---------------------------------------------------------------------------------------------
  // Parsing
  // ---------------------------------------------------------------------------------------------

  /** A token that is being flushed, nothing when it is empty. */
  function Flushed(token: string): seq<string> {
    if token == "" then [] else [token]
  }

  /** The tokens of the rest of a C string, with a token begun and maybe a quote open. */
  function Scan(s: string, token: string, quoted: bool): seq<string>
    decreases |s|
  {
    if s == "" || s[0] == NUL then Flushed(token)
    else if s[0] == QUOTE then Scan(s[1..], token, !quoted)
    else if s[0] == ' ' && !quoted then Flushed(token) + Scan(s[1..], "", false)
    else Scan(s[1..], token + [s[0]], quoted)
  }

  function OfTokens(tokens: seq<string>): Cmd {
    if tokens == [] then Cmd("", []) else Cmd(tokens[0], tokens[1..])
  }

  /** A null pointer leaves the command empty. */
  function Parse(line: Option<string>): Cmd {
    if line.None? then Cmd("", []) else OfTokens(Scan(line.value, "", false))
  }

  // ---------------------------------------------------------------------------------------------
  // Printing
  // ---------------------------------------------------------------------------------------------

  function QuoteToken(s: string): string {
    if ' ' in s || '=' in s then [QUOTE] + s + [QUOTE] else s
  }

  function Tail(params: seq<string>): string {
    if params == [] then "" else " " + QuoteToken(params[0]) + Tail(params[1..])
  }

  function Build(c: Cmd): string {
    QuoteToken(c.exec) + Tail(c.params)
  }

  // ---------------------------------------------------------------------------------------------
  // Printing and parsing
  // ---------------------------------------------------------------------------------------------

  predicate Plain(s: string) {
    QUOTE !in s && NUL !in s
  }

  ghost predicate Tokens(ts: seq<string>) {
    forall i | 0 <= i < |ts| :: ts[i] != "" && Plain(ts[i])
  }

  /** No quote or NUL anywhere, no empty parameter, and an empty executable only without parameters. */
  ghost predicate Printable(c: Cmd) {
    Plain(c.exec) && Tokens(c.params) && (c.exec == "" ==> c.params == [])
  }

  lemma {:induction false} ScanPlain(t: string, rest: string, token: string, quoted: bool)
    requires Plain(t) && (quoted || ' ' !in t)
    ensures Scan(t + rest, token, quoted) == Scan(rest, token + t, quoted)
    decreases |t|
  {
    if t == "" {
      assert t + rest == rest && token + t == token;
    } else {
      assert (t + rest)[0] == t[0] && (t + rest)[1..] == t[1..] + rest;
      ScanPlain(t[1..], rest, token + [t[0]], quoted);
      assert token + [t[0]] + t[1..] == token + t;
    }
  }

  lemma ScanQuote(rest: string, token: string, quoted: bool)
    ensures Scan([QUOTE] + rest, token, quoted) == Scan(rest, token, !quoted)
  {
    assert ([QUOTE] + rest)[1..] == rest;
  }

  lemma ScanQuoted(t: string, rest: string)
    requires Plain(t)
    ensures Scan([QUOTE] + (t + ([QUOTE] + rest)), "", false) == Scan(rest, t, false)
  {
    hide Scan, Plain;
    var after := [QUOTE] + rest;
    ScanQuote(t + after, "", false);
    ScanPlain(t, after, "", true);
    assert "" + t == t;
    ScanQuote(rest, t, true);
  }

  lemma Requoted(t: string, rest: string)
    ensures [QUOTE] + t + [QUOTE] + rest == [QUOTE] + (t + ([QUOTE] + rest))
  {
  }

  /** A printed token is scanned as the token. */
  lemma ScanQuoteToken(t: string, rest: string)
    requires Plain(t)
    ensures Scan(QuoteToken(t) + rest, "", false) == Scan(rest, t, false)
  {
    hide Scan, Plain;
    if ' ' in t || '=' in t {
      Requoted(t, rest);
      ScanQuoted(t, rest);
    } else {
      ScanPlain(t, rest, "", false);
      assert "" + t == t;
    }
  }

  lemma ScanBlank(rest: string, token: string)
    ensures Scan([' '] + rest, token, false) == Flushed(token) + Scan(rest, "", false)
  {
    hide Flushed;
    assert ([' '] + rest)[1..] == rest;
  }

  lemma TailOnce(params: seq<string>)
    requires params != []
    ensures Tail(params) == [' '] + (QuoteToken(params[0]) + Tail(params[1..]))
  {
    hide QuoteToken;
  }

  lemma {:induction false} ScanTail(params: seq<string>, token: string)
    requires Tokens(params)
    ensures Scan(Tail(params), token, false) == Flushed(token) + params
  {
    hide Scan, Tail, QuoteToken, Plain;
    if params == [] {
      ScanNothing(token);
    } else {
      var (p, rest) := (params[0], params[1..]);
      TailOnce(params);
      ScanBlank(QuoteToken(p) + Tail(rest), token);
      ScanQuoteToken(p, Tail(rest));
      ScanTail(rest, p);
      assert [p] + rest == params;
    }
  }

  lemma ScanNothing(token: string)
    ensures Tail([]) == "" && Scan("", token, false) == Flushed(token) + []
  {
  }

  /** Whatever is scanned, every token is non-empty and holds neither quotes nor NULs. */
  lemma {:induction false} ScanTokens(s: string, token: string, quoted: bool)
    requires Plain(token)
    ensures Tokens(Scan(s, token, quoted))
    decreases |s|
  {
    if s == "" || s[0] == NUL {
    } else if s[0] == QUOTE {
      ScanTokens(s[1..], token, !quoted);
    } else if s[0] == ' ' && !quoted {
      ScanTokens(s[1..], "", false);
    } else {
      ScanTokens(s[1..], token + [s[0]], quoted);
    }
  }

  lemma ParseIsPrintable(line: Option<string>)
    ensures Printable(Parse(line))
  {
    if line.Some? { ScanTokens(line.value, "", false); }
  }

  /** Parsing what was printed gives the command back exactly for printable commands. */
  lemma ParseBuildIff(c: Cmd)
    ensures Parse(Some(Build(c))) == c <==> Printable(c)
  {
    hide Scan;
    ParseIsPrintable(Some(Build(c)));
    if Printable(c) {
      ScanQuoteToken(c.exec, Tail(c.params));
      ScanTail(c.params, c.exec);
    }
  }

  /** Every command line, printed again from its parse, parses the same. */
  lemma ReparseIsStable(line: Option<string>)
    ensures Parse(Some(Build(Parse(line)))) == Parse(line)
  {
    ParseIsPrintable(line);
    ParseBuildIff(Parse(line));
  }

  // ---------------------------------------------------------------------------------------------
  // Parsing and printing in terms of the text
  // ---------------------------------------------------------------------------------------------

  /** Behind `s` a quote is open: the number of quotes passed is odd. */
  predicate Open(s: string, quoted: bool) {
    (multiset(s)[QUOTE] + if quoted then 1 else 0) % 2 == 1
  }

  lemma OpenStep(s: string, quoted: bool)
    requires s != ""
    ensures Open(s, quoted) == Open(s[1..], if s[0] == QUOTE then !quoted else quoted)
  {
    assert s == [s[0]] + s[1..];
  }

  function WithoutQuotes(s: string): (r: string)
    ensures QUOTE !in r && forall c | c != QUOTE :: multiset(r)[c] == multiset(s)[c]
  {
    if s == "" then ""
    else
      assert s == [s[0]] + s[1..];
      (if s[0] == QUOTE then "" else [s[0]]) + WithoutQuotes(s[1..])
  }

  /** Every blank stands behind an odd number of quotes. */
  ghost predicate BlanksQuoted(s: string, quoted: bool) {
    forall i | 0 <= i < |s| && s[i] == ' ' :: Open(s[..i], quoted)
  }

  lemma BlanksStep(s: string, quoted: bool)
    requires s != "" && BlanksQuoted(s, quoted)
    ensures s[0] == ' ' ==> quoted
    ensures BlanksQuoted(s[1..], if s[0] == QUOTE then !quoted else quoted)
  {
    hide Open;
    assert s[0] == ' ' ==> Open(s[..0], quoted);
    OpenNothing(quoted);
    forall i | 0 <= i < |s[1..]| && s[1..][i] == ' '
      ensures Open(s[1..][..i], if s[0] == QUOTE then !quoted else quoted)
    {
      assert Open(s[..i + 1], quoted);
      OpenStep(s[..i + 1], quoted);
      assert s[..i + 1][1..] == s[1..][..i];
    }
  }

  lemma OpenNothing(quoted: bool)
    ensures Open("", quoted) == quoted
  {
  }

  lemma {:induction false} ScanWord(s: string, token: string, quoted: bool)
    requires NUL !in s && BlanksQuoted(s, quoted)
    ensures Scan(s, token, quoted) == Flushed(token + WithoutQuotes(s))
    decreases |s|
  {
    hide Flushed, Open, BlanksQuoted;
    if s == "" {
      assert token + "" == token;
    } else {
      BlanksStep(s, quoted);
      if s[0] == QUOTE {
        ScanWord(s[1..], token, !quoted);
        assert "" + WithoutQuotes(s[1..]) == WithoutQuotes(s[1..]);
      } else {
        ScanWord(s[1..], token + [s[0]], quoted);
        assert token + [s[0]] + WithoutQuotes(s[1..]) == token + ([s[0]] + WithoutQuotes(s[1..]));
      }
    }
  }

  lemma {:induction false} ScanJoined(x: string, y: string, token: string, quoted: bool)
    requires NUL !in x && !Open(x, quoted)
    ensures Scan(x + [' '] + y, token, quoted) == Scan(x, token, quoted) + Scan(y, "", false)
    decreases |x|
  {
    hide Flushed, Open;
    var s := x + [' '] + y;
    if x == "" {
      OpenNothing(quoted);
      assert s[1..] == y;
    } else {
      OpenStep(x, quoted);
      assert s[0] == x[0] && s[1..] == x[1..] + [' '] + y;
      if x[0] == QUOTE {
        ScanJoined(x[1..], y, token, !quoted);
      } else if x[0] == ' ' && !quoted {
        ScanJoined(x[1..], y, "", false);
        assert Flushed(token) + (Scan(x[1..], "", false) + Scan(y, "", false)) ==
               Flushed(token) + Scan(x[1..], "", false) + Scan(y, "", false);
      } else {
        ScanJoined(x[1..], y, token + [x[0]], quoted);
      }
    }
  }

  lemma {:induction false} ScanEnds(x: string, y: string, token: string, quoted: bool)
    ensures Scan(x + [NUL] + y, token, quoted) == Scan(x, token, quoted)
    decreases |x|
  {
    hide Flushed;
    var s := x + [NUL] + y;
    if x != "" && x[0] != NUL {
      assert s[0] == x[0] && s[1..] == x[1..] + [NUL] + y;
      if x[0] == QUOTE {
        ScanEnds(x[1..], y, token, !quoted);
      } else if x[0] == ' ' && !quoted {
        ScanEnds(x[1..], y, "", false);
      } else {
        ScanEnds(x[1..], y, token + [x[0]], quoted);
      }
    } else {
      assert s[0] == NUL;
    }
  }

  /** All the tokens of a command, the executable first. */
  function TokensOf(c: Cmd): seq<string> {
    Flushed(c.exec) + c.params
  }

  lemma TokensOfParse(line: string)
    ensures TokensOf(Parse(Some(line))) == Scan(line, "", false)
  {
    ScanTokens(line, "", false);
    assert Scan(line, "", false) != [] ==> [Scan(line, "", false)[0]] + Scan(line, "", false)[1..] ==
                                           Scan(line, "", false);
  }

  /** A text whose blanks are all quoted is one token, its quotes dropped, or none when nothing is left. */
  lemma WordIsOneToken(x: string)
    requires NUL !in x && BlanksQuoted(x, false)
    ensures TokensOf(Parse(Some(x))) == if WithoutQuotes(x) == "" then [] else [WithoutQuotes(x)]
  {
    TokensOfParse(x);
    ScanWord(x, "", false);
    assert "" + WithoutQuotes(x) == WithoutQuotes(x);
  }

  /** A blank behind an even number of quotes separates: the tokens are those of both sides. */
  lemma BlankSeparates(x: string, y: string)
    requires NUL !in x && !Open(x, false)
    ensures TokensOf(Parse(Some(x + [' '] + y))) == TokensOf(Parse(Some(x))) + TokensOf(Parse(Some(y)))
  {
    hide TokensOf, Parse, Open, Scan;
    TokensOfParse(x);
    TokensOfParse(y);
    TokensOfParse(x + [' '] + y);
    ScanJoined(x, y, "", false);
  }

  /** What stands behind a NUL is not read. */
  lemma NulEnds(x: string, y: string)
    ensures Parse(Some(x + [NUL] + y)) == Parse(Some(x))
  {
    ScanEnds(x, y, "", false);
  }

  lemma {:induction false} TailAppends(params: seq<string>, p: string)
    ensures Tail(params + [p]) == Tail(params) + (" " + QuoteToken(p))
  {
    hide QuoteToken;
    if params == [] {
      assert (params + [p])[1..] == [] && Tail([]) == "";
      assert Tail([p]) == " " + QuoteToken(p) + Tail([p][1..]);
    } else {
      assert (params + [p])[1..] == params[1..] + [p];
      TailAppends(params[1..], p);
    }
  }

  lemma QuotedText(p: string)
    ensures QuoteToken(p) == if ' ' in p || '=' in p then "\"" + p + "\"" else p
  {
    assert [QUOTE] == "\"";
  }

  lemma TextJoins(head: string, tail: string, more: string)
    ensures head + (tail + (" " + more)) == head + tail + " " + more
  {
  }

  /** The printed form of one more parameter: a blank, and quotes exactly around a blank or an equals sign. */
  lemma PrintedLast(exec: string, params: seq<string>, p: string)
    ensures Build(Cmd(exec, params + [p])) ==
            Build(Cmd(exec, params)) + " " + if ' ' in p || '=' in p then "\"" + p + "\"" else p
  {
    hide Tail, QuoteToken;
    TailAppends(params, p);
    QuotedText(p);
    TextJoins(QuoteToken(exec), Tail(params), QuoteToken(p));
  }

  lemma PrintedAlone(exec: string)
    ensures Build(Cmd(exec, [])) == if ' ' in exec || '=' in exec then "\"" + exec + "\"" else exec
  {
    hide Tail, QuoteToken;
    QuotedText(exec);
    ScanNothing("");
  }

  // ---------------------------------------------------------------------------------------------
  // Editing
  // ---------------------------------------------------------------------------------------------

  predicate Matches(p: string, key: string) {
    p == key || key + "=" <= p
  }

  function Entry(key: string, value: Option<string>): string {
    if value.Some? then key + "=" + value.value else key
  }

  ghost predicate Present(params: seq<string>, key: string) {
    exists i | 0 <= i < |params| :: Matches(params[i], key)
  }

  /** The first match of a key, nothing when there is none. */
  function FirstMatch(params: seq<string>, key: string): Option<string> {
    if params == [] then None
    else if Matches(params[0], key) then Some(params[0])
    else FirstMatch(params[1..], key)
  }

  function Replace(params: seq<string>, key: string, entry: string): seq<string> {
    if params == [] then []
    else if Matches(params[0], key) then [entry] + params[1..]
    else [params[0]] + Replace(params[1..], key, entry)
  }

  function Ensure(params: seq<string>, key: string, value: Option<string>): seq<string> {
    if FirstMatch(params, key).Some? then Replace(params, key, Entry(key, value)) else [Entry(key, value)] + params
  }

  function Remove(params: seq<string>, key: string): seq<string> {
    if params == [] then []
    else if Matches(params[0], key) then Remove(params[1..], key)
    else [params[0]] + Remove(params[1..], key)
  }

  /** The parameter is the key alone or the key followed by an equals sign, character by character. */
  predicate Carries(p: string, key: string) {
    && |p| >= |key| && (forall i | 0 <= i < |key| :: p[i] == key[i])
    && (|p| == |key| || p[|key|] == '=')
  }

  lemma MatchesIff(p: string, key: string)
    ensures Matches(p, key) <==> Carries(p, key)
  {
    if Carries(p, key) {
      assert p[..|key|] == key;
      if |p| > |key| { assert p[..|key| + 1] == key + "="; }
    }
    if key + "=" <= p {
      assert p[|key|] == (key + "=")[|key|] && forall i | 0 <= i < |key| :: (key + "=")[i] == key[i];
    }
  }

  /** The first parameter that carries the key. */
  ghost predicate FirstAt(params: seq<string>, key: string, i: nat) {
    i < |params| && Carries(params[i], key) && forall j | 0 <= j < i :: !Carries(params[j], key)
  }

  /** `entry` stands in the place of the first parameter of the key, or in front when there is none. */
  ghost predicate Placed(params: seq<string>, key: string, entry: string, r: seq<string>) {
    || (r == [entry] + params && forall j | 0 <= j < |params| :: !Carries(params[j], key))
    || exists i: nat :: FirstAt(params, key, i) && r == params[i := entry]
  }

  lemma {:induction false} ReplacePlaces(params: seq<string>, key: string, entry: string, i: nat)
    requires FirstAt(params, key, i)
    ensures Replace(params, key, entry) == params[i := entry] && FirstMatch(params, key).Some?
  {
    hide Carries, Matches;
    MatchesIff(params[0], key);
    if i > 0 {
      forall j | 0 <= j < i - 1 ensures !Carries(params[1..][j], key) { assert !Carries(params[j + 1], key); }
      ReplacePlaces(params[1..], key, entry, i - 1);
      assert params[i := entry] == [params[0]] + params[1..][i - 1 := entry];
    }
  }

  lemma {:induction false} SomeFirst(params: seq<string>, key: string)
    ensures (exists i: nat :: FirstAt(params, key, i)) || forall j | 0 <= j < |params| :: !Carries(params[j], key)
  {
    hide Carries;
    if params != [] {
      if Carries(params[0], key) {
        assert FirstAt(params, key, 0);
      } else {
        SomeFirst(params[1..], key);
        if i: nat :| FirstAt(params[1..], key, i) { assert FirstAt(params, key, i + 1); }
      }
    }
  }

  /** `ensure_param` places the key, or the key, an equals sign and the value. */
  lemma EnsurePlaces(params: seq<string>, key: string, value: Option<string>)
    ensures Placed(params, key, if value.Some? then key + "=" + value.value else key, Ensure(params, key, value))
  {
    hide Carries, Matches, Replace, FirstMatch;
    var e := Entry(key, value);
    SomeFirst(params, key);
    if i: nat :| FirstAt(params, key, i) {
      ReplacePlaces(params, key, e, i);
    } else {
      NoFirstMatch(params, key);
      forall j | 0 <= j < |params| ensures !Matches(params[j], key) { MatchesIff(params[j], key); }
    }
  }

  /** The parameters of `r` are those at the positions `at` of `params`, which are all that do not carry the key. */
  ghost predicate Picks(params: seq<string>, key: string, r: seq<string>, at: seq<nat>) {
    && |at| == |r|
    && (forall k | 0 <= k < |at| :: at[k] < |params| && r[k] == params[at[k]] && !Carries(r[k], key))
    && (forall k, m | 0 <= k < m < |at| :: at[k] < at[m])
    && (forall i: nat | i < |params| && !Carries(params[i], key) :: i in at)
  }

  lemma PicksLess(params: seq<string>, p: string, key: string, r: seq<string>, at: seq<nat>)
    requires Picks(params, key, r, at) && Carries(p, key)
    ensures Picks(params + [p], key, r, at)
  {
    hide Carries;
  }

  lemma PicksMore(params: seq<string>, p: string, key: string, r: seq<string>, at: seq<nat>)
    requires Picks(params, key, r, at) && !Carries(p, key)
    ensures Picks(params + [p], key, r + [p], at + [|params|])
  {
    hide Carries;
    var (ps, more) := (params + [p], at + [|params|]);
    assert more[|at|] == |params|;
    forall i: nat | i < |ps| && !Carries(ps[i], key) ensures i in more {
      if i < |params| { assert i in at; }
    }
  }

  /** `remove_param` keeps exactly the parameters that do not carry the key, in their order. */
  lemma {:induction false} RemovePicks(params: seq<string>, key: string) returns (at: seq<nat>)
    ensures Picks(params, key, Remove(params, key), at)
  {
    hide Carries, Matches;
    if params == [] {
      at := [];
    } else {
      hide Picks;
      var (front, p) := (params[..|params| - 1], params[|params| - 1]);
      at := RemovePicks(front, key);
      assert params == front + [p] && Remove([p], key) == if Matches(p, key) then [] else [p];
      RemoveAppends(front, [p], key);
      MatchesIff(p, key);
      if Carries(p, key) {
        PicksLess(front, p, key, Remove(front, key), at);
        assert Remove(front, key) + [] == Remove(front, key);
      } else {
        PicksMore(front, p, key, Remove(front, key), at);
        at := at + [|front|];
      }
    }
  }

  lemma {:induction false} RemoveAppends(s: seq<string>, t: seq<string>, key: string)
    ensures Remove(s + t, key) == Remove(s, key) + Remove(t, key)
  {
    if s == [] {
      assert s + t == t;
    } else {
      assert (s + t)[1..] == s[1..] + t;
      RemoveAppends(s[1..], t, key);
    }
  }

  /** After removal nothing matches; every other parameter is there as often as before. */
  lemma {:induction false} RemoveRemoves(params: seq<string>, key: string)
    ensures !Present(Remove(params, key), key)
    ensures forall p :: multiset(Remove(params, key))[p] == if Matches(p, key) then 0 else multiset(params)[p]
  {
    if params != [] {
      RemoveRemoves(params[1..], key);
      assert params == [params[0]] + params[1..];
    }
  }

  /** Parameters that were in some order before and are kept are in that order afterwards. */
  lemma RemoveKeepsOrder(s: seq<string>, p: string, t: seq<string>, q: string, u: seq<string>, key: string)
    requires !Matches(p, key) && !Matches(q, key)
    ensures Remove(s + [p] + t + [q] + u, key) == Remove(s, key) + [p] + Remove(t, key) + [q] + Remove(u, key)
  {
    RemoveAppends(s + [p] + t + [q], u, key);
    RemoveAppends(s + [p] + t, [q], key);
    RemoveAppends(s + [p], t, key);
    RemoveAppends(s, [p], key);
  }

  lemma {:induction false} NoFirstMatch(params: seq<string>, key: string)
    ensures FirstMatch(params, key).None? <==> !Present(params, key)
    ensures FirstMatch(params, key).None? ==> Remove(params, key) == params
  {
    if params != [] {
      NoFirstMatch(params[1..], key);
      assert Present(params[1..], key) ==> Present(params, key) by {
        if i :| 0 <= i < |params[1..]| && Matches(params[1..][i], key) { assert Matches(params[i + 1], key); }
      }
    }
  }

  lemma {:induction false} ReplaceLaws(params: seq<string>, key: string, entry: string)
    requires FirstMatch(params, key).Some? && Matches(entry, key)
    ensures FirstMatch(Replace(params, key, entry), key) == Some(entry)
    ensures Remove(Replace(params, key, entry), key) == Remove(params, key)
    ensures |Replace(params, key, entry)| == |params|
  {
    if !Matches(params[0], key) { ReplaceLaws(params[1..], key, entry); }
  }

  /** After `ensure_param` the first match is the new entry, nothing else changed, and at most one parameter is new. */
  lemma EnsureLaws(params: seq<string>, key: string, value: Option<string>)
    ensures var r := Ensure(params, key, value);
            && FirstMatch(r, key) == Some(Entry(key, value))
            && Remove(r, key) == Remove(params, key)
            && |r| == |params| + if Present(params, key) then 0 else 1
  {
    NoFirstMatch(params, key);
    if FirstMatch(params, key).Some? {
      ReplaceLaws(params, key, Entry(key, value));
    }
  }

  /** The last `ensure_param` for a key wins. */
  lemma LastEnsureWins(params: seq<string>, key: string, v: Option<string>, w: Option<string>)
    ensures Ensure(Ensure(params, key, v), key, w) == Ensure(params, key, w)
  {
    EnsureLaws(params, key, v);
    if FirstMatch(params, key).Some? {
      ReplaceTwice(params, key, Entry(key, v), Entry(key, w));
    }
  }

  lemma {:induction false} ReplaceTwice(params: seq<string>, key: string, a: string, b: string)
    requires Matches(a, key)
    ensures Replace(Replace(params, key, a), key, b) == Replace(params, key, b)
  {
    if params != [] && !Matches(params[0], key) { ReplaceTwice(params[1..], key, a, b); }
  }

  // ---------------------------------------------------------------------------------------------
  // The command object
  // ---------------------------------------------------------------------------------------------

  /** One character of the scan. */
  lemma ScanAt(s: string, i: nat, token: string, quoted: bool)
    requires i <= |s|
    ensures Scan(s[i..], token, quoted) ==
            if i == |s| || s[i] == NUL then Flushed(token)
            else if s[i] == QUOTE then Scan(s[i + 1..], token, !quoted)
            else if s[i] == ' ' && !quoted then Flushed(token) + Scan(s[i + 1..], "", false)
            else Scan(s[i + 1..], token + [s[i]], quoted)
  {
    if i < |s| { assert s[i..][1..] == s[i + 1..]; }
  }

  /** The tokens found so far, with the one that ends now. */
  lemma FlushedMore(done: seq<string>, token: string, rest: seq<string>)
    ensures done + (Flushed(token) + rest) == (if token == "" then done else done + [token]) + rest
    ensures done + Flushed(token) == if token == "" then done else done + [token]
  {
  }

  lemma OfNothing()
    ensures OfTokens([]) == Cmd("", [])
  {
  }

  lemma OfMore(done: seq<string>, token: string)
    ensures var c := OfTokens(done);
            OfTokens(done + [token]) == if done == [] then Cmd(token, c.params) else Cmd(c.exec, c.params + [token])
  {
    if done != [] { assert (done + [token])[1..] == done[1..] + [token]; }
  }

  /** One parameter of the search. */
  lemma SearchAt(params: seq<string>, i: nat, key: string, entry: string)
    requires i <= |params|
    ensures FirstMatch(params[i..], key) == if i == |params| then None
                                            else if Matches(params[i], key) then Some(params[i])
                                            else FirstMatch(params[i + 1..], key)
    ensures params[..i] + Replace(params[i..], key, entry) ==
            if i == |params| then params
            else if Matches(params[i], key) then params[i := entry]
            else params[..i + 1] + Replace(params[i + 1..], key, entry)
  {
    hide Matches;
    if i < |params| { assert params[i..][1..] == params[i + 1..]; }
  }

  class Command {
    var exec: string
    var params: seq<string>

    function Value(): Cmd
      reads this
    {
      Cmd(exec, params)
    }

    constructor (line: Option<string>)
      ensures Value() == Parse(line)
    {
      exec, params := "", [];
      new;
      ParseLine(line);
    }

    /** The scanning loop; the tokens flushed so far are the executable and the parameters. */
    method ParseLine(line: Option<string>)
      requires Value() == Cmd("", [])
      modifies this
      ensures Value() == Parse(line)
    {
      hide Scan, OfTokens, Flushed;
      OfNothing();
      if line.None? { return; }
      var s := line.value;
      var token, inQuotes, quoteChar, first := "", false, NUL, true;
      ghost var done: seq<string> := [];
      var i := 0;
      assert s[0..] == s;
      while i < |s| && s[i] != NUL
        invariant 0 <= i <= |s|
        invariant inQuotes ==> quoteChar == QUOTE
        invariant (first <==> done == []) && Value() == OfTokens(done)
        invariant done + Scan(s[i..], token, inQuotes) == Scan(s, "", false)
      {
        ScanAt(s, i, token, inQuotes);
        var c := s[i];
        i := i + 1;
        if c == QUOTE && (!inQuotes || c == quoteChar) {
          quoteChar := if inQuotes then NUL else c;
          inQuotes := !inQuotes;
          continue;
        }
        if c == ' ' && !inQuotes {
          FlushedMore(done, token, Scan(s[i..], "", false));
          if token != "" {
            OfMore(done, token);
            done := done + [token];
            first := Flush(token, first);
            token := "";
          }
          continue;
        }
        token := token + [c];
      }
      ScanAt(s, i, token, inQuotes);
      FlushedMore(done, token, []);
      OfMore(done, token);
      if token != "" { first := Flush(token, first); }
    }

    method Flush(token: string, first: bool) returns (stillFirst: bool)
      modifies this
      ensures !stillFirst
      ensures Value() == if first then Cmd(token, old(params)) else Cmd(old(exec), old(params) + [token])
    {
      if first {
        exec := token;
      } else {
        params := params + [token];
      }
      stillFirst := false;
    }

    method EnsureParam(key: string, value: Option<string>)
      modifies this`params
      ensures params == Ensure(old(params), key, value)
      ensures Placed(old(params), key, if value.Some? then key + "=" + value.value else key, params)
    {
      hide Placed, Matches, Replace, FirstMatch;
      EnsurePlaces(params, key, value);
      var entry := Entry(key, value);
      var i := 0;
      assert params[0..] == params && params[..0] == [];
      while i < |params|
        invariant 0 <= i <= |params| && params == old(params)
        invariant FirstMatch(params, key) == FirstMatch(params[i..], key)
        invariant Replace(params, key, entry) == params[..i] + Replace(params[i..], key, entry)
      {
        SearchAt(params, i, key, entry);
        if Matches(params[i], key) {
          params := params[i := entry];
          return;
        }
        i := i + 1;
      }
      SearchAt(params, i, key, entry);
      params := [entry] + params;
    }

    method RemoveParam(key: string)
      modifies this`params
      ensures params == Remove(old(params), key)
      ensures exists at: seq<nat> :: Picks(old(params), key, params, at)
    {
      hide Picks;
      ghost var at := RemovePicks(params, key);
      var kept: seq<string> := [];
      var i := 0;
      while i < |params|
        invariant 0 <= i <= |params| && params == old(params)
        invariant kept + Remove(params[i..], key) == Remove(params, key)
      {
        assert params[i..][1..] == params[i + 1..];
        if !Matches(params[i], key) {
          kept := kept + [params[i]];
        }
        i := i + 1;
      }
      params := kept;
    }

    method Print() returns (result: string)
      ensures result == Build(Value())
    {
      result := QuoteToken(exec);
      var i := 0;
      while i < |params|
        invariant 0 <= i <= |params|
        invariant result + Tail(params[i..]) == Build(Value())
      {
        assert params[i..][1..] == params[i + 1..];
        result := result + " ";
        result := result + QuoteToken(params[i]);
        i := i + 1;
      }
    }
  }
}
