/** The stdio command line of `mcp-call.ts`: `{ command, args }` to one line of text and back. */
module CommandLine {
  import opened Options
  import opened JsText
  import opened Splitting

  datatype Command = Command(command: string, args: seq<string>)

  predicate IsQuote(c: char) {
    c == '"' || c == '\''
  }

  // ---- Tokenizing ----

  /** The tokenizer between two characters. */
  datatype State = State(tokens: seq<string>, current: string, inToken: bool, quote: Option<char>)

  function Step(s: State, ch: char): State {
    if s.quote.Some? then
      if ch == s.quote.value then s.(quote := None) else s.(current := s.current + [ch])
    else if IsQuote(ch) then s.(quote := Some(ch), inToken := true)
    else if IsSpace(ch) then
      State(if s.inToken then s.tokens + [s.current] else s.tokens, "", false, None)
    else s.(current := s.current + [ch], inToken := true)
  }

  function Scan(s: State, input: string): State
    decreases input
  {
    if input == [] then s else Scan(Step(s, input[0]), input[1..])
  }

  const START := State([], "", false, None)

  /** What is left over when the input ends. */
  function Finish(s: State): seq<string> {
    if s.inToken then s.tokens + [s.current] else s.tokens
  }

  function Tokens(input: string): seq<string> {
    Finish(Scan(START, input))
  }

  method TokenizeCommandLine(input: string) returns (tokens: seq<string>)
    ensures tokens == Tokens(input)
  {
    tokens := [];
    var current := "";
    var inToken := false;
    var quote: Option<char> := None;
    assert input[0..] == input;
    for i := 0 to |input|
      invariant Scan(State(tokens, current, inToken, quote), input[i..]) == Scan(START, input)
    {
      var ch := input[i];
      assert input[i..][1..] == input[i + 1..];
      if quote.Some? {
        if ch == quote.value {
          quote := None;
        } else {
          current := current + [ch];
        }
        continue;
      }
      if ch == '"' || ch == '\'' {
        quote := Some(ch);
        inToken := true;
        continue;
      }
      if IsSpace(ch) {
        if inToken {
          tokens := tokens + [current];
        }
        current := "";
        inToken := false;
        continue;
      }
      current := current + [ch];
      inToken := true;
    }
    assert input[|input|..] == [];
    if inToken {
      tokens := tokens + [current];
    }
  }

  function ParsedTokens(input: string): seq<string> {
    Tokens(Trim(input))
  }

  method ParseCommandLine(input: string) returns (c: Command)
    ensures c == if ParsedTokens(input) == [] then Command("", []) else Command(ParsedTokens(input)[0], ParsedTokens(input)[1..])
  {
    var tokens := TokenizeCommandLine(Trim(input));
    c := if tokens == [] then Command("", []) else Command(tokens[0], tokens[1..]);
  }

  // ---- Quoting ----

  predicate HasSpaceOrQuote(t: string) {
    exists i :: 0 <= i < |t| && (IsSpace(t[i]) || IsQuote(t[i]))
  }

  function FirstRun(part: string): string {
    if part == "" then "" else "\"" + part + "\""
  }

  const GLUE := "'\"'"

  /** `parts.map(part => (part ? `"${part}"` : '')).join(`'"'`)`. */
  function QuotedRuns(parts: seq<string>): string
    requires |parts| > 0
  {
    if |parts| == 1 then FirstRun(parts[0]) else FirstRun(parts[0]) + GLUE + QuotedRuns(parts[1..])
  }

  function QuoteToken(token: string): string {
    if token == "" then "\"\""
    else if !HasSpaceOrQuote(token) then token
    else if '"' !in token then "\"" + token + "\""
    else if '\'' !in token then "'" + token + "'"
    else QuotedRuns(SplitAt(token, '"'))
  }

  /** `tokens.map(quoteToken).join(' ')`. */
  function Joined(tokens: seq<string>): string
    requires |tokens| > 0
  {
    if |tokens| == 1 then QuoteToken(tokens[0]) else QuoteToken(tokens[0]) + " " + Joined(tokens[1..])
  }

  function JoinCommandLine(c: Command): string {
    Joined([c.command] + c.args)
  }

  // ---- Scanning what quoting wrote ----

  lemma {:induction false} ScanAppend(s: State, a: string, b: string)
    ensures Scan(s, a + b) == Scan(Scan(s, a), b)
    decreases a
  {
    if a == [] {
      assert a + b == b;
    } else {
      assert (a + b)[1..] == a[1..] + b;
      ScanAppend(Step(s, a[0]), a[1..], b);
    }
  }

  /** Inside quotes everything but the closing quote is text. */
  lemma {:induction false} ScanQuoted(s: State, t: string, q: char)
    requires s.quote == Some(q) && q !in t
    ensures Scan(s, t) == s.(current := s.current + t)
    decreases t
  {
    if t == [] {
      assert s.current + t == s.current;
    } else {
      ScanQuoted(Step(s, t[0]), t[1..], q);
      assert s.current + [t[0]] + t[1..] == s.current + t;
    }
  }

  /** Outside quotes, text without spaces and quotes goes into the current token. */
  lemma {:induction false} ScanPlain(s: State, t: string)
    requires s.quote == None && !HasSpaceOrQuote(t)
    ensures Scan(s, t) == s.(current := s.current + t, inToken := s.inToken || t != "")
    decreases t
  {
    if t == [] {
      assert s.current + t == s.current;
    } else {
      assert !IsSpace(t[0]) && !IsQuote(t[0]);
      forall i | 0 <= i < |t[1..]|
        ensures !IsSpace(t[1..][i]) && !IsQuote(t[1..][i])
      {
        assert t[1..][i] == t[i + 1];
      }
      ScanPlain(Step(s, t[0]), t[1..]);
      assert s.current + [t[0]] + t[1..] == s.current + t;
    }
  }

  /** A quoted run adds its text to the current token and makes it one. */
  lemma ScanRun(s: State, q: char, t: string)
    requires s.quote == None && IsQuote(q) && q !in t
    ensures Scan(s, [q] + t + [q]) == s.(current := s.current + t, inToken := true)
  {
    var inside := s.(quote := Some(q), inToken := true);
    assert Step(s, q) == inside;
    assert ([q] + t + [q])[1..] == t + [q];
    ScanAppend(inside, t, [q]);
    ScanQuoted(inside, t, q);
    assert [q][1..] == [];
  }

  /** The runs of a split token, glued by the tokenizer, are the token. */
  lemma {:induction false} ScanRuns(s: State, parts: seq<string>)
    requires s.quote == None && |parts| > 0 && NoneHas(parts, '"')
    ensures Scan(s, QuotedRuns(parts)) ==
            s.(current := s.current + JoinWith(parts, '"'), inToken := s.inToken || |parts| > 1 || parts[0] != "")
    decreases parts
  {
    ScanFirstRun(s, parts[0]);
    if |parts| <= 1 {
    } else {
      var s1 := s.(current := s.current + parts[0], inToken := s.inToken || parts[0] != "");
      var s2 := s1.(current := s1.current + "\"", inToken := true);
      var first := FirstRun(parts[0]);
      var more := QuotedRuns(parts[1..]);
      ScanGlue(s1);
      ScanRuns(s2, parts[1..]);
      ScanAppend(s, first + GLUE, more);
      ScanAppend(s, first, GLUE);
      Glued(s.current, parts[0], "\"", JoinWith(parts[1..], '"'));
    }
  }

  lemma ScanFirstRun(s: State, t: string)
    requires s.quote == None && '"' !in t
    ensures Scan(s, FirstRun(t)) == s.(current := s.current + t, inToken := s.inToken || t != "")
  {
    if t == "" {
      assert s.current + "" == s.current;
    } else {
      ScanRun(s, '"', t);
    }
  }

  lemma ScanGlue(s: State)
    requires s.quote == None
    ensures Scan(s, GLUE) == s.(current := s.current + "\"", inToken := true)
  {
    ScanRun(s, '\'', "\"");
    assert ['\''] + "\"" + ['\''] == GLUE;
  }

  /** Whatever the token, its quoted form is read back as that token. */
  lemma ScanQuotedToken(s: State, token: string)
    requires s.quote == None && s.current == ""
    ensures Scan(s, QuoteToken(token)) == s.(current := token, inToken := true)
  {
    if token == "" {
      ScanRun(s, '"', "");
      assert ['"'] + "" + ['"'] == "\"\"";
    } else if !HasSpaceOrQuote(token) {
      ScanPlain(s, token);
      assert "" + token == token;
    } else if '"' !in token {
      ScanRun(s, '"', token);
      assert "" + token == token;
    } else if '\'' !in token {
      ScanRun(s, '\'', token);
      assert "" + token == token;
    } else {
      JoinOfSplit(token, '"');
      SplitIsClean(token, '"');
      ScanRuns(s, SplitAt(token, '"'));
      assert "" + token == token;
    }
  }

  /** A quoted token and the space behind it: one finished token. */
  lemma ScanTokenAndSpace(s: State, token: string)
    requires s.quote == None && s.current == "" && !s.inToken
    ensures Scan(s, QuoteToken(token) + " ") == State(s.tokens + [token], "", false, None)
  {
    var s1 := s.(current := token, inToken := true);
    ScanAppend(s, QuoteToken(token), " ");
    ScanQuotedToken(s, token);
    assert " "[1..] == "";
    assert Scan(s1, " ") == Step(s1, ' ');
  }

  lemma HeadAndTail(done: seq<string>, tokens: seq<string>)
    requires |tokens| > 0
    ensures done + [tokens[0]] + tokens[1..] == done + tokens
  {
  }

  lemma {:induction false} ScanJoined(s: State, tokens: seq<string>)
    requires |tokens| > 0 && s.quote == None && s.current == "" && !s.inToken
    ensures Finish(Scan(s, Joined(tokens))) == s.tokens + tokens
    decreases tokens
  {
    if |tokens| == 1 {
      ScanQuotedToken(s, tokens[0]);
      assert [tokens[0]] == tokens;
    } else {
      var s2 := State(s.tokens + [tokens[0]], "", false, None);
      ScanTokenAndSpace(s, tokens[0]);
      ScanAppend(s, QuoteToken(tokens[0]) + " ", Joined(tokens[1..]));
      ScanJoined(s2, tokens[1..]);
      HeadAndTail(s.tokens, tokens);
    }
  }

  // ---- Trimming touches nothing ----

  predicate NoSpaceAtEnds(t: string) {
    t != [] && !IsSpace(t[0]) && !IsSpace(t[|t| - 1])
  }

  lemma {:induction false} RunsEnds(parts: seq<string>)
    requires |parts| > 1 || (|parts| == 1 && parts[0] != "")
    ensures NoSpaceAtEnds(QuotedRuns(parts))
  {
    if |parts| <= 1 || (|parts| == 2 && parts[1] == "") {
    } else {
      RunsEnds(parts[1..]);
    }
  }

  lemma QuotedEnds(token: string)
    ensures NoSpaceAtEnds(QuoteToken(token))
  {
    if token != "" && HasSpaceOrQuote(token) && '"' in token && '\'' in token {
      SplitIsClean(token, '"');
      RunsEnds(SplitAt(token, '"'));
    }
  }

  lemma {:induction false} JoinedEnds(tokens: seq<string>)
    requires |tokens| > 0
    ensures NoSpaceAtEnds(Joined(tokens))
  {
    QuotedEnds(tokens[0]);
    if |tokens| <= 1 {
    } else {
      JoinedEnds(tokens[1..]);
    }
  }

  /** Parsing the joined command line gives back exactly the command and its arguments, for all strings. */
  lemma RoundTrip(c: Command)
    ensures ParsedTokens(JoinCommandLine(c)) == [c.command] + c.args
  {
    var tokens := [c.command] + c.args;
    JoinedEnds(tokens);
    ScanJoined(START, tokens);
    assert [] + tokens == tokens;
  }

  method JoinThenParse(c: Command) returns (r: Command)
    ensures r == c
  {
    RoundTrip(c);
    r := ParseCommandLine(JoinCommandLine(c));
  }

  // ---- White space between tokens ----

  /** The quoted tokens with these texts between them. */
  function Spread(tokens: seq<string>, gaps: seq<string>): string
    requires |tokens| > 0 && |gaps| == |tokens| - 1
  {
    if |tokens| == 1 then QuoteToken(tokens[0]) else QuoteToken(tokens[0]) + (gaps[0] + Spread(tokens[1..], gaps[1..]))
  }

  /** White space, and some of it. */
  ghost predicate AllSpace(gaps: seq<string>) {
    forall i :: 0 <= i < |gaps| ==> Blank(gaps[i]) && gaps[i] != ""
  }

  lemma {:induction false} ScanBlank(s: State, gap: string)
    requires s.quote == None && Blank(gap)
    ensures Scan(s, gap) == if gap == "" then s else State(if s.inToken then s.tokens + [s.current] else s.tokens, "", false, None)
    decreases gap
  {
    if gap == "" {
    } else {
      assert IsSpace(gap[0]) && !IsQuote(gap[0]);
      forall i | 0 <= i < |gap[1..]|
        ensures IsSpace(gap[1..][i])
      {
        assert gap[1..][i] == gap[i + 1];
      }
      ScanBlank(Step(s, gap[0]), gap[1..]);
    }
  }

  lemma {:induction false} ScanSpread(s: State, tokens: seq<string>, gaps: seq<string>)
    requires |tokens| > 0 && |gaps| == |tokens| - 1 && AllSpace(gaps)
    requires s.quote == None && s.current == "" && !s.inToken
    ensures Finish(Scan(s, Spread(tokens, gaps))) == s.tokens + tokens
    decreases tokens
  {
    var word := QuoteToken(tokens[0]);
    ScanQuotedToken(s, tokens[0]);
    if |tokens| == 1 {
      assert [tokens[0]] == tokens;
    } else {
      var s1, rest := s.(current := tokens[0], inToken := true), Spread(tokens[1..], gaps[1..]);
      ScanAppend(s, word, gaps[0] + rest);
      ScanAppend(s1, gaps[0], rest);
      ScanBlank(s1, gaps[0]);
      ScanSpread(State(s.tokens + [tokens[0]], "", false, None), tokens[1..], gaps[1..]);
      HeadAndTail(s.tokens, tokens);
    }
  }

  lemma {:induction false} TrimEndBehind(a: string, gap: string)
    requires Blank(gap) && a != "" && !IsSpace(a[|a| - 1])
    ensures TrimEnd(a + gap) == a
  {
    BlankBehind(a, gap);
  }

  lemma {:induction false} TrimStartBefore(gap: string, a: string)
    requires Blank(gap) && a != "" && !IsSpace(a[0])
    ensures TrimStart(gap + a) == a
  {
    BlankInFront(gap, a);
  }

  lemma {:induction false} SpreadEnds(tokens: seq<string>, gaps: seq<string>)
    requires |tokens| > 0 && |gaps| == |tokens| - 1
    ensures NoSpaceAtEnds(Spread(tokens, gaps))
  {
    QuotedEnds(tokens[0]);
    if |tokens| == 1 {
    } else {
      SpreadEnds(tokens[1..], gaps[1..]);
    }
  }

  /** A command line parses to its tokens, whatever white space stands between and around them. */
  lemma {:induction false} ParsedSpread(tokens: seq<string>, before: string, gaps: seq<string>, after: string)
    requires |tokens| > 0 && |gaps| == |tokens| - 1 && AllSpace(gaps) && Blank(before) && Blank(after)
    ensures ParsedTokens(before + (Spread(tokens, gaps) + after)) == tokens
  {
    var line := Spread(tokens, gaps);
    SpreadEnds(tokens, gaps);
    TrimStartBefore(before, line + after);
    TrimEndBehind(line, after);
    ScanSpread(START, tokens, gaps);
    assert [] + tokens == tokens;
  }

  lemma {:induction false} ParsedBlank(s: string)
    requires Blank(s)
    ensures ParsedTokens(s) == []
  {
    BlankTrims(s);
  }

  /** A word without white space and quotes is its own quoted form. */
  lemma {:induction false} WordsAreThemselves(word: string)
    requires word != "" && forall i :: 0 <= i < |word| ==> !IsSpace(word[i]) && word[i] != '"' && word[i] != '\''
    ensures QuoteToken(word) == word
  {
  }
}
