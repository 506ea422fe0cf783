/** Token recognition of the shell command language, POSIX.1 XCU sections 2.2.1 (backslash), 2.2.2 (single
    quotes) and 2.3, for unquoted text without expansions, double quotes, comments and patterns; meeting
    one of those outside quotes is an error here. Quote removal is done on the way, so a word token
    carries the string the shell passes on. */
module ShellLexer {
  import opened Options

  datatype Token = Word(text: string) | IoNumber(digits: string) | Op(text: string)

  datatype Mode = Plain | InQuotes | AfterBackslash | Unsupported

  /** `word` is the word being read, `op` the operator being read (empty for none), `quoted` whether any
      part of the word was quoted. */
  datatype Lexer = Lexer(tokens: seq<Token>, word: Option<string>, quoted: bool, op: string, mode: Mode)

  predicate IsDigit(c: char) { '0' <= c <= '9' }

  predicate IsPlain(c: char) {
    IsDigit(c) || 'a' <= c <= 'z' || 'A' <= c <= 'Z' || c == '-' || c == '_' || c == '/' || c == '.' || c == ':' ||
      c == ','
  }

  predicate AllPlain(s: string) { forall i :: 0 <= i < |s| ==> IsPlain(s[i]) }

  predicate AllDigits(s: string) { forall i :: 0 <= i < |s| ==> IsDigit(s[i]) }

  predicate IsOpChar(c: char) { c == ';' || c == '|' || c == '&' || c == '<' || c == '>' || c == '(' || c == ')' }

  predicate IsLongOp(s: string) {
    s == "&&" || s == "||" || s == ";;" || s == "<<" || s == ">>" || s == "<&" || s == ">&" || s == "<>" || s == ">|"
  }

  function Text(l: Lexer): string { if l.word.Some? then l.word.value else "" }

  /** The word ends because `next` cannot continue it. */
  function EndWord(l: Lexer, next: char): Lexer {
    if l.word.None? then l
    else
      var t := if !l.quoted && AllDigits(l.word.value) &&
        (next == '<' || next == '>') then IoNumber(l.word.value) else Word(l.word.value);
      l.(tokens := l.tokens + [t], word := None, quoted := false)
  }

  function EndOp(l: Lexer): Lexer { if l.op == "" then l else l.(tokens := l.tokens + [Op(l.op)], op := "") }

  function PlainStep(l: Lexer, c: char): Lexer {
    if IsOpChar(c) then
      if l.op != "" && IsLongOp(l.op + [c]) then l.(op := l.op + [c])
      else EndWord(EndOp(l), c).(op := [c])
    else
      var m := EndOp(l);
      if c == ' ' || c == '\t' then EndWord(m, c)
      else if c == '\n' then var n := EndWord(m, c); n.(tokens := n.tokens + [Op("\n")])
      else if c == '\'' then m.(word := Some(Text(m)), quoted := true, mode := InQuotes)
      else if c == '\\' then m.(word := Some(Text(m)), quoted := true, mode := AfterBackslash)
      else if IsPlain(c) then m.(word := Some(Text(m) + [c]))
      else m.(mode := Unsupported)
  }

  function Step(l: Lexer, c: char): Lexer {
    match l.mode
    case Plain => PlainStep(l, c)
    case InQuotes => if c == '\'' then l.(mode := Plain) else l.(word := Some(Text(l) + [c]))
    case AfterBackslash => if c == '\n' then l.(mode := Plain) else l.(word := Some(Text(l) + [c]), mode := Plain)
    case Unsupported => l
  }

  function Feed(l: Lexer, s: string): Lexer
    decreases |s|
  {
    if s == "" then l else Feed(Step(l, s[0]), s[1..])
  }

  /** Between tokens. */
  function At(tokens: seq<Token>): Lexer { Lexer(tokens, None, false, "", Plain) }

  function Finish(l: Lexer): Option<seq<Token>> {
    if l.mode != Plain then None else Some(EndWord(EndOp(l), ' ').tokens)
  }

  /** The tokens of a command line, or none if it is unterminated or outside the fragment. */
  function Lex(s: string): Option<seq<Token>> { Finish(Feed(At([]), s)) }

  lemma {:induction false} FeedAppend(l: Lexer, a: string, b: string)
    ensures Feed(l, a + b) == Feed(Feed(l, a), b)
    decreases |a|
  {
    if a == "" {
      assert a + b == b;
    } else {
      assert (a + b)[1..] == a[1..] + b;
      FeedAppend(Step(l, a[0]), a[1..], b);
    }
  }

  lemma FeedOne(l: Lexer, c: char)
    ensures Feed(l, [c]) == Step(l, c)
  {
    assert Feed(Step(l, c), [c][1..]) == Step(l, c);
  }

  /** Plain characters extend the word. */
  lemma {:induction false} FeedPlain(l: Lexer, s: string)
    requires l.mode == Plain && l.op == "" && AllPlain(s) && s != ""
    ensures Feed(l, s) == l.(word := Some(Text(l) + s))
    decreases |s|
  {
    var m := l.(word := Some(Text(l) + [s[0]]));
    assert Step(l, s[0]) == m;
    if |s| > 1 {
      FeedPlain(m, s[1..]);
      assert Text(l) + [s[0]] + s[1..] == Text(l) + s;
    } else {
      assert s == [s[0]] && Feed(m, s[1..]) == m;
    }
  }

  // Quoting

  /** Single-quoting with each quote written as `'\''`. */
  function Escaped(s: string): string {
    if s == "" then "" else (if s[0] == '\'' then "'\\''" else [s[0]]) + Escaped(s[1..])
  }

  function ShellQuoted(s: string): string { "'" + Escaped(s) + "'" }

  lemma FeedEscapedQuote(l: Lexer)
    requires l.mode == InQuotes && l.word.Some? && l.quoted && l.op == ""
    ensures Feed(l, "'\\''") == l.(word := Some(Text(l) + "'"))
  {
    var l1 := l.(mode := Plain);
    var l2 := l1.(mode := AfterBackslash);
    var l3 := l1.(word := Some(Text(l) + "'"));
    assert Step(l, '\'') == l1 && Step(l1, '\\') == l2 && Step(l2, '\'') == l3 &&
      Step(l3, '\'') == l3.(mode := InQuotes);
    assert "'\\''" == ['\''] + ['\\'] + ['\''] + ['\''];
    FeedAppend(l, ['\''] + ['\\'] + ['\''], ['\'']);
    FeedAppend(l, ['\''] + ['\\'], ['\'']);
    FeedAppend(l, ['\''], ['\\']);
    FeedOne(l, '\'');
    FeedOne(l1, '\\');
    FeedOne(l2, '\'');
    FeedOne(l3, '\'');
  }

  lemma {:induction false} FeedEscaped(l: Lexer, s: string)
    requires l.mode == InQuotes && l.word.Some? && l.quoted && l.op == ""
    ensures Feed(l, Escaped(s)) == l.(word := Some(Text(l) + s))
    decreases |s|
  {
    if s == "" {
      assert Text(l) + s == Text(l);
    } else {
      var head := if s[0] == '\'' then "'\\''" else [s[0]];
      FeedAppend(l, head, Escaped(s[1..]));
      if s[0] == '\'' { FeedEscapedQuote(l); } else { FeedOne(l, s[0]); }
      var m := l.(word := Some(Text(l) + [s[0]]));
      FeedEscaped(m, s[1..]);
      assert Text(l) + [s[0]] + s[1..] == Text(l) + s;
    }
  }

  /** A quoted string extends the word by exactly that string, whatever it contains. */
  lemma FeedShellQuoted(l: Lexer, s: string)
    requires l.mode == Plain && l.op == ""
    ensures Feed(l, ShellQuoted(s)) == l.(word := Some(Text(l) + s), quoted := true)
  {
    var l1 := l.(word := Some(Text(l)), quoted := true, mode := InQuotes);
    assert Step(l, '\'') == l1;
    FeedAppend(l, "'" + Escaped(s), "'");
    FeedAppend(l, "'", Escaped(s));
    FeedOne(l, '\'');
    FeedEscaped(l1, s);
    FeedOne(l1.(word := Some(Text(l) + s)), '\'');
  }

  // Whole tokens

  lemma FeedWord(tokens: seq<Token>, w: string)
    requires AllPlain(w) && w != ""
    ensures Feed(At(tokens), w + " ") == At(tokens + [Word(w)])
  {
    FeedAppend(At(tokens), w, " ");
    FeedPlain(At(tokens), w);
    assert "" + w == w;
    FeedOne(At(tokens).(word := Some(w)), ' ');
  }

  lemma FeedQuotedWord(tokens: seq<Token>, s: string)
    ensures Feed(At(tokens), ShellQuoted(s) + " ") == At(tokens + [Word(s)])
  {
    FeedAppend(At(tokens), ShellQuoted(s), " ");
    FeedShellQuoted(At(tokens), s);
    assert "" + s == s;
    FeedOne(At(tokens).(word := Some(s), quoted := true), ' ');
  }

  /** A one-character operator and a blank. */
  lemma FeedOp(tokens: seq<Token>, c: char)
    requires IsOpChar(c)
    ensures Feed(At(tokens), [c] + " ") == At(tokens + [Op([c])])
  {
    FeedAppend(At(tokens), [c], " ");
    FeedOne(At(tokens), c);
    FeedOne(At(tokens).(op := [c]), ' ');
  }

  /** A word that an operator ends. */
  lemma FeedWordOp(tokens: seq<Token>, w: string, c: char)
    requires AllPlain(w) && w != "" && (c == ';' || c == '|')
    ensures Feed(At(tokens), w + ([c] + " ")) == At(tokens + [Word(w), Op([c])])
  {
    var l := At(tokens).(word := Some(w));
    var m := At(tokens + [Word(w)]).(op := [c]);
    FeedAppend(At(tokens), w, [c] + " ");
    FeedPlain(At(tokens), w);
    assert "" + w == w;
    FeedAppend(l, [c], " ");
    FeedOne(l, c);
    assert Step(l, c) == m;
    FeedOne(m, ' ');
    assert tokens + [Word(w)] + [Op([c])] == tokens + [Word(w), Op([c])];
  }

  lemma RedirectSteps(tokens: seq<Token>, t1: seq<Token>, t2: seq<Token>)
    requires t1 == tokens + [IoNumber("2")] && t2 == t1 + [Op(">&")]
    ensures Step(At(tokens), '2') == At(tokens).(word := Some("2"))
    ensures Step(At(tokens).(word := Some("2")), '>') == At(t1).(op := ">")
    ensures Step(At(t1).(op := ">"), '&') == At(t1).(op := ">&")
    ensures Step(At(t1).(op := ">&"), '1') == At(t2).(word := Some("1"))
    ensures Step(At(t2).(word := Some("1")), ' ') == At(t2 + [Word("1")])
  {
    assert "" + ['2'] == "2" && "" + ['1'] == "1" && ">" + ['&'] == ">&";
  }

  /** Sending standard error where standard output goes. */
  lemma FeedRedirect(tokens: seq<Token>)
    ensures Feed(At(tokens), "2>&1 ") == At(tokens + [IoNumber("2"), Op(">&"), Word("1")])
  {
    var t1 := tokens + [IoNumber("2")];
    var t2 := t1 + [Op(">&")];
    RedirectSteps(tokens, t1, t2);
    assert "2>&1 " == ['2'] + ['>'] + ['&'] + ['1'] + [' '];
    FeedAppend(At(tokens), ['2'] + ['>'] + ['&'] + ['1'], [' ']);
    FeedAppend(At(tokens), ['2'] + ['>'] + ['&'], ['1']);
    FeedAppend(At(tokens), ['2'] + ['>'], ['&']);
    FeedAppend(At(tokens), ['2'], ['>']);
    FeedOne(At(tokens), '2');
    FeedOne(At(tokens).(word := Some("2")), '>');
    FeedOne(At(t1).(op := ">"), '&');
    FeedOne(At(t1).(op := ">&"), '1');
    FeedOne(At(t2).(word := Some("1")), ' ');
    assert t2 + [Word("1")] == tokens + [IoNumber("2"), Op(">&"), Word("1")];
  }
}
