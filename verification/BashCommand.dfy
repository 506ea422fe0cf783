/** Building the shell line that runs a bash request: `append_shell_quoted`, `append_literal`,
    `extract_command_name` and `build_command` of guest/bedrock-io/bedrock-io.c. */
module BashCommand {
  import opened ShellLexer
  import opened Options

  const NUL: char := '\0'

  const NAME_CAP: nat := 64

  const TAG_CAP: nat := 128

  // Appending to a buffer

  lemma {:induction false} EscapedAppend(a: string, b: string)
    ensures Escaped(a + b) == Escaped(a) + Escaped(b)
    decreases |a|
  {
    if a == "" {
      assert a + b == b;
    } else {
      assert (a + b)[1..] == a[1..] + b;
      EscapedAppend(a[1..], b);
    }
  }

  function Escape1(c: char): string { if c == '\'' then "'\\''" else [c] }

  lemma EscapedNext(s: string, i: nat)
    requires i < |s|
    ensures Escaped(s[..i + 1]) == Escaped(s[..i]) + Escape1(s[i])
    ensures |Escaped(s[..i + 1])| <= |Escaped(s)|
  {
    assert s[..i + 1] == s[..i] + [s[i]];
    EscapedAppend(s[..i], [s[i]]);
    assert Escaped([s[i]]) == Escape1(s[i]) + Escaped("");
    assert s == s[..i + 1] + s[i + 1..];
    EscapedAppend(s[..i + 1], s[i + 1..]);
  }

  /** Write `piece` at `p`, where it fits. */
  method Put(dst: array<char>, p: nat, piece: string)
    requires p + |piece| <= dst.Length
    modifies dst
    ensures dst[..p + |piece|] == old(dst[..p]) + piece
  {
    forall i | 0 <= i < |piece| { dst[p + i] := piece[i]; }
  }

  /** The escaped text alone, leaving room for at least one more character. */
  method PutEscaped(dst: array<char>, off: nat, src: string) returns (ok: bool, p: nat)
    requires off < dst.Length
    modifies dst
    ensures ok <==> off + |Escaped(src)| < dst.Length
    ensures ok ==> p == off + |Escaped(src)| && dst[..p] == old(dst[..off]) + Escaped(src)
    ensures dst[..off] == old(dst[..off])
  {
    ghost var before := dst[..off];
    ghost var done := "";
    var i := 0;
    p := off;
    assert before + done == before;
    while i < |src|
      invariant 0 <= i <= |src| && p == off + |done| < dst.Length
      invariant done == Escaped(src[..i])
      invariant dst[..p] == before + done && dst[..off] == before
    {
      EscapedNext(src, i);
      var piece := Escape1(src[i]);
      if p + |piece| >= dst.Length { return false, p; }
      Put(dst, p, piece);
      assert before + done + piece == before + (done + piece);
      assert dst[..off] == dst[..p + |piece|][..off];
      done := done + piece;
      p := p + |piece|;
      i := i + 1;
    }
    assert src[..i] == src;
    ok := true;
  }

  /** Append `src` single-quoted. Every write is inside the buffer; it succeeds exactly when the quoted
      form and its NUL fit, and then only adds them. */
  method AppendShellQuoted(dst: array<char>, off: nat, src: string) returns (ok: bool, o: nat)
    requires off <= dst.Length
    modifies dst
    ensures ok <==> off + |ShellQuoted(src)| + 1 <= dst.Length
    ensures ok ==> o == off + |ShellQuoted(src)| && dst[..o] == old(dst[..off]) + ShellQuoted(src) && dst[o] == NUL
    ensures !ok ==> o == off && dst[..off] == old(dst[..off])
  {
    ghost var before := dst[..off];
    if off + 1 >= dst.Length { return false, off; }
    Put(dst, off, "'");
    assert dst[..off] == dst[..off + 1][..off];
    var fits, p := PutEscaped(dst, off + 1, src);
    assert dst[..off] == dst[..off + 1][..off];
    if !fits || p + 2 > dst.Length { return false, off; }
    Put(dst, p, "'");
    assert before + "'" + Escaped(src) + "'" == before + ShellQuoted(src);
    dst[p + 1] := NUL;
    return true, p + 1;
  }

  /** Append fixed text. */
  method AppendLiteral(dst: array<char>, off: nat, src: string) returns (ok: bool, o: nat)
    requires off <= dst.Length
    modifies dst
    ensures ok <==> off + |src| + 1 <= dst.Length
    ensures ok ==> o == off + |src| && dst[..o] == old(dst[..off]) + src && dst[o] == NUL
    ensures !ok ==> o == off && dst[..off] == old(dst[..off])
  {
    if off + |src| + 1 > dst.Length { return false, off; }
    Put(dst, off, src);
    o := off + |src|;
    dst[o] := NUL;
    ok := true;
  }

  // The journal tag

  predicate IsBlank(c: char) { c == ' ' || c == '\t' }

  predicate EndsToken(c: char) { IsBlank(c) || c == '\n' }

  function SkipBlanks(s: string): string { if s != "" && IsBlank(s[0]) then SkipBlanks(s[1..]) else s }

  function TakeToken(s: string): string { if s == "" || EndsToken(s[0]) then "" else [s[0]] + TakeToken(s[1..]) }

  /** What follows the last slash. */
  function Basename(s: string): string {
    if s == "" then "" else if s[|s| - 1] == '/' then "" else Basename(s[..|s| - 1]) + [s[|s| - 1]]
  }

  function FirstToken(cmd: string): string { TakeToken(SkipBlanks(cmd)) }

  function CommandName(cmd: string): string {
    var name := Basename(FirstToken(cmd));
    if name == "" then "exec" else name
  }

  lemma {:induction false} BasenameIsSuffix(s: string)
    ensures |Basename(s)| <= |s| && s[|s| - |Basename(s)|..] == Basename(s)
    ensures '/' !in Basename(s)
    ensures |Basename(s)| < |s| ==> s[|s| - |Basename(s)| - 1] == '/'
    decreases |s|
  {
    if s != "" && s[|s| - 1] != '/' {
      BasenameIsSuffix(s[..|s| - 1]);
      assert s == s[..|s| - 1] + [s[|s| - 1]];
    }
  }

  lemma {:induction false} TokenIsPrefix(s: string)
    ensures TakeToken(s) <= s && (forall i :: 0 <= i < |TakeToken(s)| ==> !EndsToken(TakeToken(s)[i]))
    ensures |TakeToken(s)| < |s| ==> EndsToken(s[|TakeToken(s)|])
    decreases |s|
  {
    if s != "" && !EndsToken(s[0]) {
      TokenIsPrefix(s[1..]);
      assert s == [s[0]] + s[1..];
    }
  }

  /** The tag's name is never empty and has no slash and no white space. */
  lemma CommandNameIsTag(cmd: string)
    ensures CommandName(cmd) != "" && '/' !in CommandName(cmd)
    ensures forall i :: 0 <= i < |CommandName(cmd)| ==> !EndsToken(CommandName(cmd)[i])
  {
    var t := FirstToken(cmd);
    var b := Basename(t);
    TokenIsPrefix(SkipBlanks(cmd));
    BasenameIsSuffix(t);
    forall i | 0 <= i < |b| ensures !EndsToken(b[i]) {
      assert b[i] == t[|t| - |b| + i];
    }
  }

  /** It is the end of the command's first token, from after its last slash, unless the token ends in a
      slash or is missing. */
  lemma CommandNameIsBasename(cmd: string) returns (k: nat)
    ensures var t := FirstToken(cmd);
      if t == "" || t[|t| - 1] == '/' then CommandName(cmd) == "exec"
      else k < |t| && t[k..] == CommandName(cmd) && (k > 0 ==> t[k - 1] == '/')
  {
    var t := FirstToken(cmd);
    BasenameIsSuffix(t);
    k := |t| - |Basename(t)|;
  }

  // The three pointers into the command

  method TokenStart(cmd: string) returns (start: nat)
    ensures start <= |cmd| && cmd[start..] == SkipBlanks(cmd)
  {
    start := 0;
    while start < |cmd| && IsBlank(cmd[start])
      invariant 0 <= start <= |cmd|
      invariant SkipBlanks(cmd[start..]) == SkipBlanks(cmd)
    {
      assert cmd[start..][1..] == cmd[start + 1..];
      start := start + 1;
    }
  }

  lemma TokenGrows(cmd: string, start: nat, end: nat)
    requires start <= end < |cmd| && !EndsToken(cmd[end])
    ensures cmd[start..end] + TakeToken(cmd[end..]) == cmd[start..end + 1] + TakeToken(cmd[end + 1..])
  {
    assert cmd[end..][1..] == cmd[end + 1..];
    Assoc(cmd[start..end], [cmd[end]], TakeToken(cmd[end + 1..]));
    assert cmd[start..end] + [cmd[end]] == cmd[start..end + 1];
  }

  method TokenEnd(cmd: string, start: nat) returns (end: nat)
    requires start <= |cmd|
    ensures start <= end <= |cmd| && cmd[start..end] == TakeToken(cmd[start..])
  {
    end := start;
    while end < |cmd| && !EndsToken(cmd[end])
      invariant start <= end <= |cmd|
      invariant cmd[start..end] + TakeToken(cmd[end..]) == TakeToken(cmd[start..])
    {
      TokenGrows(cmd, start, end);
      end := end + 1;
    }
  }

  method BaseStart(token: string) returns (p: nat)
    ensures p <= |token| && token[p..] == Basename(token)
  {
    p := |token|;
    assert token[..p] == token;
    while p > 0 && token[p - 1] != '/'
      invariant 0 <= p <= |token|
      invariant Basename(token) == Basename(token[..p]) + token[p..]
    {
      assert token[..p][..p - 1] == token[..p - 1];
      assert [token[p - 1]] + token[p..] == token[p - 1..];
      p := p - 1;
    }
  }

  /** The first token from after its last slash, or the stand-in name. */
  method NameOf(cmd: string) returns (name: string)
    ensures name == CommandName(cmd)
  {
    var start := TokenStart(cmd);
    var end := TokenEnd(cmd, start);
    var p := BaseStart(cmd[start..end]);
    name := cmd[start..end][p..];
    if name == "" { name := "exec"; }
  }

  /** The name of the command into a buffer. */
  method ExtractCommandName(cmd: string, out: array<char>) returns (ok: bool, len: nat)
    modifies out
    ensures ok <==> |CommandName(cmd)| + 1 <= out.Length
    ensures ok ==> len == |CommandName(cmd)| && out[..len] == CommandName(cmd) && out[len] == NUL
  {
    if out.Length == 0 { return false, 0; }
    var name := NameOf(cmd);
    if |name| + 1 > out.Length { return false, 0; }
    Put(out, 0, name);
    out[|name|] := NUL;
    return true, |name|;
  }

  function Where(container: string): string { if container == "" then "host" else container }

  /** `snprintf` cuts the tag to its buffer. */
  function Tag(container: string, command: string): string {
    var t := CommandName(command) + " [" + Where(container) + "]";
    if |t| < TAG_CAP then t else t[..TAG_CAP - 1]
  }

  // The whole line

  /** The fixed text around the strings of a request. */
  datatype Wrapper = Wrapper(prefix: string, podman: string, inContainer: string, onHost: string,
                             redirect: string, tee: string, pipe: string, journal: string)

  const WRAPPER := Wrapper("set -o pipefail; ", "podman exec ", " /bin/sh -c ", "/bin/sh -c ", " 2>&1 | ", "tee ",
    " | ", "systemd-cat -t ")

  function Target(w: Wrapper, container: string): string {
    if container == "" then w.onHost else (w.podman + ShellQuoted(container)) + w.inContainer
  }

  function Capture(w: Wrapper, record: bool, path: string): string { if record then (w.tee + path) + w.pipe else "" }

  function Journal(w: Wrapper, container: string, command: string): string {
    w.journal + ShellQuoted(Tag(container, command))
  }

  function Head(w: Wrapper, container: string): string { w.prefix + Target(w, container) }

  function Body(w: Wrapper, command: string): string { ShellQuoted(command) + w.redirect }

  function Tail(w: Wrapper, container: string, command: string, record: bool, path: string): string {
    Capture(w, record, path) + Journal(w, container, command)
  }

  function Line(w: Wrapper, container: string, command: string, record: bool, path: string): string {
    (Head(w, container) + Body(w, command)) + Tail(w, container, command, record, path)
  }

  lemma Assoc(a: string, b: string, c: string)
    ensures a + b + c == a + (b + c)
  {}

  /** Running a command with its output to the journal: it succeeds exactly when the line, its NUL and the
      command's name fit their buffers, and then the buffer holds the line. */
  method BuildCommand(w: Wrapper, container: string, command: string, record: bool, path: string, cmd: array<char>)
    returns (ok: bool, len: nat)
    modifies cmd
    ensures ok <==>
      |Line(w, container, command, record, path)| + 1 <= cmd.Length && |CommandName(command)| + 1 <= NAME_CAP
    ensures ok ==> len == |Line(w, container, command, record, path)| && cmd[len] == NUL
    ensures ok ==> cmd[..len] == Line(w, container, command, record, path)
  {
    var off;
    ghost var h, b, t := Head(w, container), Body(w, command), Tail(w, container, command, record, path);
    ok, off := AppendHead(w, cmd, 0, container);
    if !ok { return false, 0; }
    assert cmd[..off] == h by { Assoc("", "", h); }
    ok, off := AppendBody(w, cmd, off, command);
    if !ok { return false, 0; }
    assert cmd[..off] == h + b;
    ok, len := AppendTail(w, cmd, off, container, command, record, path);
    assert ok ==> cmd[..len] == h + b + t;
  }

  method AppendHead(w: Wrapper, cmd: array<char>, off: nat, container: string) returns (ok: bool, o: nat)
    requires off <= cmd.Length
    modifies cmd
    ensures ok <==> off + |Head(w, container)| + 1 <= cmd.Length
    ensures ok ==> o == off + |Head(w, container)| && cmd[..o] == old(cmd[..off]) + Head(w, container) && cmd[o] == NUL
  {
    ghost var before := cmd[..off];
    ok, o := AppendLiteral(cmd, off, w.prefix);
    if !ok { return false, off; }
    ok, o := AppendTarget(w, cmd, o, container);
    Assoc(before, w.prefix, Target(w, container));
  }

  method AppendBody(w: Wrapper, cmd: array<char>, off: nat, command: string) returns (ok: bool, o: nat)
    requires off <= cmd.Length
    modifies cmd
    ensures ok <==> off + |Body(w, command)| + 1 <= cmd.Length
    ensures ok ==> o == off + |Body(w, command)| && cmd[..o] == old(cmd[..off]) + Body(w, command) && cmd[o] == NUL
  {
    ghost var before := cmd[..off];
    ok, o := AppendShellQuoted(cmd, off, command);
    if !ok { return false, off; }
    ok, o := AppendLiteral(cmd, o, w.redirect);
    Assoc(before, ShellQuoted(command), w.redirect);
  }

  method AppendTail(w: Wrapper, cmd: array<char>, off: nat, container: string, command: string, record: bool,
        path: string)
    returns (ok: bool, o: nat)
    requires off < cmd.Length && cmd[off] == NUL
    modifies cmd
    ensures ok <==>
      off + |Tail(w, container, command, record, path)| + 1 <= cmd.Length && |CommandName(command)| + 1 <= NAME_CAP
    ensures ok ==> o == off + |Tail(w, container, command, record, path)| && cmd[o] == NUL
    ensures ok ==> cmd[..o] == old(cmd[..off]) + Tail(w, container, command, record, path)
  {
    ghost var before := cmd[..off];
    ok, o := AppendCapture(w, cmd, off, record, path);
    if !ok { return false, off; }
    ok, o := AppendJournal(w, cmd, o, container, command);
    Assoc(before, Capture(w, record, path), Journal(w, container, command));
  }

  /** Fixed text and a quoted string. */
  method AppendNamed(cmd: array<char>, off: nat, text: string, s: string) returns (ok: bool, o: nat)
    requires off <= cmd.Length
    modifies cmd
    ensures ok <==> off + |text + ShellQuoted(s)| + 1 <= cmd.Length
    ensures ok ==> o == off + |text + ShellQuoted(s)| && cmd[o] == NUL
    ensures ok ==> cmd[..o] == old(cmd[..off]) + (text + ShellQuoted(s))
  {
    ghost var before := cmd[..off];
    ok, o := AppendLiteral(cmd, off, text);
    if !ok { return false, off; }
    ok, o := AppendShellQuoted(cmd, o, s);
    Assoc(before, text, ShellQuoted(s));
  }

  method AppendTarget(w: Wrapper, cmd: array<char>, off: nat, container: string) returns (ok: bool, o: nat)
    requires off <= cmd.Length
    modifies cmd
    ensures ok <==> off + |Target(w, container)| + 1 <= cmd.Length
    ensures ok ==> o == off + |Target(w, container)| && cmd[o] == NUL
    ensures ok ==> cmd[..o] == old(cmd[..off]) + Target(w, container)
  {
    ghost var before := cmd[..off];
    if container != "" {
      ok, o := AppendNamed(cmd, off, w.podman, container);
      if !ok { return false, off; }
      ok, o := AppendLiteral(cmd, o, w.inContainer);
      Assoc(before, w.podman + ShellQuoted(container), w.inContainer);
    } else {
      ok, o := AppendLiteral(cmd, off, w.onHost);
    }
  }

  method AppendCapture(w: Wrapper, cmd: array<char>, off: nat, record: bool, path: string) returns (ok: bool, o: nat)
    requires off < cmd.Length && cmd[off] == NUL
    modifies cmd
    ensures ok <==> off + |Capture(w, record, path)| + 1 <= cmd.Length
    ensures ok ==> o == off + |Capture(w, record, path)| && cmd[o] == NUL
    ensures ok ==> cmd[..o] == old(cmd[..off]) + Capture(w, record, path)
  {
    if !record { return true, off; }
    ghost var before := cmd[..off];
    ok, o := AppendLiteral(cmd, off, w.tee);
    if !ok { return false, off; }
    ok, o := AppendLiteral(cmd, o, path);
    if !ok { return false, off; }
    ok, o := AppendLiteral(cmd, o, w.pipe);
    Assoc(before, w.tee, path);
    Assoc(before, w.tee + path, w.pipe);
  }

  method AppendJournal(w: Wrapper, cmd: array<char>, off: nat, container: string, command: string)
    returns (ok: bool, o: nat)
    requires off <= cmd.Length
    modifies cmd
    ensures ok <==> off + |Journal(w, container, command)| + 1 <= cmd.Length && |CommandName(command)| + 1 <= NAME_CAP
    ensures ok ==> o == off + |Journal(w, container, command)| && cmd[o] == NUL
    ensures ok ==> cmd[..o] == old(cmd[..off]) + Journal(w, container, command)
  {
    var name := new char[NAME_CAP];
    var len;
    ok, len := ExtractCommandName(command, name);
    if !ok { return false, off; }
    var full := name[..len] + " [" + Where(container) + "]";
    var tag := if |full| < TAG_CAP then full else full[..TAG_CAP - 1];
    ok, o := AppendNamed(cmd, off, w.journal, tag);
  }

  // What the shell makes of it

  /** Text that, met between tokens, adds exactly these tokens and ends between tokens. */
  ghost predicate Feeds(s: string, toks: seq<Token>) { forall t: seq<Token> :: Feed(At(t), s) == At(t + toks) }

  lemma FeedsThen(a: string, x: seq<Token>, b: string, y: seq<Token>)
    requires Feeds(a, x) && Feeds(b, y)
    ensures Feeds(a + b, x + y)
  {
    forall t: seq<Token> ensures Feed(At(t), a + b) == At(t + (x + y)) {
      FeedAppend(At(t), a, b);
      assert t + x + y == t + (x + y);
    }
  }

  lemma FeedsWord(w: string)
    requires AllPlain(w) && w != ""
    ensures Feeds(w + " ", [Word(w)])
  {
    forall t: seq<Token> ensures Feed(At(t), w + " ") == At(t + [Word(w)]) { FeedWord(t, w); }
  }

  lemma FeedsQuoted(s: string)
    ensures Feeds(ShellQuoted(s) + " ", [Word(s)])
  {
    forall t: seq<Token> ensures Feed(At(t), ShellQuoted(s) + " ") == At(t + [Word(s)]) { FeedQuotedWord(t, s); }
  }

  lemma FeedsTwo(a: string, b: string)
    requires AllPlain(a) && AllPlain(b) && a != "" && b != ""
    ensures Feeds((a + " ") + (b + " "), [Word(a), Word(b)])
  {
    FeedsWord(a);
    FeedsWord(b);
    FeedsThen(a + " ", [Word(a)], b + " ", [Word(b)]);
  }

  /** A quoted string followed by text that starts with a blank. */
  lemma FeedsQuotedThen(s: string, b: string, rest: string, y: seq<Token>)
    requires b == " " + rest && Feeds(rest, y)
    ensures Feeds(ShellQuoted(s) + b, [Word(s)] + y)
  {
    FeedsQuoted(s);
    FeedsThen(ShellQuoted(s) + " ", [Word(s)], rest, y);
    assert ShellQuoted(s) + b == (ShellQuoted(s) + " ") + rest;
  }

  lemma FeedsOp(c: char)
    requires IsOpChar(c)
    ensures Feeds([c] + " ", [Op([c])])
  {
    forall t: seq<Token> ensures Feed(At(t), [c] + " ") == At(t + [Op([c])]) { FeedOp(t, c); }
  }

  // The fixed pieces

  const SH: seq<Token> := [Word("/bin/sh"), Word("-c")]

  const TO_PIPE: seq<Token> := [IoNumber("2"), Op(">&"), Word("1"), Op("|")]

  const PREFIX: seq<Token> := [Word("set"), Word("-o"), Word("pipefail"), Op(";")]

  lemma PrefixSplits()
    ensures "set -o pipefail; " == (("set" + " ") + ("-o" + " ")) + ("pipefail" + ([';'] + " "))
  {}

  lemma FeedsWordOp(w: string, c: char)
    requires AllPlain(w) && w != "" && (c == ';' || c == '|')
    ensures Feeds(w + ([c] + " "), [Word(w), Op([c])])
  {
    forall t: seq<Token> ensures Feed(At(t), w + ([c] + " ")) == At(t + [Word(w), Op([c])]) { FeedWordOp(t, w, c); }
  }

  lemma FeedsThree(a: string, b: string, d: string, c: char)
    requires AllPlain(a) && AllPlain(b) && AllPlain(d) && a != "" && b != "" && d != "" && (c == ';' || c == '|')
    ensures Feeds(((a + " ") + (b + " ")) + (d + ([c] + " ")), [Word(a), Word(b), Word(d), Op([c])])
  {
    FeedsTwo(a, b);
    FeedsWordOp(d, c);
    FeedsThen((a + " ") + (b + " "), [Word(a), Word(b)], d + ([c] + " "), [Word(d), Op([c])]);
  }

  lemma FeedsPrefix()
    ensures Feeds("set -o pipefail; ", PREFIX)
  {
    PrefixSplits();
    FeedsThree("set", "-o", "pipefail", ';');
  }

  lemma FeedsSh()
    ensures Feeds("/bin/sh -c ", SH)
  {
    FeedsTwo("/bin/sh", "-c");
    assert "/bin/sh -c " == ("/bin/sh" + " ") + ("-c" + " ");
  }

  lemma FeedsPodman()
    ensures Feeds("podman exec ", [Word("podman"), Word("exec")])
  {
    FeedsTwo("podman", "exec");
    assert "podman exec " == ("podman" + " ") + ("exec" + " ");
  }

  lemma FeedsToPipe()
    ensures Feeds("2>&1 | ", TO_PIPE)
  {
    forall t: seq<Token> ensures Feed(At(t), "2>&1 ") == At(t + [IoNumber("2"), Op(">&"), Word("1")]) {
      FeedRedirect(t);
    }
    FeedsOp('|');
    FeedsThen("2>&1 ", [IoNumber("2"), Op(">&"), Word("1")], ['|'] + " ", [Op(['|'])]);
    assert "2>&1 | " == "2>&1 " + (['|'] + " ");
  }

  lemma FeedsTee(path: string)
    requires AllPlain(path) && path != ""
    ensures Feeds("tee " + path + " | ", [Word("tee"), Word(path), Op("|")])
  {
    FeedsTwo("tee", path);
    FeedsOp('|');
    FeedsThen(("tee" + " ") + (path + " "), [Word("tee"), Word(path)], ['|'] + " ", [Op(['|'])]);
    assert "tee " + path + " | " == (("tee" + " ") + (path + " ")) + (['|'] + " ");
  }

  lemma FeedsJournal()
    ensures Feeds("systemd-cat -t ", [Word("systemd-cat"), Word("-t")])
  {
    FeedsTwo("systemd-cat", "-t");
    assert "systemd-cat -t " == ("systemd-cat" + " ") + ("-t" + " ");
  }

  /** How the fixed text reads, piece by piece. */
  ghost predicate Reads(w: Wrapper, afterBlank: string) {
    && Feeds(w.prefix, PREFIX)
    && Feeds(w.onHost, SH)
    && Feeds(w.podman, [Word("podman"), Word("exec")])
    && w.inContainer == " " + w.onHost
    && w.redirect == " " + afterBlank && Feeds(afterBlank, TO_PIPE)
    && Feeds(w.journal, [Word("systemd-cat"), Word("-t")])
  }

  ghost predicate ReadsTee(w: Wrapper, path: string) {
    Feeds(w.tee + path + w.pipe, [Word("tee"), Word(path), Op("|")])
  }

  lemma BlankSplits()
    ensures " /bin/sh -c " == " " + "/bin/sh -c " && " 2>&1 | " == " " + "2>&1 | "
  {}

  lemma WrapperReads()
    ensures Reads(WRAPPER, "2>&1 | ")
  {
    FeedsPrefix();
    FeedsSh();
    FeedsPodman();
    FeedsToPipe();
    FeedsJournal();
    BlankSplits();
  }

  // The line

  function TargetTokens(container: string): seq<Token> {
    if container == "" then SH else [Word("podman"), Word("exec")] + ([Word(container)] + SH)
  }

  lemma FeedsTarget(w: Wrapper, container: string, rest: string)
    requires Reads(w, rest)
    ensures Feeds(Target(w, container), TargetTokens(container))
  {
    if container != "" {
      FeedsQuotedThen(container, w.inContainer, w.onHost, SH);
      FeedsThen(w.podman, [Word("podman"), Word("exec")], ShellQuoted(container) + w.inContainer,
        [Word(container)] + SH);
      assert Target(w, container) == w.podman + (ShellQuoted(container) + w.inContainer);
    }
  }

  function CaptureTokens(record: bool, path: string): seq<Token> {
    if record then [Word("tee"), Word(path), Op("|")] else []
  }

  lemma FeedsCapture(w: Wrapper, record: bool, path: string)
    requires ReadsTee(w, path)
    ensures Feeds(Capture(w, record, path), CaptureTokens(record, path))
  {
    if !record {
      forall t: seq<Token> ensures Feed(At(t), "") == At(t + []) { assert t + [] == t; }
    }
  }

  lemma FeedsBody(w: Wrapper, command: string, rest: string)
    requires Reads(w, rest)
    ensures Feeds(Body(w, command), [Word(command)] + TO_PIPE)
  {
    FeedsQuotedThen(command, w.redirect, rest, TO_PIPE);
  }

  /** The command the shell is given, token by token. */
  function LineTokens(container: string, command: string, record: bool, path: string): seq<Token> {
    (PREFIX + TargetTokens(container)) + ([Word(command)] + TO_PIPE) + CaptureTokens(record, path)
    + [Word("systemd-cat"), Word("-t")] + [Word(Tag(container, command))]
  }

  lemma FeedsHead(w: Wrapper, container: string, rest: string)
    requires Reads(w, rest)
    ensures Feeds(Head(w, container), PREFIX + TargetTokens(container))
  {
    FeedsTarget(w, container, rest);
    FeedsThen(w.prefix, PREFIX, Target(w, container), TargetTokens(container));
  }

  /** Everything up to the tag. */
  lemma FeedsUpToTag(w: Wrapper, container: string, command: string, record: bool, path: string, rest: string)
    requires Reads(w, rest) && ReadsTee(w, path)
    ensures Feeds(Head(w, container) + Body(w, command) + Capture(w, record, path) + w.journal,
                  (PREFIX + TargetTokens(container)) + ([Word(command)] + TO_PIPE) + CaptureTokens(record, path) +
                    [Word("systemd-cat"), Word("-t")])
  {
    var h, b, c := Head(w, container), Body(w, command), Capture(w, record, path);
    var th, tb, tc := PREFIX + TargetTokens(container), [Word(command)] + TO_PIPE, CaptureTokens(record, path);
    FeedsHead(w, container, rest);
    FeedsBody(w, command, rest);
    FeedsCapture(w, record, path);
    FeedsThen(h, th, b, tb);
    FeedsThen(h + b, th + tb, c, tc);
    FeedsThen(h + b + c, th + tb + tc, w.journal, [Word("systemd-cat"), Word("-t")]);
  }

  /** A last quoted word. */
  lemma FinishQuoted(head: string, toks: seq<Token>, s: string)
    requires Feeds(head, toks)
    ensures Lex(head + ShellQuoted(s)) == Some(toks + [Word(s)])
  {
    FeedAppend(At([]), head, ShellQuoted(s));
    assert [] + toks == toks;
    FeedShellQuoted(At(toks), s);
    assert "" + s == s;
  }

  lemma ReadableLine(w: Wrapper, container: string, command: string, record: bool, path: string, rest: string)
    requires Reads(w, rest) && ReadsTee(w, path)
    ensures Lex(Line(w, container, command, record, path)) == Some(LineTokens(container, command, record, path))
  {
    var h, c, q := Head(w, container) +
      Body(w, command), Capture(w, record, path), ShellQuoted(Tag(container, command));
    FeedsUpToTag(w, container, command, record, path, rest);
    FinishQuoted(h + c + w.journal,
                 (PREFIX + TargetTokens(container)) + ([Word(command)] + TO_PIPE) + CaptureTokens(record, path) +
                   [Word("systemd-cat"), Word("-t")],
                 Tag(container, command));
    Assoc(h + c, w.journal, q);
    Assoc(h, c, w.journal + q);
  }

  /** Whatever bytes the container name and the command consist of, a POSIX shell reads the line as the
      fixed words and operators with those exact strings as single words. */
  lemma ShellSeesExactStrings(container: string, command: string, record: bool, path: string)
    requires AllPlain(path) && path != ""
    ensures Lex(Line(WRAPPER, container, command, record, path)) == Some(LineTokens(container, command, record, path))
  {
    WrapperReads();
    FeedsTee(path);
    ReadableLine(WRAPPER, container, command, record, path, "2>&1 | ");
  }

  // The capture file of a worker

  function Decimal(n: nat): string { (if n < 10 then "" else Decimal(n / 10)) + [('0' as int + n % 10) as char] }

  function OutputPath(id: nat): string { "/tmp/bedrock-io-output-" + Decimal(id) }

  lemma {:induction false} DecimalIsPlain(n: nat)
    ensures Decimal(n) != "" && AllDigits(Decimal(n)) && AllPlain(Decimal(n))
    decreases n
  {
    if n >= 10 { DecimalIsPlain(n / 10); }
  }

  function LeadingDigits(n: nat): string { if n < 10 then "" else Decimal(n / 10) }

  lemma DecimalSplits(n: nat)
    ensures var d := Decimal(n); d != "" && d[..|d| - 1] == LeadingDigits(n) && d[|d| - 1] as int - '0' as int == n % 10
  {}

  lemma {:induction false} DecimalInjective(a: nat, b: nat)
    requires Decimal(a) == Decimal(b)
    ensures a == b
    decreases a
  {
    DecimalSplits(a);
    DecimalSplits(b);
    DecimalIsPlain(a / 10);
    DecimalIsPlain(b / 10);
    if a >= 10 && b >= 10 { DecimalInjective(a / 10, b / 10); }
  }

  /** Paths need no quoting, and different workers have different paths. */
  lemma OutputPathIsPlain(id: nat)
    ensures OutputPath(id) != "" && AllPlain(OutputPath(id))
  {
    DecimalIsPlain(id);
  }

  lemma OutputPathInjective(a: nat, b: nat)
    requires OutputPath(a) == OutputPath(b)
    ensures a == b
  {
    var prefix := "/tmp/bedrock-io-output-";
    assert OutputPath(a)[|prefix|..] == Decimal(a) && OutputPath(b)[|prefix|..] == Decimal(b);
    DecimalInjective(a, b);
  }
}
