/** From the host's request to the words the shell sees, through any interleaving of workers. */
module BashEndToEnd {
  import opened Options
  import BashWire
  import IoWorkers
  import opened ShellLexer
  import opened BashCommand

  const COMMAND_SIZE: nat := 4096

  // Which requests a worker can run

  /** The line for a request, with its NUL, fits the command buffer, and the command's name fits its own. */
  predicate Runnable(r: BashWire.Request, id: nat) {
    |Line(WRAPPER, r.container, r.command, r.recordOutput, OutputPath(id))| + 1 <= COMMAND_SIZE &&
      |CommandName(r.command)| + 1 <= NAME_CAP
  }

  function Quotes(s: string): nat { if s == "" then 0 else (if s[0] == '\'' then 1 else 0) + Quotes(s[1..]) }

  lemma {:induction false} EscapedLength(s: string)
    ensures |Escaped(s)| == |s| + 3 * Quotes(s)
    decreases |s|
  {
    if s != "" { EscapedLength(s[1..]); }
  }

  /** The length of a quoted string. */
  function Quoted(s: string): nat { |s| + 3 * Quotes(s) + 2 }

  lemma LineParts(w: Wrapper, r: BashWire.Request, path: string)
    ensures |Line(w, r.container, r.command, r.recordOutput, path)| ==
      |w.prefix| + |Target(w, r.container)| + |ShellQuoted(r.command)| + |w.redirect|
      + |Capture(w, r.recordOutput, path)| + |w.journal| + |ShellQuoted(Tag(r.container, r.command))|
  {}

  /** The line's length, from the request alone. */
  lemma LineLength(r: BashWire.Request, path: string)
    ensures |Line(WRAPPER, r.container, r.command, r.recordOutput, path)| ==
      40 + Quoted(r.command) + Quoted(Tag(r.container, r.command))
      + (if r.container == "" then 11 else 24 + Quoted(r.container)) + (if r.recordOutput then 7 + |path| else 0)
  {
    EscapedLength(r.container);
    EscapedLength(r.command);
    EscapedLength(Tag(r.container, r.command));
    LineParts(WRAPPER, r, path);
  }

  /** A request can fit the page and still be refused: every one whose command needs more room once its
      quotes are escaped, 1024 quotes for instance, whatever else it holds. */
  lemma QuotesAreRefused(r: BashWire.Request, id: nat)
    requires |r.command| + 3 * Quotes(r.command) >= COMMAND_SIZE - 55
    ensures !Runnable(r, id)
  {
    LineLength(r, OutputPath(id));
  }

  lemma {:induction false} QuotesOf(n: nat)
    ensures Quotes(seq(n, _ => '\'')) == n
    decreases n
  {
    if n > 0 {
      assert seq(n, _ => '\'')[1..] == seq(n - 1, _ => '\'');
      QuotesOf(n - 1);
    }
  }

  lemma FitsPageNotBuffer(id: nat)
    ensures var r := BashWire.Request("", seq(1024, _ => '\''), false);
      |BashWire.EncodeRequest(r)| <= BashWire.PAGE_SIZE && BashWire.NulFree(r.command) && !Runnable(r, id)
  {
    var r := BashWire.Request("", seq(1024, _ => '\''), false);
    QuotesOf(1024);
    QuotesAreRefused(r, id);
  }

  // What a worker runs

  /** In every interleaving, a worker that has a request the host encoded builds, in its 4096-byte buffer, a
      line in which a POSIX shell sees that request's exact container and command as single words, with the
      worker's own capture path if the output is recorded; it does so exactly for the requests that can be
      run, and refuses the others. */
  method WorkerRunsExactStrings(w: IoWorkers.Worker, cmd: array<char>, ghost s0: IoWorkers.World,
        ghost steps: seq<IoWorkers.Step>, ghost t: IoWorkers.Tid,
                                ghost r: BashWire.Request)
    returns (ok: bool, len: nat)
    requires IoWorkers.Initial(s0) && IoWorkers.Runs(s0, steps)
    requires IoWorkers.Is(IoWorkers.After(s0, steps), t, IoWorkers.Executing)
    requires BashWire.NulFree(r.container) && BashWire.NulFree(r.command)
    requires |BashWire.EncodeRequest(r)| <= BashWire.PAGE_SIZE
    requires w == IoWorkers.After(s0, steps).workers[t] && w.request == BashWire.EncodeRequest(r)
    requires cmd.Length == COMMAND_SIZE
    modifies cmd
    ensures ok <==> Runnable(r, w.id)
    ensures ok ==> len < cmd.Length && cmd[len] == NUL
    ensures ok ==> Lex(cmd[..len]) == Some(LineTokens(r.container, r.command, r.recordOutput, OutputPath(w.id)))
  {
    WorkerLine(s0, steps, t, r);
    var parsed := w.parsed.request;
    ok, len := BuildCommand(WRAPPER, parsed.container, parsed.command, parsed.recordOutput, OutputPath(w.id), cmd);
  }

  lemma WorkerLine(s0: IoWorkers.World, steps: seq<IoWorkers.Step>, t: IoWorkers.Tid, r: BashWire.Request)
    requires IoWorkers.Initial(s0) && IoWorkers.Runs(s0, steps)
    requires IoWorkers.Is(IoWorkers.After(s0, steps), t, IoWorkers.Executing)
    requires BashWire.NulFree(r.container) && BashWire.NulFree(r.command)
    requires |BashWire.EncodeRequest(r)| <= BashWire.PAGE_SIZE
    requires IoWorkers.After(s0, steps).workers[t].request == BashWire.EncodeRequest(r)
    ensures var w := IoWorkers.After(s0, steps).workers[t];
      && w.parsed == BashWire.Parsed(r)
      && Lex(Line(WRAPPER, r.container, r.command, r.recordOutput, OutputPath(w.id)))
         == Some(LineTokens(r.container, r.command, r.recordOutput, OutputPath(w.id)))
  {
    IoWorkers.WorkerHasItsRequest(s0, steps, t, r);
    var id := IoWorkers.After(s0, steps).workers[t].id;
    OutputPathIsPlain(id);
    ShellSeesExactStrings(r.container, r.command, r.recordOutput, OutputPath(id));
  }
}
