/** The console path: `bedrock_emit` of guest/bedrock-console/bedrock-console.c, which batches guest writes
    into page-sized flushes, and the line reassembly of crates/bedrock-lab/src/event.rs. */
module Console {

  const PAGE_SIZE: nat := 4096

  // Guest side

  function Expand1(c: char): string { if c == '\n' then "\r\n" else [c] }

  /** The text with every newline preceded by a carriage return. */
  function Expanded(s: string): string { if s == "" then "" else Expand1(s[0]) + Expanded(s[1..]) }

  function Joined(parts: seq<string>): string {
    if parts == [] then "" else Joined(parts[..|parts| - 1]) + parts[|parts| - 1]
  }

  /** Every newline has its carriage return before it in the same piece. */
  ghost predicate Whole(piece: string) {
    forall i :: 0 <= i < |piece| && piece[i] == '\n' ==> i > 0 && piece[i - 1] == '\r'
  }

  ghost predicate FlushOk(piece: string) { 0 < |piece| <= PAGE_SIZE && Whole(piece) }

  ghost predicate AllFlushesOk(flushes: seq<string>) { forall i :: 0 <= i < |flushes| ==> FlushOk(flushes[i]) }

  lemma {:induction false} ExpandedAppend(a: string, b: string)
    ensures Expanded(a + b) == Expanded(a) + Expanded(b)
    decreases |a|
  {
    if a == "" {
      assert a + b == b;
    } else {
      assert (a + b)[1..] == a[1..] + b;
      ExpandedAppend(a[1..], b);
    }
  }

  lemma ExpandedNext(s: string, i: nat)
    requires i < |s|
    ensures Expanded(s[..i + 1]) == Expanded(s[..i]) + Expand1(s[i])
  {
    assert s[..i + 1] == s[..i] + [s[i]];
    ExpandedAppend(s[..i], [s[i]]);
    assert Expanded([s[i]]) == Expand1(s[i]) + Expanded("");
  }

  lemma JoinedAppend(parts: seq<string>, p: string)
    ensures Joined(parts + [p]) == Joined(parts) + p
  {
    assert (parts + [p])[..|parts|] == parts;
  }

  lemma WholeExtends(piece: string, c: char)
    requires Whole(piece)
    ensures Whole(piece + Expand1(c))
  {
    var q := piece + Expand1(c);
    forall i | 0 <= i < |q| && q[i] == '\n' ensures i > 0 && q[i - 1] == '\r' {
      if i < |piece| { assert piece[i] == '\n'; } else { assert c == '\n' && i == |piece| + 1; }
    }
  }

  /** The shared page and what the hypervisor has been handed. */
  class SharedConsole {
    const page: array<char>
    var flushes: seq<string>

    constructor ()
      ensures page.Length == PAGE_SIZE && flushes == [] && fresh(page)
    {
      page := new char[PAGE_SIZE];
      flushes := [];
    }

    method Flush(fill: nat)
      requires fill <= page.Length
      modifies this`flushes
      ensures flushes == if fill > 0 then old(flushes) + [page[..fill]] else old(flushes)
    {
      if fill > 0 { flushes := flushes + [page[..fill]]; }
    }

    method Store(fill: nat, piece: string)
      requires fill + |piece| <= page.Length
      modifies page
      ensures page[..fill + |piece|] == old(page[..fill]) + piece
    {
      forall j | fill <= j < fill + |piece| { page[j] := piece[j - fill]; }
    }

    /** Make room if needed, then stage one character, a newline as two. */
    method Stage(c: char, fill: nat) returns (fill': nat)
      requires page.Length == PAGE_SIZE && fill <= PAGE_SIZE && Whole(page[..fill]) && AllFlushesOk(flushes)
      modifies this`flushes, page
      ensures fill' <= PAGE_SIZE && Whole(page[..fill']) && AllFlushesOk(flushes)
      ensures Joined(flushes) + page[..fill'] == old(Joined(flushes) + page[..fill]) + Expand1(c)
    {
      var piece := Expand1(c);
      fill' := fill;
      if fill + |piece| > PAGE_SIZE {
        JoinedAppend(flushes, page[..fill]);
        Flush(fill);
        fill' := 0;
      }
      ghost var staged := page[..fill'];
      WholeExtends(staged, c);
      Store(fill', piece);
      assert Joined(flushes) + (staged + piece) == Joined(flushes) + staged + piece;
      fill' := fill' + |piece|;
    }

    /** Emit a write: the flushes are the expanded text, in pieces of 1 to 4096 bytes that never separate a
        newline from its carriage return. */
    method Emit(text: string)
      requires page.Length == PAGE_SIZE && AllFlushesOk(flushes)
      modifies this`flushes, page
      ensures AllFlushesOk(flushes)
      ensures Joined(flushes) == old(Joined(flushes)) + Expanded(text)
    {
      ghost var before := Joined(flushes);
      var fill: nat, i: nat := 0, 0;
      assert page[..0] == "" && text[..0] == "";
      while i < |text|
        invariant 0 <= i <= |text| && fill <= PAGE_SIZE && Whole(page[..fill]) && AllFlushesOk(flushes)
        invariant Joined(flushes) + page[..fill] == before + Expanded(text[..i])
      {
        ExpandedNext(text, i);
        fill := Stage(text[i], fill);
        assert before + Expanded(text[..i]) + Expand1(text[i]) == before + Expanded(text[..i + 1]);
        i := i + 1;
      }
      assert text[..i] == text;
      if fill > 0 { JoinedAppend(flushes, page[..fill]); }
      Flush(fill);
    }
  }

  // Host side

  /** A byte of console output and the time of the record that carries it. */
  datatype Stamped = Stamped(c: char, tsc: nat)

  datatype PartialLine = PartialLine(bytes: string, startTsc: nat)

  datatype Line = Line(text: string, at: nat)

  function Text(cs: seq<Stamped>): string { seq(|cs|, i requires 0 <= i < |cs| => cs[i].c) }

  /** One byte: a line that has nothing yet starts with the time of this byte's record. */
  function FeedOne(p: PartialLine, x: Stamped): (PartialLine, seq<Line>) {
    var start := if p.bytes == "" then x.tsc else p.startTsc;
    if x.c == '\n' then (PartialLine("", start), [Line(p.bytes, start)])
    else (PartialLine(p.bytes + [x.c], start), [])
  }

  function Feed(p: PartialLine, cs: seq<Stamped>): (PartialLine, seq<Line>)
    decreases |cs|
  {
    if cs == [] then (p, [])
    else
      var (p1, l1) := FeedOne(p, cs[0]);
      var (p2, l2) := Feed(p1, cs[1..]);
      (p2, l1 + l2)
  }

  /** A record's bytes all carry the record's time. */
  function Record(bytes: string, tsc: nat): seq<Stamped> {
    seq(|bytes|, i requires 0 <= i < |bytes| => Stamped(bytes[i], tsc))
  }

  /** The per-branch reassembler and the sink. */
  class LineAssembler {
    var partial: PartialLine
    var lines: seq<Line>

    constructor (p: PartialLine)
      ensures partial == p && lines == []
    {
      partial, lines := p, [];
    }

    method SerialRecord(bytes: string, tsc: nat)
      modifies this
      ensures partial == Feed(old(partial), Record(bytes, tsc)).0
      ensures lines == old(lines) + Feed(old(partial), Record(bytes, tsc)).1
    {
      ghost var all := Feed(partial, Record(bytes, tsc));
      var i := 0;
      assert Record(bytes, tsc)[0..] == Record(bytes, tsc);
      while i < |bytes|
        invariant 0 <= i <= |bytes|
        invariant var (p, l) := Feed(partial, Record(bytes, tsc)[i..]); p == all.0 && lines + l == old(lines) + all.1
      {
        var byte := bytes[i];
        assert Record(bytes, tsc)[i..][0] == Stamped(byte, tsc) &&
          Record(bytes, tsc)[i..][1..] == Record(bytes, tsc)[i + 1..];
        if partial.bytes == "" { partial := partial.(startTsc := tsc); }
        if byte == '\n' {
          lines := lines + [Line(partial.bytes, partial.startTsc)];
          partial := partial.(bytes := "");
        } else {
          partial := partial.(bytes := partial.bytes + [byte]);
        }
        i := i + 1;
      }
    }
  }

  // What the lines are

  /** The first newline, or the end. */
  function NewlineAt(cs: seq<Stamped>): (n: nat)
    ensures n <= |cs| && (n < |cs| ==> cs[n].c == '\n')
  {
    if cs == [] || cs[0].c == '\n' then 0 else 1 + NewlineAt(cs[1..])
  }

  /** The lines of the whole output at once: each ends at a newline and is stamped with the record that
      holds its first byte, which is the newline itself for an empty line. */
  function Lines(cs: seq<Stamped>): seq<Line>
    decreases |cs|
  {
    var n := NewlineAt(cs);
    if n == |cs| then [] else [Line(Text(cs[..n]), cs[0].tsc)] + Lines(cs[n + 1..])
  }

  /** What follows the last newline. */
  function Tail(cs: seq<Stamped>): seq<Stamped>
    decreases |cs|
  {
    var n := NewlineAt(cs);
    if n == |cs| then cs else Tail(cs[n + 1..])
  }

  /** A partial line that stands for the bytes `cs`; with no bytes its time means nothing. */
  ghost predicate StandsFor(p: PartialLine, cs: seq<Stamped>) {
    NewlineAt(cs) == |cs| && p.bytes == Text(cs) && (cs != [] ==> p.startTsc == cs[0].tsc)
  }

  lemma {:induction false} NewlineAfter(x: seq<Stamped>, cs: seq<Stamped>)
    requires NewlineAt(x) == |x|
    ensures NewlineAt(x + cs) == |x| + NewlineAt(cs)
    decreases |x|
  {
    if x == [] {
      assert x + cs == cs;
    } else {
      assert (x + cs)[1..] == x[1..] + cs;
      NewlineAfter(x[1..], cs);
    }
  }

  lemma LinesCons(all: seq<Stamped>, x: seq<Stamped>, rest: seq<Stamped>)
    requires NewlineAt(all) == |x| < |all| && all[..|x|] == x && all[|x| + 1..] == rest
    ensures Lines(all) == [Line(Text(x), all[0].tsc)] + Lines(rest) && Tail(all) == Tail(rest)
  {}

  lemma AfterNewline(x: seq<Stamped>, c: Stamped, rest: seq<Stamped>, all: seq<Stamped>)
    requires NewlineAt(x) == |x| && c.c == '\n' && all == x + ([c] + rest)
    ensures Lines(all) == [Line(Text(x), if x == [] then c.tsc else x[0].tsc)] + Lines(rest) && Tail(all) == Tail(rest)
  {
    NewlineAfter(x, [c] + rest);
    assert all[..|x|] == x && all[|x| + 1..] == rest;
    LinesCons(all, x, rest);
  }

  lemma FeedCons(p: PartialLine, c: Stamped, rest: seq<Stamped>)
    ensures var (p1, l1) := FeedOne(p, c); Feed(p, [c] + rest) == (Feed(p1, rest).0, l1 + Feed(p1, rest).1)
  {
    assert ([c] + rest)[1..] == rest;
  }

  /** Feeding `cs` where `x` is carried over gives these lines and this rest. */
  ghost predicate Gives(p: PartialLine, cs: seq<Stamped>, all: seq<Stamped>) {
    Feed(p, cs).1 == Lines(all) && StandsFor(Feed(p, cs).0, Tail(all))
  }

  lemma GivesNothing(p: PartialLine, x: seq<Stamped>)
    requires StandsFor(p, x)
    ensures Gives(p, [], x)
  {}

  lemma GivesNewline(p: PartialLine, x: seq<Stamped>, c: Stamped, rest: seq<Stamped>, cs: seq<Stamped>,
        all: seq<Stamped>)
    requires StandsFor(p, x) && c.c == '\n' && Gives(FeedOne(p, c).0, rest, rest) && cs == [c] + rest && all == x + cs
    ensures Gives(p, cs, all)
  {
    FeedCons(p, c, rest);
    AfterNewline(x, c, rest, all);
  }

  lemma GivesOther(p: PartialLine, c: Stamped, rest: seq<Stamped>, cs: seq<Stamped>, all: seq<Stamped>)
    requires c.c != '\n' && Gives(FeedOne(p, c).0, rest, all) && cs == [c] + rest
    ensures Gives(p, cs, all)
  {
    FeedCons(p, c, rest);
  }

  /** Feeding byte by byte from any carried-over partial line gives the lines of the whole text, stamps
      included, and carries over exactly what follows the last newline. */
  lemma {:induction false} FeedGivesLines(p: PartialLine, x: seq<Stamped>, cs: seq<Stamped>, all: seq<Stamped>)
    requires StandsFor(p, x) && all == x + cs
    ensures Gives(p, cs, all)
    decreases |cs|
  {
    if cs == [] {
      assert all == x;
      GivesNothing(p, x);
    } else {
      var c, rest := cs[0], cs[1..];
      assert cs == [c] + rest;
      if c.c == '\n' {
        assert [] + rest == rest;
        FeedGivesLines(FeedOne(p, c).0, [], rest, rest);
        GivesNewline(p, x, c, rest, cs, all);
      } else {
        StandsForMore(p, x, c);
        assert x + [c] + rest == all;
        FeedGivesLines(FeedOne(p, c).0, x + [c], rest, all);
        GivesOther(p, c, rest, cs, all);
      }
    }
  }

  lemma StandsForMore(p: PartialLine, x: seq<Stamped>, c: Stamped)
    requires StandsFor(p, x) && c.c != '\n'
    ensures StandsFor(FeedOne(p, c).0, x + [c])
  {
    NewlineAfter(x, [c]);
  }

  // Cuts, checkpoints and forks

  datatype Rec = Rec(bytes: string, tsc: nat)

  function Flatten(recs: seq<Rec>): seq<Stamped> {
    if recs == [] then [] else Record(recs[0].bytes, recs[0].tsc) + Flatten(recs[1..])
  }

  function FeedRecords(p: PartialLine, recs: seq<Rec>): (PartialLine, seq<Line>)
    decreases |recs|
  {
    if recs == [] then (p, [])
    else
      var (p1, l1) := Feed(p, Record(recs[0].bytes, recs[0].tsc));
      var (p2, l2) := FeedRecords(p1, recs[1..]);
      (p2, l1 + l2)
  }

  lemma {:induction false} FeedAppend(p: PartialLine, a: seq<Stamped>, b: seq<Stamped>)
    ensures var (p1, l1) := Feed(p, a); var (p2, l2) := Feed(p1, b); Feed(p, a + b) == (p2, l1 + l2)
    decreases |a|
  {
    if a == [] {
      assert a + b == b;
      assert [] + Feed(p, b).1 == Feed(p, b).1;
    } else {
      assert (a + b)[1..] == a[1..] + b;
      var (q, k) := FeedOne(p, a[0]);
      FeedAppend(q, a[1..], b);
      var (p1, l1) := Feed(q, a[1..]);
      var (p2, l2) := Feed(p1, b);
      assert k + (l1 + l2) == (k + l1) + l2;
    }
  }

  lemma {:induction false} RecordsAreFlat(p: PartialLine, recs: seq<Rec>)
    ensures FeedRecords(p, recs) == Feed(p, Flatten(recs))
    decreases |recs|
  {
    if recs != [] {
      var cs := Record(recs[0].bytes, recs[0].tsc);
      RecordsAreFlat(Feed(p, cs).0, recs[1..]);
      FeedAppend(p, cs, Flatten(recs[1..]));
    }
  }

  lemma {:induction false} FlattenAppend(a: seq<Rec>, b: seq<Rec>)
    ensures Flatten(a + b) == Flatten(a) + Flatten(b)
    decreases |a|
  {
    if a == [] {
      assert a + b == b;
    } else {
      assert (a + b)[1..] == a[1..] + b;
      FlattenAppend(a[1..], b);
    }
  }

  const Fresh := PartialLine("", 0)

  /** A checkpoint carries the partial line over, and every branch starts from it: wherever checkpoints and
      forks fall along a path, the lines are those of all records of the path. */
  lemma CarriedOverLines(before: seq<Rec>, after: seq<Rec>)
    ensures var (p, l) := FeedRecords(Fresh, before);
      l + FeedRecords(p, after).1 == Lines(Flatten(before + after))
  {
    var (p, l) := FeedRecords(Fresh, before);
    RecordsAreFlat(Fresh, before);
    RecordsAreFlat(p, after);
    FeedAppend(Fresh, Flatten(before), Flatten(after));
    FlattenAppend(before, after);
    assert [] + Flatten(before + after) == Flatten(before + after);
    FeedGivesLines(Fresh, [], Flatten(before + after), Flatten(before + after));
  }

  // Texts do not depend on the cuts

  function FirstNewline(s: string): (n: nat)
    ensures n <= |s| && (n < |s| ==> s[n] == '\n')
  {
    if s == "" || s[0] == '\n' then 0 else 1 + FirstNewline(s[1..])
  }

  function PlainLines(s: string): seq<string>
    decreases |s|
  {
    var n := FirstNewline(s);
    if n == |s| then [] else [s[..n]] + PlainLines(s[n + 1..])
  }

  function PlainTail(s: string): string
    decreases |s|
  {
    var n := FirstNewline(s);
    if n == |s| then s else PlainTail(s[n + 1..])
  }

  function Texts(ls: seq<Line>): seq<string> { seq(|ls|, i requires 0 <= i < |ls| => ls[i].text) }

  lemma {:induction false} NewlinesAgree(cs: seq<Stamped>)
    ensures NewlineAt(cs) == FirstNewline(Text(cs))
    decreases |cs|
  {
    if cs != [] {
      assert Text(cs)[1..] == Text(cs[1..]);
      NewlinesAgree(cs[1..]);
    }
  }

  lemma {:induction false} TextsOfLines(cs: seq<Stamped>)
    ensures Texts(Lines(cs)) == PlainLines(Text(cs)) && Text(Tail(cs)) == PlainTail(Text(cs))
    decreases |cs|
  {
    var n := NewlineAt(cs);
    NewlinesAgree(cs);
    if n < |cs| {
      TextsOfLines(cs[n + 1..]);
      assert Text(cs)[n + 1..] == Text(cs[n + 1..]) && Text(cs)[..n] == Text(cs[..n]);
      assert Texts(Lines(cs)) == [Text(cs[..n])] + Texts(Lines(cs[n + 1..]));
    }
  }

  /** However the output is cut into records, the same bytes give the same lines and the same rest. */
  lemma LinesIgnoreCuts(a: seq<Rec>, b: seq<Rec>)
    requires Text(Flatten(a)) == Text(Flatten(b))
    ensures Texts(FeedRecords(Fresh, a).1) == Texts(FeedRecords(Fresh, b).1)
    ensures FeedRecords(Fresh, a).0.bytes == FeedRecords(Fresh, b).0.bytes
  {
    LinesOfRecords(a);
    LinesOfRecords(b);
  }

  lemma LinesOfRecords(a: seq<Rec>)
    ensures Texts(FeedRecords(Fresh, a).1) == PlainLines(Text(Flatten(a)))
    ensures FeedRecords(Fresh, a).0.bytes == PlainTail(Text(Flatten(a)))
  {
    RecordsAreFlat(Fresh, a);
    assert [] + Flatten(a) == Flatten(a);
    FeedGivesLines(Fresh, [], Flatten(a), Flatten(a));
    TextsOfLines(Flatten(a));
  }

  // End to end

  lemma {:induction false} ExpandedNone(s: string)
    requires FirstNewline(s) == |s|
    ensures Expanded(s) == s
    decreases |s|
  {
    if s != "" { ExpandedNone(s[1..]); }
  }

  lemma {:induction false} FirstNewlineAfter(a: string, b: string)
    requires FirstNewline(a) == |a|
    ensures FirstNewline(a + b) == |a| + FirstNewline(b)
    decreases |a|
  {
    if a == "" {
      assert a + b == b;
    } else {
      assert (a + b)[1..] == a[1..] + b;
      FirstNewlineAfter(a[1..], b);
    }
  }

  lemma {:induction false} BeforeNewline(s: string)
    ensures FirstNewline(s[..FirstNewline(s)]) == FirstNewline(s)
    decreases |s|
  {
    var n := FirstNewline(s);
    if n > 0 {
      BeforeNewline(s[1..]);
      assert s[..n][1..] == s[1..][..n - 1];
    }
  }

  /** A text whose first newline follows `head`. */
  function Then(head: string, rest: string): string { head + ("\n" + rest) }

  lemma Assoc(a: string, b: string, c: string)
    ensures a + (b + c) == (a + b) + c
  {}

  lemma ExpandedStart(rest: string)
    ensures Expanded("\n" + rest) == "\r" + ("\n" + Expanded(rest))
  {
    var s := "\n" + rest;
    assert s[1..] == rest && s[0] == '\n';
    Assoc("\r", "\n", Expanded(rest));
    assert "\r" + "\n" == "\r\n";
  }

  lemma ExpandedThen(head: string, rest: string)
    requires FirstNewline(head) == |head|
    ensures Expanded(Then(head, rest)) == Then(head + "\r", Expanded(rest))
  {
    ExpandedNone(head);
    ExpandedAppend(head, "\n" + rest);
    ExpandedStart(rest);
    Assoc(head, "\r", "\n" + Expanded(rest));
  }

  lemma FirstNewlineThen(head: string, rest: string)
    requires FirstNewline(head) == |head|
    ensures FirstNewline(Then(head, rest)) == |head|
  {
    FirstNewlineAfter(head, "\n" + rest);
  }

  lemma PlainCons(s: string, head: string, rest: string)
    requires FirstNewline(s) == |head| < |s| && s[..|head|] == head && s[|head| + 1..] == rest
    ensures PlainLines(s) == [head] + PlainLines(rest) && PlainTail(s) == PlainTail(rest)
  {}

  lemma PlainThen(head: string, rest: string, s: string)
    requires FirstNewline(head) == |head| && s == Then(head, rest)
    ensures PlainLines(s) == [head] + PlainLines(rest) && PlainTail(s) == PlainTail(rest)
  {
    FirstNewlineThen(head, rest);
    PlainCons(s, head, rest);
  }

  function WithReturns(ls: seq<string>): seq<string> { seq(|ls|, i requires 0 <= i < |ls| => ls[i] + "\r") }

  lemma WithReturnsCons(head: string, ls: seq<string>)
    ensures WithReturns([head] + ls) == [head + "\r"] + WithReturns(ls)
  {}

  lemma LinesThen(head: string, rest: string, s: string)
    requires FirstNewline(head) == |head| && s == Then(head, rest)
    requires PlainLines(Expanded(rest)) == WithReturns(PlainLines(rest)) && PlainTail(Expanded(rest)) == PlainTail(rest)
    ensures PlainLines(Expanded(s)) == WithReturns(PlainLines(s)) && PlainTail(Expanded(s)) == PlainTail(s)
  {
    ExpandedThen(head, rest);
    FirstNewlineAfter(head, "\r");
    PlainThen(head, rest, s);
    PlainThen(head + "\r", Expanded(rest), Expanded(s));
    WithReturnsCons(head, PlainLines(rest));
  }

  /** The host's lines are the guest's lines, each with the carriage return the console adds. */
  lemma {:induction false} ExpandedLines(s: string)
    ensures PlainLines(Expanded(s)) == WithReturns(PlainLines(s)) && PlainTail(Expanded(s)) == PlainTail(s)
    decreases |s|
  {
    if FirstNewline(s) < |s| {
      var head, rest := SplitAtNewline(s);
      ExpandedLines(rest);
      LinesThen(head, rest, s);
    } else {
      NoLines(s);
    }
  }

  lemma SplitAtNewline(s: string) returns (head: string, rest: string)
    requires FirstNewline(s) < |s|
    ensures s == Then(head, rest) && FirstNewline(head) == |head| && |rest| < |s|
  {
    var n := FirstNewline(s);
    head, rest := s[..n], s[n + 1..];
    BeforeNewline(s);
  }

  lemma NoLines(s: string)
    requires FirstNewline(s) == |s|
    ensures PlainLines(Expanded(s)) == WithReturns(PlainLines(s)) && PlainTail(Expanded(s)) == PlainTail(s)
  {
    ExpandedNone(s);
  }

  /** Whatever the guest writes and however it is flushed, cut into records and stamped, the host ends up
      with the guest's lines. */
  lemma GuestLinesArrive(written: string, recs: seq<Rec>)
    requires Text(Flatten(recs)) == Expanded(written)
    ensures Texts(FeedRecords(Fresh, recs).1) == WithReturns(PlainLines(written))
    ensures FeedRecords(Fresh, recs).0.bytes == PlainTail(written)
  {
    LinesOfRecords(recs);
    ExpandedLines(written);
  }
}
