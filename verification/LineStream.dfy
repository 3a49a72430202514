/**
 The line splitter of a streamed remote command: two streams cut into lines and sent down
 one channel, however their bytes arrive.

 The receiver lets `accepts` sends through and is then gone; `stop` messages are handled
 before a cancellation is noticed. Chunks end at character boundaries.
 */
module LineStream {
  import opened Basics
  import opened Lines

  datatype Message = Data(text: string) | ExtendedData(text: string) | End | Other

  /** A line sent, and the stream it came from. */
  datatype Sent = FromStdout(line: string) | FromStderr(line: string)

  /** How it looks on the channel. */
  function Wire(s: Sent): string {
    match s
    case FromStdout(line) => line
    case FromStderr(line) => "!" + line
  }

  function Wires(ss: seq<Sent>): (r: seq<string>)
    ensures |r| == |ss|
  {
    seq(|ss|, i requires 0 <= i < |ss| => Wire(ss[i]))
  }

  /** `trim_end_matches(['\r', '\n'])`. */
  function TrimEol(s: string): string {
    if s != "" && (s[|s| - 1] == '\r' || s[|s| - 1] == '\n') then TrimEol(s[..|s| - 1]) else s
  }

  // ----- The lines of a text -----

  /** The text cut after every line feed; the last piece may have none. */
  function Pieces(s: string): seq<string>
    decreases |s|
  {
    var n := FirstNewline(s);
    if s == "" then []
    else if n == |s| then [s]
    else [s[..n + 1]] + Pieces(s[n + 1..])
  }

  function Join(pieces: seq<string>): string {
    if pieces == [] then "" else pieces[0] + Join(pieces[1..])
  }

  function TrimAll(pieces: seq<string>): seq<string> {
    seq(|pieces|, i requires 0 <= i < |pieces| => TrimEol(pieces[i]))
  }

  /** The lines a whole text should come out as. */
  function LinesOf(s: string): seq<string> {
    TrimAll(Pieces(s))
  }

  /** The pieces are the text: nothing but line ends is lost. */
  lemma {:induction false} PiecesJoin(s: string)
    ensures Join(Pieces(s)) == s
    decreases |s|
  {
    var n := FirstNewline(s);
    if s != "" && n < |s| {
      PiecesJoin(s[n + 1..]);
      assert s == s[..n + 1] + s[n + 1..];
    } else if s != "" {
      assert Join([s]) == s + Join([]);
    }
  }

  /** Every piece but the last is closed by a line feed, its only one; the last one may be open, and none is empty. */
  predicate CutAtNewlines(pieces: seq<string>) {
    forall k :: 0 <= k < |pieces| ==>
      && pieces[k] != "" && '\n' !in pieces[k][..|pieces[k]| - 1]
      && (k < |pieces| - 1 ==> pieces[k][|pieces[k]| - 1] == '\n')
  }

  lemma {:induction false} PiecesAreCutAtNewlines(s: string)
    ensures CutAtNewlines(Pieces(s))
    decreases |s|
  {
    var n := FirstNewline(s);
    if s != "" && n < |s| {
      PiecesAreCutAtNewlines(s[n + 1..]);
      assert s[..n + 1][..n] == s[..n];
    } else if s != "" {
      assert s[..|s|] == s;
      assert forall c :: c in s[..|s| - 1] ==> c in s;
    }
  }

  /** The piece without the line ends behind it, all of them and nothing else. */
  predicate IsLineOf(line: string, piece: string) {
    && line <= piece
    && (forall j :: |line| <= j < |piece| ==> piece[j] == '\r' || piece[j] == '\n')
    && (line != "" ==> line[|line| - 1] != '\r' && line[|line| - 1] != '\n')
  }

  lemma {:induction false} TrimmedIsLine(s: string)
    ensures IsLineOf(TrimEol(s), s)
  {
    if s != "" && (s[|s| - 1] == '\r' || s[|s| - 1] == '\n') {
      TrimmedIsLine(s[..|s| - 1]);
    }
  }

  predicate AreLinesOf(lines: seq<string>, pieces: seq<string>) {
    |lines| == |pieces| && forall k :: 0 <= k < |lines| ==> IsLineOf(lines[k], pieces[k])
  }

  lemma LinesAreOfPieces(s: string)
    ensures AreLinesOf(LinesOf(s), Pieces(s))
  {
    forall k | 0 <= k < |Pieces(s)| ensures IsLineOf(LinesOf(s)[k], Pieces(s)[k]) {
      TrimmedIsLine(Pieces(s)[k]);
    }
  }

  // ----- What the loop keeps -----

  /** The complete lines at the front of a buffer. */
  function Complete(s: string): seq<string>
    decreases |s|
  {
    var n := FirstNewline(s);
    if n == |s| then [] else [TrimEol(s[..n + 1])] + Complete(s[n + 1..])
  }

  /** What is left in the buffer. */
  function Remainder(s: string): string
    decreases |s|
  {
    var n := FirstNewline(s);
    if n == |s| then s else Remainder(s[n + 1..])
  }

  /** What the end of the stream sends of a buffer. */
  function Flush(s: string): seq<string> {
    if s == "" then [] else [TrimEol(s)]
  }

  /** The first line of a buffer is the same however much follows it. */
  lemma {:induction false} FirstLineOfSum(a: string, b: string)
    requires FirstNewline(a) < |a|
    ensures FirstNewline(a + b) == FirstNewline(a)
  {
    if a[0] != '\n' {
      FirstLineOfSum(a[1..], b);
      assert (a + b)[1..] == a[1..] + b;
    }
  }

  lemma CutOfSum(a: string, b: string, n: nat)
    requires n <= |a|
    ensures (a + b)[..n] == a[..n] && (a + b)[n..] == a[n..] + b
  {
  }

  lemma {:induction false} UnfoldDrain(s: string, n: nat)
    requires n == FirstNewline(s) < |s|
    ensures Complete(s) == [TrimEol(s[..n + 1])] + Complete(s[n + 1..])
    ensures Remainder(s) == Remainder(s[n + 1..])
  {
  }

  /** The first line of a longer buffer is taken off in the same way. */
  lemma UnfoldSum(a: string, b: string, n: nat)
    requires n == FirstNewline(a) < |a|
    ensures Complete(a + b) == [TrimEol(a[..n + 1])] + Complete(a[n + 1..] + b)
    ensures Remainder(a + b) == Remainder(a[n + 1..] + b)
  {
    FirstLineOfSum(a, b);
    CutOfSum(a, b, n + 1);
    UnfoldDrain(a + b, n);
  }

  lemma NothingToDrain(a: string)
    requires FirstNewline(a) == |a|
    ensures Complete(a) == [] && Remainder(a) == a
  {
  }

  /** Draining a buffer early or late makes no difference. */
  lemma {:induction false} DrainEarly(a: string, b: string)
    ensures Complete(a + b) == Complete(a) + Complete(Remainder(a) + b)
    ensures Remainder(a + b) == Remainder(Remainder(a) + b)
    decreases |a|
  {
    var n := FirstNewline(a);
    if n == |a| {
      NothingToDrain(a);
    } else {
      var line, rest := a[..n + 1], a[n + 1..];
      DrainEarly(rest, b);
      UnfoldDrain(a, n);
      UnfoldSum(a, b, n);
      Regroup([TrimEol(line)], Complete(rest), Complete(Remainder(rest) + b));
    }
  }

  lemma {:induction false} PiecesBehind(s: string, n: nat)
    requires n == FirstNewline(s) < |s|
    ensures Pieces(s) == [s[..n + 1]] + Pieces(s[n + 1..])
    ensures Pieces(s[n + 1..]) == [] ==> s[n + 1..] == ""
    ensures s[n + 1..] == "" ==> Pieces(s[n + 1..]) == []
  {
  }

  lemma {:induction false} UnfoldLines(s: string, n: nat)
    requires n == FirstNewline(s) < |s|
    ensures LinesOf(s) == [TrimEol(s[..n + 1])] + LinesOf(s[n + 1..])
  {
    hide Pieces, FirstNewline, TrimAll, TrimEol;
    PiecesBehind(s, n);
    TrimMore(Pieces(s), s[..n + 1], Pieces(s[n + 1..]));
  }

  lemma TrimMore(all: seq<string>, first: string, rest: seq<string>)
    requires all == [first] + rest
    ensures TrimAll(all) == [TrimEol(first)] + TrimAll(rest)
  {
    hide TrimEol;
  }

  lemma {:induction false} LinesAreCompleteAndFlush(s: string)
    ensures LinesOf(s) == Complete(s) + Flush(Remainder(s))
    decreases |s|
  {
    var n := FirstNewline(s);
    if s != "" && n < |s| {
      LinesAreCompleteAndFlush(s[n + 1..]);
      UnfoldLines(s, n);
      UnfoldDrain(s, n);
      Regroup([TrimEol(s[..n + 1])], Complete(s[n + 1..]), Flush(Remainder(s[n + 1..])));
    }
  }

  // ----- The loop -----

  datatype Buffers = Buffers(stdout: string, stderr: string, sent: seq<Sent>)

  function Tagged(line: string, out: bool): Sent {
    if out then FromStdout(line) else FromStderr(line)
  }

  function Tag(lines: seq<string>, out: bool): (r: seq<Sent>)
    ensures |r| == |lines|
  {
    seq(|lines|, i requires 0 <= i < |lines| => Tagged(lines[i], out))
  }

  /** One message's effect. */
  function Fed(b: Buffers, m: Message): Buffers {
    match m
    case Data(text) =>
      var buf := b.stdout + text;
      Buffers(Remainder(buf), b.stderr, b.sent + Tag(Complete(buf), true))
    case ExtendedData(text) =>
      var buf := b.stderr + text;
      Buffers(b.stdout, Remainder(buf), b.sent + Tag(Complete(buf), false))
    case End => b
    case Other => b
  }

  function FedAll(msgs: seq<Message>): Buffers {
    if msgs == [] then Buffers("", "", [])
    else
      var b := FedAll(msgs[..|msgs| - 1]);
      Fed(b, msgs[|msgs| - 1])
  }

  function Finished(b: Buffers): seq<Sent> {
    b.sent + Tag(Flush(b.stdout), true) + Tag(Flush(b.stderr), false)
  }

  /** The messages up to the end of the channel. */
  function UntilEnd(msgs: seq<Message>): seq<Message> {
    if msgs == [] || msgs[0].End? then [] else [msgs[0]] + UntilEnd(msgs[1..])
  }

  lemma WiresSum(a: seq<Sent>, b: seq<Sent>)
    ensures Wires(a + b) == Wires(a) + Wires(b)
  {
  }

  lemma {:induction false} UntilEndIs(msgs: seq<Message>, i: nat)
    requires i <= |msgs| && (i < |msgs| ==> msgs[i].End?) && forall k :: 0 <= k < i ==> !msgs[k].End?
    ensures UntilEnd(msgs) == msgs[..i]
  {
    if i > 0 {
      UntilEndIs(msgs[1..], i - 1);
      assert msgs[..i] == [msgs[0]] + msgs[1..][..i - 1];
    }
  }

  /** What a receiver that lets `accepts` sends through gets of `ss`. */
  function Got(ss: seq<Sent>, accepts: nat): seq<string> {
    Wires(ss[..Min(accepts, |ss|)])
  }

  lemma GotMore(a: seq<Sent>, b: seq<Sent>, accepts: nat)
    ensures accepts <= |a| ==> Got(a + b, accepts) == Got(a, accepts)
    ensures accepts >= |a| ==> Got(a + b, accepts) == Wires(a) + Got(b, accepts - |a|)
  {
    if accepts <= |a| {
      assert (a + b)[..accepts] == a[..accepts];
    } else {
      var n := Min(accepts - |a|, |b|);
      assert (a + b)[..|a| + n] == a + b[..n];
      WiresSum(a, b[..n]);
    }
  }

  lemma GotAll(ss: seq<Sent>, accepts: nat)
    requires |ss| <= accepts
    ensures Got(ss, accepts) == Wires(ss)
  {
    assert ss[..|ss|] == ss;
  }

  lemma TagOne(lines: seq<string>, out: bool)
    requires lines != []
    ensures Tag(lines, out) == Tag([lines[0]], out) + Tag(lines[1..], out)
  {
  }

  /** One more line of a buffer: it is received if the receiver still listens. */
  lemma GotLine(lines: seq<string>, out: bool, accepts: nat)
    requires lines != [] && accepts > 0
    ensures Got(Tag(lines, out), accepts) == [Wire(Tagged(lines[0], out))] + Got(Tag(lines[1..], out), accepts - 1)
  {
    TagOne(lines, out);
    GotMore(Tag([lines[0]], out), Tag(lines[1..], out), accepts);
  }

  /** How far draining `buffer` has come: `got` was received, `rest` is still to be drained. */
  predicate Draining(buffer: string, out: bool, left: nat, rest: string, got: seq<string>) {
    && |got| <= left
    && Got(Tag(Complete(buffer), out), left) == got + Got(Tag(Complete(rest), out), left - |got|)
    && |Complete(buffer)| == |got| + |Complete(rest)|
    && Remainder(buffer) == Remainder(rest)
  }

  /** One line is cut off and received. */
  lemma DrainsOn(buffer: string, out: bool, left: nat, rest: string, got: seq<string>, idx: nat)
    requires idx == FirstNewline(rest) < |rest|
    requires Draining(buffer, out, left, rest, got) && |got| < left
    ensures Draining(buffer, out, left, rest[idx + 1..], got + [Wire(Tagged(TrimEol(rest[..idx + 1]), out))])
  {
    var line, rest' := TrimEol(rest[..idx + 1]), rest[idx + 1..];
    UnfoldDrain(rest, idx);
    DrainsLine(line, Complete(rest'), Complete(rest), out, left - |got|);
    Regroup(got, [Wire(Tagged(line, out))], Got(Tag(Complete(rest'), out), left - |got| - 1));
  }

  lemma DrainsLine(line: string, later: seq<string>, lines: seq<string>, out: bool, accepts: nat)
    requires lines == [line] + later && accepts > 0
    ensures |lines| == 1 + |later|
    ensures Got(Tag(lines, out), accepts) == [Wire(Tagged(line, out))] + Got(Tag(later, out), accepts - 1)
  {
    assert lines[1..] == later;
    GotLine(lines, out, accepts);
  }

  /** Nothing more is received: the receiver is gone, or there is no line left. */
  lemma DrainEnds(buffer: string, out: bool, left: nat, rest: string, got: seq<string>)
    requires Draining(buffer, out, left, rest, got)
    requires |got| == left || FirstNewline(rest) == |rest|
    ensures got == Got(Tag(Complete(buffer), out), left)
    ensures FirstNewline(rest) == |rest| ==> rest == Remainder(buffer)
    ensures FirstNewline(rest) < |rest| ==> |Complete(buffer)| > left
  {
    if FirstNewline(rest) < |rest| {
      UnfoldDrain(rest, FirstNewline(rest));
    }
  }

  /**
   Takes the complete lines out of a buffer and sends them, until one cannot be sent. `left`
   is how many the receiver still lets through.
   */
  method Drain(buffer: string, out: bool, left: nat) returns (rest: string, got: seq<string>)
    ensures got == Got(Tag(Complete(buffer), out), left)
    ensures |Complete(buffer)| <= left ==> rest == Remainder(buffer)
  {
    rest, got := buffer, [];
    var idx := FirstNewline(rest);
    while idx < |rest|
      invariant idx == FirstNewline(rest)
      invariant Draining(buffer, out, left, rest, got)
      decreases |rest|
    {
      var line := rest[..idx + 1];
      if |got| == left {
        // The send fails, and the loop is left with the line gone from the buffer.
        DrainEnds(buffer, out, left, rest, got);
        rest := rest[idx + 1..];
        return;
      }
      DrainsOn(buffer, out, left, rest, got, idx);
      rest := rest[idx + 1..];
      got := got + [Wire(Tagged(TrimEol(line), out))];
      idx := FirstNewline(rest);
    }
    DrainEnds(buffer, out, left, rest, got);
  }

  /** The receiver has what it let through of what was sent; while it listens the buffers are as they should be. */
  predicate Delivering(stdout: string, stderr: string, received: seq<string>, b: Buffers, accepts: nat) {
    && received == Got(b.sent, accepts)
    && (|b.sent| <= accepts ==> stdout == b.stdout && stderr == b.stderr)
  }

  /** After a message on one stream, seen from the receiver. */
  lemma DeliversMore(received: seq<string>, sent: seq<Sent>, more: seq<Sent>, got: seq<string>, accepts: nat)
    requires received == Got(sent, accepts)
    requires |sent| <= accepts ==> got == Got(more, accepts - |sent|)
    requires |sent| > accepts ==> got == []
    ensures received + got == Got(sent + more, accepts)
  {
    GotMore(sent, more, accepts);
    if |sent| <= accepts {
      GotAll(sent, accepts);
    }
  }

  /** One message: its stream's buffer grows and is drained. */
  method Receive(m: Message, stdout: string, stderr: string, received: seq<string>, accepts: nat, ghost b: Buffers)
    returns (stdout': string, stderr': string, received': seq<string>)
    requires Delivering(stdout, stderr, received, b, accepts)
    ensures Delivering(stdout', stderr', received', Fed(b, m), accepts)
  {
    stdout', stderr', received' := stdout, stderr, received;
    var got;
    match m {
      case Data(text) =>
        stdout', got := Drain(stdout + text, true, accepts - |received|);
        received' := received + got;
        DeliversMore(received, b.sent, Tag(Complete(b.stdout + text), true), got, accepts);
      case ExtendedData(text) =>
        stderr', got := Drain(stderr + text, false, accepts - |received|);
        received' := received + got;
        DeliversMore(received, b.sent, Tag(Complete(b.stderr + text), false), got, accepts);
      case End =>
      case Other =>
    }
  }

  /** What is left in the buffers is sent as it is, whether or not the receiver is there. */
  method Finish(stdout: string, stderr: string, received: seq<string>, accepts: nat, ghost b: Buffers) returns (received': seq<string>)
    requires Delivering(stdout, stderr, received, b, accepts)
    ensures received' == Got(Finished(b), accepts)
  {
    received' := received;
    ghost var out, err := Tag(Flush(b.stdout), true), Tag(Flush(b.stderr), false);
    ghost var got: seq<string> := [];
    if stdout != "" && |received'| < accepts {
      got := [TrimEol(stdout)];
      received' := received' + [TrimEol(stdout)];
    }
    FlushGot(b.stdout, true, accepts, |b.sent|);
    DeliversMore(received, b.sent, out, got, accepts);
    ghost var mid := received';
    got := [];
    if stderr != "" && |received'| < accepts {
      got := ["!" + TrimEol(stderr)];
      received' := received' + ["!" + TrimEol(stderr)];
    }
    FlushGot(b.stderr, false, accepts, |b.sent + out|);
    DeliversMore(mid, b.sent + out, err, got, accepts);
  }

  lemma FlushGot(s: string, out: bool, accepts: nat, before: nat)
    ensures before <= accepts ==>
              Got(Tag(Flush(s), out), accepts - before) ==
              if s != "" && before < accepts then [if out then TrimEol(s) else "!" + TrimEol(s)] else []
  {
  }

  /** Everything sent: up to a cancellation noticed after `stop` messages, or to the end of the channel, flushed. */
  function Sendings(msgs: seq<Message>, stop: nat): seq<Sent> {
    var all := UntilEnd(msgs);
    if stop <= |all| then FedAll(all[..stop]).sent else Finished(FedAll(all))
  }

  /** The loop of `execute_command_streaming`: everything the receiver gets. A channel that just stops has ended. */
  method Stream(msgs: seq<Message>, accepts: nat, stop: nat) returns (received: seq<string>)
    ensures received == Got(Sendings(msgs, stop), accepts)
  {
    var stdout, stderr := "", "";
    received := [];
    var i := 0;
    while i < stop && i < |msgs| && !msgs[i].End?
      invariant i <= |msgs| && i <= stop && forall k :: 0 <= k < i ==> !msgs[k].End?
      invariant Delivering(stdout, stderr, received, FedAll(msgs[..i]), accepts)
    {
      assert msgs[..i + 1][..i] == msgs[..i];
      stdout, stderr, received := Receive(msgs[i], stdout, stderr, received, accepts, FedAll(msgs[..i]));
      i := i + 1;
    }
    UntilEndFrom(msgs, i);
    if i == stop {
      // The cancellation is noticed: the channel is closed and nothing is flushed.
      return;
    }
    UntilEndIs(msgs, i);
    received := Finish(stdout, stderr, received, accepts, FedAll(msgs[..i]));
  }

  lemma {:induction false} UntilEndFrom(msgs: seq<Message>, i: nat)
    requires i <= |msgs| && forall k :: 0 <= k < i ==> !msgs[k].End?
    ensures i <= |UntilEnd(msgs)| && UntilEnd(msgs)[..i] == msgs[..i]
  {
    if i > 0 {
      UntilEndFrom(msgs[1..], i - 1);
      assert msgs[..i] == [msgs[0]] + msgs[1..][..i - 1];
    }
  }

  // ----- Chunks do not matter -----

  function OfStream(ss: seq<Sent>, out: bool): seq<string> {
    if ss == [] then []
    else if ss[0].FromStdout? == out then [ss[0].line] + OfStream(ss[1..], out)
    else OfStream(ss[1..], out)
  }

  /** Everything that arrived on a stream. */
  function Received(msgs: seq<Message>, out: bool): string {
    if msgs == [] then ""
    else
      var m := msgs[|msgs| - 1];
      var front := Received(msgs[..|msgs| - 1], out);
      if out && m.Data? then front + m.text
      else if !out && m.ExtendedData? then front + m.text
      else front
  }

  lemma {:induction false} OfStreamSum(a: seq<Sent>, b: seq<Sent>, out: bool)
    ensures OfStream(a + b, out) == OfStream(a, out) + OfStream(b, out)
  {
    if a == [] {
      assert a + b == b;
    } else {
      OfStreamSum(a[1..], b, out);
      assert (a + b)[0] == a[0] && (a + b)[1..] == a[1..] + b;
      Regroup([a[0].line], OfStream(a[1..], out), OfStream(b, out));
    }
  }

  lemma {:induction false} OfStreamTag(lines: seq<string>, tag: bool, out: bool)
    ensures OfStream(Tag(lines, tag), out) == if tag == out then lines else []
  {
    if lines != [] {
      OfStreamTag(lines[1..], tag, out);
      assert Tag(lines, tag)[1..] == Tag(lines[1..], tag);
    }
  }

  function BufferOf(b: Buffers, out: bool): string {
    if out then b.stdout else b.stderr
  }

  /** After any messages a stream's lines and buffer are those of the text received on it. */
  lemma {:induction false} FedAllIsReceived(msgs: seq<Message>, out: bool)
    ensures OfStream(FedAll(msgs).sent, out) == Complete(Received(msgs, out))
    ensures BufferOf(FedAll(msgs), out) == Remainder(Received(msgs, out))
  {
    if msgs != [] {
      var front, m := msgs[..|msgs| - 1], msgs[|msgs| - 1];
      FedAllIsReceived(front, out);
      var b := FedAll(front);
      if m.Data? || m.ExtendedData? {
        var tag := m.Data?;
        var buf := BufferOf(b, tag) + m.text;
        OfStreamSum(b.sent, Tag(Complete(buf), tag), out);
        OfStreamTag(Complete(buf), tag, out);
        DrainEarly(Received(front, out), m.text);
      }
    }
  }

  /**
   The lines sent for a stream are the lines of everything received on it, however that was
   divided into messages and whatever came on the other stream in between.
   */
  lemma LinesAreThoseOfTheText(msgs: seq<Message>, out: bool)
    ensures OfStream(Finished(FedAll(msgs)), out) == LinesOf(Received(msgs, out))
  {
    var b := FedAll(msgs);
    FedAllIsReceived(msgs, out);
    LinesAreCompleteAndFlush(Received(msgs, out));
    OfStreamSum(b.sent, Tag(Flush(b.stdout), true), out);
    OfStreamSum(b.sent + Tag(Flush(b.stdout), true), Tag(Flush(b.stderr), false), out);
    OfStreamTag(Flush(b.stdout), true, out);
    OfStreamTag(Flush(b.stderr), false, out);
  }

  /** So two divisions of the same streams send the same lines for each. */
  lemma ChunksDoNotMatter(msgs: seq<Message>, other: seq<Message>, out: bool)
    requires Received(UntilEnd(msgs), out) == Received(UntilEnd(other), out)
    ensures OfStream(Finished(FedAll(UntilEnd(msgs))), out) == OfStream(Finished(FedAll(UntilEnd(other))), out)
  {
    LinesAreThoseOfTheText(UntilEnd(msgs), out);
    LinesAreThoseOfTheText(UntilEnd(other), out);
  }

  // ----- What a receiver that leaves, or a cancellation, takes away -----

  lemma {:induction false} SentGrows(msgs: seq<Message>, k: nat)
    requires k <= |msgs|
    ensures FedAll(msgs[..k]).sent <= FedAll(msgs).sent
  {
    if k == |msgs| {
      assert msgs[..k] == msgs;
    } else {
      SentGrows(msgs[..|msgs| - 1], k);
      assert msgs[..|msgs| - 1][..k] == msgs[..k];
    }
  }

  lemma OfStreamPrefix(a: seq<Sent>, b: seq<Sent>, out: bool)
    requires a <= b
    ensures OfStream(a, out) <= OfStream(b, out)
  {
    assert b == a + b[|a|..];
    OfStreamSum(a, b[|a|..], out);
  }

  lemma SendingsPrefix(msgs: seq<Message>, stop: nat)
    ensures Sendings(msgs, stop) <= Finished(FedAll(UntilEnd(msgs)))
  {
    var all := UntilEnd(msgs);
    if stop <= |all| {
      SentGrows(all, stop);
    }
  }

  /** Whenever the receiver leaves or cancels, what it got of a stream is a beginning of the lines of that stream's text. */
  lemma GotIsAPrefix(msgs: seq<Message>, accepts: nat, stop: nat, out: bool)
    ensures var ss := Sendings(msgs, stop);
            OfStream(ss[..Min(accepts, |ss|)], out) <= LinesOf(Received(UntilEnd(msgs), out))
  {
    var ss := Sendings(msgs, stop);
    SendingsPrefix(msgs, stop);
    LinesAreThoseOfTheText(UntilEnd(msgs), out);
    OfStreamPrefix(ss[..Min(accepts, |ss|)], Finished(FedAll(UntilEnd(msgs))), out);
  }

  /**
   The lines sent for a stream are the pieces of what was received on it, cut behind every line feed and
   nowhere else, each without the line ends behind it: nothing else is lost, and no line keeps one.
   */
  lemma LinesLoseTheirEndsOnly(msgs: seq<Message>, out: bool)
    ensures var text := Received(UntilEnd(msgs), out);
            && Join(Pieces(text)) == text && CutAtNewlines(Pieces(text))
            && AreLinesOf(OfStream(Finished(FedAll(UntilEnd(msgs))), out), Pieces(text))
  {
    var text := Received(UntilEnd(msgs), out);
    LinesAreThoseOfTheText(UntilEnd(msgs), out);
    PiecesJoin(text);
    PiecesAreCutAtNewlines(text);
    LinesAreOfPieces(text);
  }

  /** How many pieces of a text are closed by a line feed: all, or all but the last. */
  function Closed(s: string): nat {
    if s != "" && s[|s| - 1] != '\n' && Pieces(s) != [] then |Pieces(s)| - 1 else |Pieces(s)|
  }

  lemma {:induction false} CompleteAreClosed(s: string)
    ensures AreLinesOf(Complete(s), Pieces(s)[..Closed(s)])
    decreases |s|
  {
    var n := FirstNewline(s);
    if n < |s| {
      var rest := s[n + 1..];
      CompleteAreClosed(rest);
      UnfoldDrain(s, n);
      TrimmedIsLine(s[..n + 1]);
      ClosedBehind(s, n);
    } else {
      NothingToDrain(s);
    }
  }

  lemma ClosedBehind(s: string, n: nat)
    requires n == FirstNewline(s) < |s|
    ensures Pieces(s)[..Closed(s)] == [s[..n + 1]] + Pieces(s[n + 1..])[..Closed(s[n + 1..])]
  {
    hide *;
    var first, rest := s[..n + 1], s[n + 1..];
    PiecesBehind(s, n);
    ClosedOneMore(s, rest, n);
    FrontBehind(Pieces(s), first, Pieces(rest), Closed(rest));
  }

  lemma ClosedOneMore(s: string, rest: string, n: nat)
    requires n < |s| && s[n] == '\n' && rest == s[n + 1..]
    requires |Pieces(s)| == 1 + |Pieces(rest)| && (Pieces(rest) == [] <==> rest == "")
    ensures Closed(s) == 1 + Closed(rest) && Closed(rest) <= |Pieces(rest)|
  {
    hide Pieces;
    if rest != "" {
      assert rest[|rest| - 1] == s[|s| - 1];
    }
  }

  lemma FrontBehind(all: seq<string>, first: string, rest: seq<string>, k: nat)
    requires all == [first] + rest && k <= |rest|
    ensures all[..1 + k] == [first] + rest[..k]
  {
  }

  /** A cancellation noticed after `stop` messages: the lines closed by then were sent, and what was open never is. */
  lemma CancelledSendsWholeLines(msgs: seq<Message>, stop: nat, out: bool)
    requires stop <= |UntilEnd(msgs)|
    ensures var text := Received(UntilEnd(msgs)[..stop], out);
            AreLinesOf(OfStream(Sendings(msgs, stop), out), Pieces(text)[..Closed(text)])
  {
    FedAllIsReceived(UntilEnd(msgs)[..stop], out);
    CompleteAreClosed(Received(UntilEnd(msgs)[..stop], out));
  }

  // ----- Telling the streams apart -----

  /** What a receiver that goes by the mark takes a line for. */
  function Taken(wire: string): Sent {
    if wire != "" && wire[0] == '!' then FromStderr(wire[1..]) else FromStdout(wire)
  }

  predicate Marked(line: string) {
    line != "" && line[0] == '!'
  }

  lemma TakenIff(s: Sent)
    ensures Taken(Wire(s)) == s <==> !(s.FromStdout? && Marked(s.line))
  {
    if s.FromStderr? {
      assert Wire(s)[1..] == s.line;
    }
  }

  lemma {:induction false} StdoutLines(ss: seq<Sent>)
    ensures forall line :: line in OfStream(ss, true) <==> FromStdout(line) in ss
  {
    if ss != [] {
      StdoutLines(ss[1..]);
      assert ss == [ss[0]] + ss[1..];
    }
  }

  /** A receiver that goes by the mark takes every line sent for what it is. */
  predicate AllTold(ss: seq<Sent>) {
    forall i :: 0 <= i < |ss| ==> Taken(Wires(ss)[i]) == ss[i]
  }

  /** Told apart, and so no line of standard output that was sent is marked. */
  lemma AllToldIff(ss: seq<Sent>)
    ensures AllTold(ss) <==> forall line :: line in OfStream(ss, true) ==> !Marked(line)
  {
    StdoutLines(ss);
    forall i | 0 <= i < |ss| ensures Taken(Wires(ss)[i]) == ss[i] <==> !(ss[i].FromStdout? && Marked(ss[i].line)) {
      TakenIff(ss[i]);
    }
    if line :| line in OfStream(ss, true) && Marked(line) {
      var i :| 0 <= i < |ss| && ss[i] == FromStdout(line);
      assert Taken(Wires(ss)[i]) != ss[i];
    }
    assert forall i :: 0 <= i < |ss| && ss[i].FromStdout? ==> ss[i] in ss && ss[i] == FromStdout(ss[i].line);
  }

  /** The mark tells the streams apart exactly when no line of what arrived on standard output starts with it. */
  lemma MarkTellsIff(msgs: seq<Message>)
    ensures AllTold(Finished(FedAll(UntilEnd(msgs)))) <==>
            forall line :: line in LinesOf(Received(UntilEnd(msgs), true)) ==> !Marked(line)
  {
    LinesAreThoseOfTheText(UntilEnd(msgs), true);
    AllToldIff(Finished(FedAll(UntilEnd(msgs))));
  }

  lemma OneMarkedLine()
    ensures Complete("" + "!\n") == ["!"] && Remainder("" + "!\n") == ""
  {
    assert "" + "!\n" == "!\n";
    assert "!\n"[2..] == "" && "!\n"[..2] == "!\n" && "!\n"[..1] == "!";
    assert FirstNewline("!\n") == 1;
    UnfoldDrain("!\n", 1);
    NothingToDrain("");
  }

  /** One line of standard output that arrives as one of standard error. */
  lemma MarkMisleads()
    ensures var ss := Finished(FedAll(UntilEnd([Data("!\n")])));
            ss == [FromStdout("!")] && Taken(Wires(ss)[0]) == FromStderr("")
  {
    var msgs := [Data("!\n")];
    assert UntilEnd(msgs) == msgs && msgs[..0] == [];
    assert FedAll(msgs) == Fed(Buffers("", "", []), Data("!\n"));
    OneMarkedLine();
  }
}
