/** Forwarding a provider's completion stream: the line loop of the provider client, with its
    callback, and the chat handler that turns every delta into a frame for the browser.
 */
module AiStream {
  import opened Options
  import opened Text
  import opened Sse

  datatype Delta = Delta(role: string, content: string, done: bool, err: string)
  datatype Choice = Choice(role: string, content: string, finishReason: string)
  datatype Parsed = NotJson | Chunk(choices: seq<Choice>)
  datatype Outcome = Ok | Failed(error: string)

  type Parser = string -> Parsed
  /** What the callback returns for the last delta of the ones it was given so far. */
  type Callback = seq<Delta> -> Outcome

  const DONE_DELTA := Delta("", "", true, "")

  // ---------------------------------------------------------------- what should be sent

  function ChoiceDeltas(ch: Choice): seq<Delta> {
    (if ch.role != "" || ch.content != "" then [Delta(ch.role, ch.content, false, "")] else [])
    + if ch.finishReason != "" then [DONE_DELTA] else []
  }

  function ChunkDeltas(choices: seq<Choice>): seq<Delta> {
    if choices == [] then [] else ChunkDeltas(choices[..|choices| - 1]) + ChoiceDeltas(choices[|choices| - 1])
  }

  function PayloadDeltas(parse: Parser, payload: string): seq<Delta> {
    match parse(payload) case NotJson => [] case Chunk(choices) => ChunkDeltas(choices)
  }

  /** What the reader gets of a body whose connection breaks, if `broken` says so, right after these bytes: a
      line cut short is still handed on. */
  function Received(body: string, broken: Option<string>): Reading {
    LinesReceived(Split(body, '\n'), broken)
  }

  function LinesReceived(lines: seq<string>, broken: Option<string>): Reading {
    var r := ReadLines(lines);
    if r.end.EndOfInput? && broken.Some? then r.(end := Broken(broken.value)) else r
  }

  function ReadError(cause: string): string {
    "read stream: " + cause
  }

  /** The scanner's own error. */
  function TooLong(): string {
    "bufio.Scanner: token too long"
  }

  /** How the scanner ended. */
  function EndError(end: End): Outcome {
    match end
    case LineTooLong => Failed(ReadError(TooLong()))
    case Broken(e) => Failed(ReadError(e))
    case _ => Ok
  }

  /** Every delta of a stream, in order, ended by a Done delta unless the scanner gave up. */
  function Script(parse: Parser, r: Reading): seq<Delta>
    decreases |r.payloads|
  {
    if r.payloads == [] then if EndError(r.end).Failed? then [] else [DONE_DELTA]
    else PayloadDeltas(parse, r.payloads[0]) + Script(parse, r.(payloads := r.payloads[1..]))
  }

  // ---------------------------------------------------------------- the loop

  /** No delta but possibly the last of `sent` was refused. */
  ghost predicate AcceptedBefore(on: Callback, sent: seq<Delta>) {
    forall k | 0 < k < |sent| :: on(sent[..k]).Ok?
  }

  ghost predicate Accepted(on: Callback, sent: seq<Delta>) {
    AcceptedBefore(on, sent) && (sent != [] ==> on(sent).Ok?)
  }

  /** The one possible result: the deltas up to the first refused one with its error, or all of them. */
  ghost predicate Forwarded(parse: Parser, on: Callback, r: Reading, sent: seq<Delta>, err: Outcome) {
    && sent <= Script(parse, r)
    && AcceptedBefore(on, sent)
    && if sent != [] && on(sent).Failed? then err == on(sent)
       else sent == Script(parse, r) && err == EndError(r.end)
  }

  function Marshalled(marshal: Delta -> string, deltas: seq<Delta>): seq<string> {
    seq(|deltas|, i requires 0 <= i < |deltas| => marshal(deltas[i]))
  }

  /** The deltas whose frame was written: all that were sent except a refused last one. */
  function Written(on: Callback, sent: seq<Delta>): seq<Delta> {
    if sent != [] && on(sent).Failed? then sent[..|sent| - 1] else sent
  }

  /** How many characters of the frame of the last delta went out although it was refused: none if the client was
      already gone, some if it went away while the frame was written. */
  type Cut = seq<Delta> -> nat

  /** What a refused last delta left on the wire. */
  function HalfFrame(on: Callback, cut: Cut, marshal: Delta -> string, sent: seq<Delta>): string {
    if sent != [] && on(sent).Failed? then
      var frame := Frame(marshal(sent[|sent| - 1]));
      frame[..if cut(sent) <= |frame| then cut(sent) else |frame|]
    else ""
  }

  /** The response of the chat handler. `on` says whether the client is still there for the last delta. */
  class Response {
    const on: Callback
    const cut: Cut
    const marshal: Delta -> string
    var out: string
    var sent: seq<Delta>  // every delta the callback was given

    constructor (on: Callback, cut: Cut, marshal: Delta -> string)
      ensures this.on == on && this.cut == cut && this.marshal == marshal && out == "" && sent == []
    {
      this.on, this.cut, this.marshal, out, sent := on, cut, marshal, "", [];
    }

    /** On the wire are exactly the accepted deltas and what a refused one left. */
    ghost predicate Showing()
      reads this
    {
      out == Frames(Marshalled(marshal, Written(on, sent))) + HalfFrame(on, cut, marshal, sent)
    }

    /** The callback: one frame, or part of one if the client goes away. */
    method Send(d: Delta) returns (err: Outcome)
      modifies this
      ensures sent == old(sent) + [d] && err == on(sent)
      ensures out == old(out) + if err.Ok? then Frame(marshal(d)) else HalfFrame(on, cut, marshal, sent)
      ensures old(Accepted(on, sent) && Showing()) ==> AcceptedBefore(on, sent) && Showing()
    {
      hide Frames, Frame, Accepted, AcceptedBefore;
      if Accepted(on, sent) {
        AcceptedIsBefore(on, sent);
        MoreAccepted(on, sent, d);
        MoreWritten(on, marshal, sent, d);
      }
      sent := sent + [d];
      err := on(sent);
      if err.Ok? {
        out := out + Frame(marshal(d));
      } else {
        out := out + HalfFrame(on, cut, marshal, sent);
      }
    }
  }

  lemma MoreAccepted(on: Callback, sent: seq<Delta>, d: Delta)
    requires Accepted(on, sent)
    ensures AcceptedBefore(on, sent + [d])
  {
    var sent' := sent + [d];
    assert forall k | 0 < k <= |sent| :: sent'[..k] == sent[..k];
    assert sent[..|sent|] == sent;
  }

  lemma MarshalledSnoc(marshal: Delta -> string, deltas: seq<Delta>, d: Delta)
    ensures Frames(Marshalled(marshal, deltas + [d])) == Frames(Marshalled(marshal, deltas)) + Frame(marshal(d))
  {
    hide Frame, Frames;
    FramesSnoc(Marshalled(marshal, deltas), marshal(d));
    assert Marshalled(marshal, deltas + [d]) == Marshalled(marshal, deltas) + [marshal(d)];
  }

  lemma MoreWritten(on: Callback, marshal: Delta -> string, sent: seq<Delta>, d: Delta)
    requires sent != [] ==> on(sent).Ok?
    ensures Frames(Marshalled(marshal, Written(on, sent + [d]))) ==
            Frames(Marshalled(marshal, Written(on, sent))) + if on(sent + [d]).Ok? then Frame(marshal(d)) else ""
  {
    hide Frame, Frames, Marshalled;
    var sent' := sent + [d];
    assert sent'[..|sent|] == sent;
    MarshalledSnoc(marshal, sent, d);
  }

  /** The deltas of one choice, role and content first, then the end-of-stream signal. */
  method SendChoice(w: Response, ch: Choice) returns (err: Outcome)
    requires Accepted(w.on, w.sent) && w.Showing()
    modifies w
    ensures w.sent <= old(w.sent) + ChoiceDeltas(ch) && AcceptedBefore(w.on, w.sent) && w.Showing()
    ensures if err.Ok? then w.sent == old(w.sent) + ChoiceDeltas(ch) && Accepted(w.on, w.sent)
            else w.sent != [] && err == w.on(w.sent)
  {
    hide Frames, Frame, AcceptedBefore, HalfFrame, Marshalled, Written, Response.Showing;
    AcceptedIsBefore(w.on, w.sent);
    err := Ok;
    if ch.role != "" || ch.content != "" {
      err := w.Send(Delta(ch.role, ch.content, false, ""));
      if err.Failed? {
        return;
      }
    }
    if ch.finishReason != "" {
      err := w.Send(DONE_DELTA);
    }
  }

  method SendChunk(w: Response, choices: seq<Choice>) returns (err: Outcome)
    requires Accepted(w.on, w.sent) && w.Showing()
    modifies w
    ensures w.sent <= old(w.sent) + ChunkDeltas(choices) && AcceptedBefore(w.on, w.sent) && w.Showing()
    ensures if err.Ok? then w.sent == old(w.sent) + ChunkDeltas(choices) && Accepted(w.on, w.sent)
            else w.sent != [] && err == w.on(w.sent)
  {
    hide Accepted, AcceptedBefore, ChoiceDeltas, ChunkDeltas, Frames, Frame, Response.Showing;
    NoChoices(choices);
    err := Ok;
    for i := 0 to |choices|
      invariant err.Ok? && Accepted(w.on, w.sent) && w.Showing() && w.sent == old(w.sent) + ChunkDeltas(choices[..i])
    {
      ChunkSnoc(choices, i);
      err := SendChoice(w, choices[i]);
      if err.Failed? {
        return;
      }
    }
    assert choices[..|choices|] == choices;
    AcceptedIsBefore(w.on, w.sent);
  }

  lemma AcceptedIsBefore(on: Callback, sent: seq<Delta>)
    requires Accepted(on, sent)
    ensures AcceptedBefore(on, sent) && (sent != [] ==> on(sent).Ok?)
  {
  }

  lemma NoChoices(choices: seq<Choice>)
    ensures ChunkDeltas(choices[..0]) == []
  {
  }

  lemma ChunkSnoc(choices: seq<Choice>, i: nat)
    requires i < |choices|
    ensures ChunkDeltas(choices[..i]) + ChoiceDeltas(choices[i]) <= ChunkDeltas(choices)
    ensures ChunkDeltas(choices[..i + 1]) == ChunkDeltas(choices[..i]) + ChoiceDeltas(choices[i])
  {
    assert choices[..i + 1][..i] == choices[..i];
    ChunkPrefix(choices, i + 1);
  }

  lemma {:induction false} ChunkPrefix(choices: seq<Choice>, i: nat)
    requires i <= |choices|
    ensures ChunkDeltas(choices[..i]) <= ChunkDeltas(choices)
  {
    if i == |choices| {
      assert choices[..i] == choices;
    } else {
      assert choices[..|choices| - 1][..i] == choices[..i];
      ChunkPrefix(choices[..|choices| - 1], i);
    }
  }

  /** One payload: what is not a chunk is skipped. */
  method SendPayload(w: Response, parse: Parser, payload: string) returns (err: Outcome)
    requires Accepted(w.on, w.sent) && w.Showing()
    modifies w
    ensures w.sent <= old(w.sent) + PayloadDeltas(parse, payload) && AcceptedBefore(w.on, w.sent) && w.Showing()
    ensures if err.Ok? then w.sent == old(w.sent) + PayloadDeltas(parse, payload) && Accepted(w.on, w.sent)
            else w.sent != [] && err == w.on(w.sent)
  {
    hide Accepted, AcceptedBefore, ChunkDeltas, Response.Showing;
    AcceptedIsBefore(w.on, w.sent);
    match parse(payload) {
      case NotJson => return Ok;
      case Chunk(choices) => err := SendChunk(w, choices);
    }
  }

  /** Stream, once the response body is open: scan lines, parse payloads, call back, stop early on the
      sentinel or on the first refused delta. */
  method Stream(body: string, broken: Option<string>, parse: Parser, w: Response) returns (err: Outcome)
    requires w.sent == [] && w.out == ""
    modifies w
    ensures Forwarded(parse, w.on, Received(body, broken), w.sent, err) && w.Showing()
  {
    hide Accepted, AcceptedBefore, ReadLines, Payload, ChunkDeltas, ByteLen, DropCR, Script, Split, Frame, EndError;
    ghost var r := Received(body, broken);
    var lines := Split(body, '\n');
    err := Ok;
    NothingSent(w.on, w.marshal);
    assert w.Showing() && r == LinesReceived(lines, broken);
    hide Frames, Response.Showing, LinesReceived, Received, Marshalled, Written, HalfFrame, PayloadDeltas, Forwarded,
         ReadError, TooLong;
    while lines != [] && lines != [""]
      invariant Accepted(w.on, w.sent) && w.Showing()
      invariant Script(parse, r) == w.sent + Script(parse, LinesReceived(lines, broken))
      invariant r.end == LinesReceived(lines, broken).end
      decreases |lines|
    {
      ReadStep(parse, lines, broken);
      if ByteLen(lines[0]) >= MAX_TOKEN {
        AcceptedIsBefore(w.on, w.sent);
        err := Failed(ReadError(TooLong()));
        ForwardedAll(parse, w.on, r, w.sent, err);
        return;
      }
      var line := DropCR(lines[0]);
      lines := lines[1..];
      match Payload(line) {
        case Skipped =>
        case Data(payload) =>
          if payload == DONE {
            err := w.Send(DONE_DELTA);
            ForwardedAll(parse, w.on, r, w.sent, err);
            return;
          }
          ghost var more, rest := PayloadDeltas(parse, payload), Script(parse, LinesReceived(lines, broken));
          Regroup(Script(parse, r), w.sent, more, rest);
          ghost var upto := w.sent + more;
          err := SendPayload(w, parse, payload);
          if err.Failed? {
            PrefixOf(w.sent, upto, Script(parse, r));
            ForwardedPart(parse, w.on, r, w.sent, err);
            return;
          }
      }
    }
    NoLinesLeft(parse, lines, broken);
    if broken.Some? {
      AcceptedIsBefore(w.on, w.sent);
      err := Failed(ReadError(broken.value));
    } else {
      err := w.Send(DONE_DELTA);
    }
    ForwardedAll(parse, w.on, r, w.sent, err);
  }

  lemma Regroup(script: seq<Delta>, sent: seq<Delta>, more: seq<Delta>, rest: seq<Delta>)
    requires script == sent + (more + rest)
    ensures script == (sent + more) + rest && sent + more <= script
  {
  }

  lemma PrefixOf(a: seq<Delta>, b: seq<Delta>, c: seq<Delta>)
    requires a <= b && b <= c
    ensures a <= c
  {
  }

  lemma ForwardedAll(parse: Parser, on: Callback, r: Reading, sent: seq<Delta>, err: Outcome)
    requires sent == Script(parse, r) && AcceptedBefore(on, sent)
    requires if sent != [] && on(sent).Failed? then err == on(sent) else err == EndError(r.end)
    ensures Forwarded(parse, on, r, sent, err)
  {
  }

  lemma ForwardedPart(parse: Parser, on: Callback, r: Reading, sent: seq<Delta>, err: Outcome)
    requires sent <= Script(parse, r) && AcceptedBefore(on, sent) && sent != [] && err == on(sent) && err.Failed?
    ensures Forwarded(parse, on, r, sent, err)
  {
  }

  lemma NothingSent(on: Callback, marshal: Delta -> string)
    ensures Accepted(on, []) && Frames(Marshalled(marshal, Written(on, []))) == ""
  {
  }

  lemma NoLinesLeft(parse: Parser, lines: seq<string>, broken: Option<string>)
    requires lines == [] || lines == [""]
    ensures var r := LinesReceived(lines, broken);
            if broken.Some? then Script(parse, r) == [] && EndError(r.end) == Failed(ReadError(broken.value))
            else Script(parse, r) == [DONE_DELTA] && EndError(r.end) == Ok
  {
  }

  /** What the next line contributes to the script. */
  lemma ReadStep(parse: Parser, lines: seq<string>, broken: Option<string>)
    requires lines != [] && lines != [""]
    ensures var r, rest := LinesReceived(lines, broken), LinesReceived(lines[1..], broken);
            if ByteLen(lines[0]) >= MAX_TOKEN then EndError(r.end) == Failed(ReadError(TooLong()))
                && Script(parse, r) == []
            else match Payload(DropCR(lines[0]))
            case Skipped => r == rest
            case Data(p) =>
              if p == DONE then EndError(r.end) == Ok && Script(parse, r) == [DONE_DELTA]
              else r.end == rest.end && Script(parse, r) == PayloadDeltas(parse, p) + Script(parse, rest)
  {
    hide Payload, DropCR, ByteLen;
    var r, rest := LinesReceived(lines, broken), LinesReceived(lines[1..], broken);
    match Payload(DropCR(lines[0]))
    case Skipped =>
    case Data(p) =>
      if p != DONE && ByteLen(lines[0]) < MAX_TOKEN {
        assert r.payloads[1..] == rest.payloads && r.(payloads := r.payloads[1..]) == rest;
      }
  }

  // ---------------------------------------------------------------- what the callback sees

  function Contents(deltas: seq<Delta>): string {
    if deltas == [] then "" else deltas[0].content + Contents(deltas[1..])
  }

  function ChoiceContents(choices: seq<Choice>): string {
    if choices == [] then "" else ChoiceContents(choices[..|choices| - 1]) + choices[|choices| - 1].content
  }

  /** The generated text: the contents of every choice of every payload that parses. */
  function PayloadContents(parse: Parser, payloads: seq<string>): string {
    if payloads == [] then "" else
      (match parse(payloads[0]) case NotJson => "" case Chunk(choices) => ChoiceContents(choices))
      + PayloadContents(parse, payloads[1..])
  }

  lemma {:induction false} ContentsConcat(a: seq<Delta>, b: seq<Delta>)
    ensures Contents(a + b) == Contents(a) + Contents(b)
  {
    if a == [] {
      assert a + b == b;
    } else {
      assert (a + b)[1..] == a[1..] + b;
      ContentsConcat(a[1..], b);
    }
  }

  lemma ChoiceContentsKept(ch: Choice)
    ensures Contents(ChoiceDeltas(ch)) == ch.content
  {
    var text := Delta(ch.role, ch.content, false, "");
    assert [text][1..] == [] && [DONE_DELTA][1..] == [];
    assert Contents([text]) == ch.content + Contents([]);
    assert Contents([DONE_DELTA]) == DONE_DELTA.content + Contents([]);
    ContentsConcat([text], [DONE_DELTA]);
    assert [] + [DONE_DELTA] == [DONE_DELTA] && [text] + [] == [text];
  }

  lemma {:induction false} ChunkContentsKept(choices: seq<Choice>)
    ensures Contents(ChunkDeltas(choices)) == ChoiceContents(choices)
  {
    if choices != [] {
      var ch := choices[|choices| - 1];
      ChunkContentsKept(choices[..|choices| - 1]);
      ContentsConcat(ChunkDeltas(choices[..|choices| - 1]), ChoiceDeltas(ch));
      ChoiceContentsKept(ch);
    }
  }

  lemma {:induction false} ScriptContents(parse: Parser, r: Reading)
    ensures Contents(Script(parse, r)) == PayloadContents(parse, r.payloads)
    ensures EndError(r.end).Ok? ==> Script(parse, r) != [] && Script(parse, r)[|Script(parse, r)| - 1] == DONE_DELTA
    decreases |r.payloads|
  {
    if r.payloads != [] {
      var rest := r.(payloads := r.payloads[1..]);
      ScriptContents(parse, rest);
      ContentsConcat(PayloadDeltas(parse, r.payloads[0]), Script(parse, rest));
      match parse(r.payloads[0])
      case NotJson =>
      case Chunk(choices) => ChunkContentsKept(choices);
    }
  }

  /** Theorem: a stream that ends without error has delivered the whole generated text and then a
      Done delta; one that fails in the callback stopped right there, with that error. */
  lemma StreamSemantics(parse: Parser, on: Callback, r: Reading, sent: seq<Delta>, err: Outcome)
    requires Forwarded(parse, on, r, sent, err)
    ensures err.Ok? ==> Contents(sent) == PayloadContents(parse, r.payloads)
                        && sent != [] && sent[|sent| - 1] == DONE_DELTA
    ensures err.Failed? ==> (sent != [] && err == on(sent)) || err == EndError(r.end)
    ensures forall k | 0 < k < |sent| :: on(sent[..k]).Ok?
  {
    hide Script, Contents, PayloadContents, ReadError, TooLong;
    ScriptContents(parse, r);
  }

  // ---------------------------------------------------------------- delta by delta

  /** The choices of every payload that parses, in order. */
  function AllChoices(parse: Parser, payloads: seq<string>): seq<Choice> {
    if payloads == [] then [] else
      (match parse(payloads[0]) case NotJson => [] case Chunk(choices) => choices) + AllChoices(parse, payloads[1..])
  }

  predicate Speaks(ch: Choice) {
    ch.role != "" || ch.content != ""
  }

  /** The delta that hands on what a choice says. */
  predicate IsText(d: Delta, ch: Choice) {
    d.role == ch.role && d.content == ch.content && !d.done && d.err == ""
  }

  /** The delta that says that something has ended. */
  predicate IsEnd(d: Delta) {
    d.role == "" && d.content == "" && d.done && d.err == ""
  }

  /** What the callback is given for one choice: its text if there is any, then an end if it has a finish reason. */
  predicate BlockOf(ch: Choice, block: seq<Delta>) {
    && |block| == (if Speaks(ch) then 1 else 0) + (if ch.finishReason != "" then 1 else 0)
    && (Speaks(ch) ==> IsText(block[0], ch))
    && (ch.finishReason != "" ==> IsEnd(block[|block| - 1]))
  }

  predicate BlocksOf(choices: seq<Choice>, blocks: seq<seq<Delta>>) {
    |blocks| == |choices| && forall i | 0 <= i < |choices| :: BlockOf(choices[i], blocks[i])
  }

  function Flat(blocks: seq<seq<Delta>>): seq<Delta> {
    if blocks == [] then [] else Flat(blocks[..|blocks| - 1]) + blocks[|blocks| - 1]
  }

  lemma {:induction false} FlatConcat(a: seq<seq<Delta>>, b: seq<seq<Delta>>)
    ensures Flat(a + b) == Flat(a) + Flat(b)
  {
    if b == [] {
      assert a + b == a;
    } else {
      assert (a + b)[..|a + b| - 1] == a + b[..|b| - 1];
      FlatConcat(a, b[..|b| - 1]);
      Together(Flat(a), Flat(b[..|b| - 1]), b[|b| - 1]);
    }
  }

  lemma ChoiceBlock(ch: Choice)
    ensures BlockOf(ch, ChoiceDeltas(ch))
  {
  }

  lemma {:induction false} ChunkBlocks(choices: seq<Choice>) returns (blocks: seq<seq<Delta>>)
    ensures BlocksOf(choices, blocks) && ChunkDeltas(choices) == Flat(blocks)
  {
    blocks := [];
    if choices != [] {
      hide BlockOf, ChoiceDeltas;
      var ch := choices[|choices| - 1];
      var before := ChunkBlocks(choices[..|choices| - 1]);
      ChoiceBlock(ch);
      blocks := before + [ChoiceDeltas(ch)];
      assert blocks[..|before|] == before;
    }
  }

  lemma BlocksConcat(cs: seq<Choice>, a: seq<seq<Delta>>, cs': seq<Choice>, b: seq<seq<Delta>>)
    requires BlocksOf(cs, a) && BlocksOf(cs', b)
    ensures BlocksOf(cs + cs', a + b) && Flat(a + b) == Flat(a) + Flat(b)
  {
    hide BlockOf, Flat;
    FlatConcat(a, b);
  }

  lemma {:induction false} ScriptBlocks(parse: Parser, r: Reading) returns (blocks: seq<seq<Delta>>)
    ensures BlocksOf(AllChoices(parse, r.payloads), blocks)
    ensures Script(parse, r) == Flat(blocks) + if EndError(r.end).Failed? then [] else [DONE_DELTA]
    decreases |r.payloads|
  {
    blocks := [];
    if r.payloads != [] {
      hide BlocksOf, EndError, Flat, ChunkDeltas, Script, AllChoices;
      var rest := r.(payloads := r.payloads[1..]);
      FirstPayload(parse, r);
      var after := ScriptBlocks(parse, rest);
      match parse(r.payloads[0])
      case NotJson => blocks := after;
      case Chunk(choices) =>
        var first := ChunkBlocks(choices);
        BlocksConcat(choices, first, AllChoices(parse, rest.payloads), after);
        blocks := first + after;
        Together(Flat(first), Flat(after), if EndError(r.end).Failed? then [] else [DONE_DELTA]);
    }
  }

  lemma FirstPayload(parse: Parser, r: Reading)
    requires r.payloads != []
    ensures var rest := r.(payloads := r.payloads[1..]);
            match parse(r.payloads[0])
            case NotJson =>
              Script(parse, r) == Script(parse, rest)
              && AllChoices(parse, r.payloads) == AllChoices(parse, rest.payloads)
            case Chunk(choices) =>
              Script(parse, r) == ChunkDeltas(choices) + Script(parse, rest)
              && AllChoices(parse, r.payloads) == choices + AllChoices(parse, rest.payloads)
  {
    hide ChunkDeltas, EndError;
  }

  lemma Together(a: seq<Delta>, b: seq<Delta>, c: seq<Delta>)
    ensures a + (b + c) == (a + b) + c
  {
  }

  /** Theorem: a stream that ends without error has given the callback, choice by choice and in order, the role and
      content of each choice that has either, an end for each that has a finish reason, and one end after all. */
  lemma StreamBlocks(parse: Parser, on: Callback, r: Reading, sent: seq<Delta>, err: Outcome)
    requires Forwarded(parse, on, r, sent, err) && err.Ok?
    ensures sent != [] && IsEnd(sent[|sent| - 1])
    ensures exists blocks :: BlocksOf(AllChoices(parse, r.payloads), blocks) && sent[..|sent| - 1] == Flat(blocks)
  {
    hide BlocksOf, Script, Flat;
    var blocks := ScriptBlocks(parse, r);
    assert sent[..|sent| - 1] == Flat(blocks);
  }

  /** What the deltas that are not ends say. */
  function Texts(deltas: seq<Delta>): seq<(string, string)> {
    if deltas == [] then [] else
      var before, d := Texts(deltas[..|deltas| - 1]), deltas[|deltas| - 1];
      if d.done then before else before + [(d.role, d.content)]
  }

  /** What the choices say. */
  function Said(choices: seq<Choice>): seq<(string, string)> {
    if choices == [] then [] else
      var before, ch := Said(choices[..|choices| - 1]), choices[|choices| - 1];
      if Speaks(ch) then before + [(ch.role, ch.content)] else before
  }

  lemma {:induction false} TextsConcat(a: seq<Delta>, b: seq<Delta>)
    ensures Texts(a + b) == Texts(a) + Texts(b)
  {
    if b == [] {
      assert a + b == a;
    } else {
      assert (a + b)[..|a + b| - 1] == a + b[..|b| - 1];
      TextsConcat(a, b[..|b| - 1]);
    }
  }

  lemma BlockTexts(ch: Choice, block: seq<Delta>)
    requires BlockOf(ch, block)
    ensures Texts(block) == if Speaks(ch) then [(ch.role, ch.content)] else []
  {
    if |block| == 2 {
      assert block[..1][..0] == [] && Texts(block[..1]) == [(ch.role, ch.content)];
    } else if |block| == 1 {
      assert block[..0] == [];
    }
  }

  lemma {:induction false} FlatTexts(choices: seq<Choice>, blocks: seq<seq<Delta>>)
    requires BlocksOf(choices, blocks)
    ensures Texts(Flat(blocks)) == Said(choices)
  {
    if choices != [] {
      hide BlockOf;
      var n := |choices| - 1;
      FlatTexts(choices[..n], blocks[..n]);
      TextsConcat(Flat(blocks[..n]), blocks[n]);
      BlockTexts(choices[n], blocks[n]);
    }
  }

  /** Theorem: so the deltas that are not ends say exactly what the choices say, in order. */
  lemma StreamTexts(parse: Parser, on: Callback, r: Reading, sent: seq<Delta>, err: Outcome)
    requires Forwarded(parse, on, r, sent, err) && err.Ok?
    ensures Texts(sent) == Said(AllChoices(parse, r.payloads))
  {
    hide BlocksOf, Script, Flat;
    StreamBlocks(parse, on, r, sent, err);
    var blocks :| BlocksOf(AllChoices(parse, r.payloads), blocks) && sent[..|sent| - 1] == Flat(blocks);
    FlatTexts(AllChoices(parse, r.payloads), blocks);
  }

  // ---------------------------------------------------------------- the chat handler

  const UNAVAILABLE := Delta("", "", true, "AI service is currently unavailable")

  /** handleAIChat: every accepted delta becomes a frame as it arrives. A failed stream ends with an error
      frame (if the client is still there), a good one with the sentinel. */
  method HandleChat(body: string, broken: Option<string>, parse: Parser, marshal: Delta -> string, on: Callback,
      cut: Cut)
    returns (out: string, sent: seq<Delta>, err: Outcome)
    ensures Forwarded(parse, on, Received(body, broken), sent, err)
    ensures out == OnTheWire(marshal, on, cut, sent, err)
  {
    hide Frames, Frame;
    var w := new Response(on, cut, marshal);
    err := Stream(body, broken, parse, w);
    sent := w.sent;
    if err.Failed? {
      var _ := w.Send(UNAVAILABLE);
      out := w.out;
    } else {
      out := w.out + Frame(DONE);
    }
  }

  /** The bytes on the wire. */
  function OnTheWire(marshal: Delta -> string, on: Callback, cut: Cut, sent: seq<Delta>, err: Outcome): string {
    Frames(Marshalled(marshal, Written(on, sent)))
    + HalfFrame(on, cut, marshal, sent) + LastFrame(marshal, on, cut, sent, err)
  }

  function LastFrame(marshal: Delta -> string, on: Callback, cut: Cut, sent: seq<Delta>, err: Outcome): string {
    if err.Ok? then Frame(DONE)
    else if on(sent + [UNAVAILABLE]).Ok? then Frame(marshal(UNAVAILABLE))
    else HalfFrame(on, cut, marshal, sent + [UNAVAILABLE])
  }

  /** Theorem: if the client goes away between two frames or not at all, it reads exactly the accepted deltas, in
      order, and sees the sentinel if and only if the stream succeeded; after a failure it may get one
      error delta more. */
  lemma ChatRoundTrip(marshal: Delta -> string, on: Callback, cut: Cut, sent: seq<Delta>, err: Outcome)
    requires forall d | d in Written(on, sent) + [UNAVAILABLE] :: Sendable(marshal(d))
    requires sent != [] && on(sent).Failed? ==> err.Failed?
    requires HalfFrame(on, cut, marshal, sent) == "" == HalfFrame(on, cut, marshal, sent + [UNAVAILABLE])
    ensures var written := Written(on, sent);
            Read(OnTheWire(marshal, on, cut, sent, err)) ==
            if err.Ok? then Reading(Marshalled(marshal, written), Sentinel)
            else Reading(Marshalled(marshal, if on(sent + [UNAVAILABLE]).Ok? then written + [UNAVAILABLE] else written),
                         EndOfInput)
  {
    hide Read, Sendable, Frame, HalfFrame;
    var written := Written(on, sent);
    var payloads := Marshalled(marshal, written);
    if err.Ok? {
      assert OnTheWire(marshal, on, cut, sent, err) == Wire(payloads);
      WireRoundTrip(payloads);
    } else if on(sent + [UNAVAILABLE]).Ok? {
      FramesSnoc(payloads, marshal(UNAVAILABLE));
      assert Frames(payloads) + "" == Frames(payloads);
      assert OnTheWire(marshal, on, cut, sent, err) == Frames(payloads + [marshal(UNAVAILABLE)]);
      assert Marshalled(marshal, written + [UNAVAILABLE]) == payloads + [marshal(UNAVAILABLE)];
      FramesRoundTrip(payloads + [marshal(UNAVAILABLE)]);
    } else {
      assert OnTheWire(marshal, on, cut, sent, err) == Frames(payloads);
      FramesRoundTrip(payloads);
    }
  }

  // ---------------------------------------------------------------- a response cut short

  /** Once a frame was cut short nothing more gets through. */
  ghost predicate Sticky(on: Callback, cut: Cut) {
    forall sent: seq<Delta>, d | sent != [] && on(sent).Failed? && cut(sent) > 0 ::
      on(sent + [d]).Failed? && cut(sent + [d]) == 0
  }

  /** What the handler set out to write after the accepted deltas. */
  function LastPayload(marshal: Delta -> string, on: Callback, cut: Cut, sent: seq<Delta>, err: Outcome): string {
    if HalfFrame(on, cut, marshal, sent) != "" then marshal(sent[|sent| - 1])
    else if err.Ok? then DONE
    else marshal(UNAVAILABLE)
  }

  /** What follows the accepted deltas on the wire is one frame, whole or in part. */
  lemma OneLastFrame(marshal: Delta -> string, on: Callback, cut: Cut, sent: seq<Delta>, err: Outcome)
    requires Sticky(on, cut) && (sent != [] && on(sent).Failed? ==> err.Failed?)
    ensures HalfFrame(on, cut, marshal, sent) + LastFrame(marshal, on, cut, sent, err)
            <= Frame(LastPayload(marshal, on, cut, sent, err))
  {
    hide Frame;
    var all := sent + [UNAVAILABLE];
    assert all[|all| - 1] == UNAVAILABLE;
    var half, last := HalfFrame(on, cut, marshal, sent), LastFrame(marshal, on, cut, sent, err);
    if half != "" {
      assert cut(sent) > 0 && on(all).Failed? && cut(all) == 0;
      assert last == "" && half + last == half;
    } else {
      assert half + last == last;
    }
  }

  /** Theorem: whatever part of the response reaches the client, it reads a prefix of the accepted deltas followed by
      at most one more payload, of which only the last may be truncated. */
  lemma CutChat(marshal: Delta -> string, on: Callback, cut: Cut, sent: seq<Delta>, err: Outcome, received: string)
    requires forall d | d in sent + [UNAVAILABLE] :: Sendable(marshal(d))
    requires Sticky(on, cut) && (sent != [] && on(sent).Failed? ==> err.Failed?)
    requires received <= OnTheWire(marshal, on, cut, sent, err)
    ensures CutOf(Marshalled(marshal, Written(on, sent)) + [LastPayload(marshal, on, cut, sent, err)],
            Read(received).payloads)
  {
    hide Read, Sendable, Frame, Frames, Sticky, CutOf, LastFrame;
    var payloads, last := Marshalled(marshal, Written(on, sent)), LastPayload(marshal, on, cut, sent, err);
    OneLastFrame(marshal, on, cut, sent, err);
    FramesSnoc(payloads, last);
    LongerPrefix(Frames(payloads), HalfFrame(on, cut, marshal, sent) + LastFrame(marshal, on, cut, sent, err),
        Frame(last));
    assert OnTheWire(marshal, on, cut, sent, err)
           == Frames(payloads) + (HalfFrame(on, cut, marshal, sent) + LastFrame(marshal, on, cut, sent, err));
    forall p | p in payloads + [last] ensures Sendable(p) || p == DONE {
      AllSendable(marshal, on, cut, sent, err, p);
    }
    CutAnywhere(payloads + [last], received);
  }

  lemma LongerPrefix(a: string, b: string, c: string)
    requires b <= c
    ensures a + b <= a + c
  {
  }

  lemma AllSendable(marshal: Delta -> string, on: Callback, cut: Cut, sent: seq<Delta>, err: Outcome, p: string)
    requires forall d | d in sent + [UNAVAILABLE] :: Sendable(marshal(d))
    requires p in Marshalled(marshal, Written(on, sent)) + [LastPayload(marshal, on, cut, sent, err)]
    ensures Sendable(p) || p == DONE
  {
    hide Sendable, Frame;
    var written := Written(on, sent);
    forall d | d in sent || d == UNAVAILABLE ensures d in sent + [UNAVAILABLE] {
    }
    if p in Marshalled(marshal, written) {
      var i :| 0 <= i < |written| && p == marshal(written[i]);
      assert written[i] == sent[i] && sent[i] in sent;
    } else if HalfFrame(on, cut, marshal, sent) != "" {
      assert sent[|sent| - 1] in sent;
    }
  }
}
