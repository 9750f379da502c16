/** The event-stream framing of the chat endpoint: the frame writer and the line reader. Both
    implement the same small subset of section 9.2 of the WHATWG HTML standard: one `data` line per event.
 */
module Sse {
  import opened Text

  const MAX_TOKEN: nat := 1024 * 1024
  const DONE := "[DONE]"

  // ---------------------------------------------------------------- writing

  function Frame(payload: string): string {
    "data: " + payload + "\n\n"
  }

  function Frames(payloads: seq<string>): string {
    if payloads == [] then "" else Frame(payloads[0]) + Frames(payloads[1..])
  }

  /** A whole response: one frame per payload and the final sentinel. */
  function Wire(payloads: seq<string>): string {
    Frames(payloads) + Frame(DONE)
  }

  // ---------------------------------------------------------------- reading

  datatype End = Sentinel | EndOfInput | LineTooLong | Broken(error: string)
  datatype Reading = Reading(payloads: seq<string>, end: End)
  datatype Line = Skipped | Data(payload: string)

  function DropCR(line: string): string {
    if line != "" && line[|line| - 1] == '\r' then line[..|line| - 1] else line
  }

  /** One scanned line: anything that does not start with `data:` is skipped. */
  function Payload(line: string): Line {
    if "data:" <= line then Data(TrimSpace(line[5..])) else Skipped
  }

  /** The reader over the raw lines: the scanner gives up on a line that does not fit its buffer, and
      a last line without terminator counts only if it is not empty. */
  function ReadLines(lines: seq<string>): Reading {
    if lines == [] || lines == [""] then Reading([], EndOfInput)
    else if ByteLen(lines[0]) >= MAX_TOKEN then Reading([], LineTooLong)
    else match Payload(DropCR(lines[0]))
      case Skipped => ReadLines(lines[1..])
      case Data(p) =>
        if p == DONE then Reading([], Sentinel)
        else var rest := ReadLines(lines[1..]); Reading([p] + rest.payloads, rest.end)
  }

  function Read(body: string): Reading {
    ReadLines(Split(body, '\n'))
  }

  // ---------------------------------------------------------------- round trip

  /** Any line that fits: one that starts with `data:`, with or without a space after it, hands on the rest without the
      white space around it, unless that is the sentinel; any other, such as a comment, is as if it were not there. */
  lemma ReadLine(line: string, rest: string)
    requires '\n' !in line && ByteLen(line) < 1_048_576 && (line == "" || line[|line| - 1] != '\r')
    ensures !("data:" <= line) ==> Read(line + ['\n'] + rest) == Read(rest)
    ensures "data:" <= line && TrimSpace(line[5..]) == "[DONE]" ==>
              Read(line + ['\n'] + rest) == Reading([], Sentinel)
    ensures "data:" <= line && TrimSpace(line[5..]) != "[DONE]" ==>
              Read(line + ['\n'] + rest) == Reading([TrimSpace(line[5..])] + Read(rest).payloads, Read(rest).end)
  {
    hide ByteLen, Split, TrimSpace;
    SplitAtSeparator(line, rest, '\n');
    var lines := Split(rest, '\n');
    assert ([line] + lines)[1..] == lines && [line] + lines != [] && [line] + lines != [""];
  }

  /** What any payload handed on by the reader looks like. */
  predicate Clean(p: string) {
    '\n' !in p && Trimmed(p) && p != DONE
  }

  /** A payload that survives the trip. */
  predicate Sendable(p: string) {
    Clean(p) && ByteLen(p) + 6 < 1_048_576
  }

  lemma ShortText()
    ensures ByteLen("data: ") == 6 && ByteLen("") == 0
    ensures ByteLen("data: " + DONE) < MAX_TOKEN
  {
    ByteLenConcat("data: ", DONE);
    assert ByteLen("data: ") == 1 + ByteLen("ata: ") && ByteLen("ata: ") == 1 + ByteLen("ta: ")
           && ByteLen("ta: ") == 1 + ByteLen("a: ");
    assert ByteLen(DONE) == 1 + ByteLen("DONE]") && ByteLen("DONE]") == 1 + ByteLen("ONE]")
           && ByteLen("ONE]") == 1 + ByteLen("NE]");
  }

  lemma SplitFrame(p: string, rest: string)
    requires '\n' !in p
    ensures Split(Frame(p) + rest, '\n') == ["data: " + p, ""] + Split(rest, '\n')
  {
    hide Split;
    var line := "data: " + p;
    assert Frame(p) + rest == line + ['\n'] + ("" + ['\n'] + rest);
    SplitAtSeparator(line, "" + ['\n'] + rest, '\n');
    SplitAtSeparator("", rest, '\n');
    assert [line] + ([""] + Split(rest, '\n')) == [line, ""] + Split(rest, '\n');
  }

  lemma SkipBlank(lines: seq<string>)
    requires lines != []
    ensures ReadLines([""] + lines) == ReadLines(lines)
  {
    ShortText();
    assert ([""] + lines)[1..] == lines;
    assert Payload(DropCR("")) == Skipped;
  }

  /** The reader on the line of a frame and the blank line after it. */
  lemma ReadFrameLines(p: string, lines: seq<string>)
    requires lines != []
    ensures ReadLines(["data: " + p, ""] + lines) ==
            if ByteLen(p) + 6 >= MAX_TOKEN then Reading([], LineTooLong)
            else match Payload(DropCR("data: " + p))
              case Skipped => ReadLines(lines)
              case Data(q) => if q == DONE then Reading([], Sentinel)
                              else Reading([q] + ReadLines(lines).payloads, ReadLines(lines).end)
  {
    hide Payload, DropCR, ByteLen;
    var all := ["data: " + p, ""] + lines;
    assert all[1..] == [""] + lines;
    SkipBlank(lines);
    ByteLenConcat("data: ", p);
    ShortText();
  }

  /** The reader takes a frame apart again. */
  lemma ReadFrame(p: string, rest: string)
    requires '\n' !in p
    ensures Read(Frame(p) + rest) ==
            if ByteLen(p) + 6 >= MAX_TOKEN then Reading([], LineTooLong)
            else match Payload(DropCR("data: " + p))
              case Skipped => Read(rest)
              case Data(q) => if q == DONE then Reading([], Sentinel)
                              else Reading([q] + Read(rest).payloads, Read(rest).end)
  {
    hide Payload, DropCR, ByteLen, Split, ReadLines;
    SplitFrame(p, rest);
    ReadFrameLines(p, Split(rest, '\n'));
  }

  lemma TrimmedPayload(p: string)
    ensures Payload(DropCR("data: " + p)).Data?
    ensures Trimmed(p) ==> Payload(DropCR("data: " + p)) == Data(p)
  {
    var line := "data: " + p;
    assert line[..5] == "data:" && DropCR(line)[..5] == "data:";
    if Trimmed(p) {
      assert DropCR(line) == line && line[5..] == " " + p;
      assert (" " + p)[1..] == p;
      TrimSpaceSpec(p);
      assert TrimLeft(" " + p) == TrimLeft(p);
    }
  }

  /** Whatever the bytes, a payload handed on by the reader is trimmed, fits on a line and is not the sentinel. */
  lemma {:induction false} ReadPayloadsAreClean(lines: seq<string>)
    requires forall l | l in lines :: '\n' !in l
    ensures forall p | p in ReadLines(lines).payloads :: Clean(p)
  {
    if lines != [] {
      ReadPayloadsAreClean(lines[1..]);
      var line := DropCR(lines[0]);
      if "data:" <= line {
        TrimSpaceSpec(line[5..]);
        assert forall c | c in line[5..] :: c in lines[0];
      }
    }
  }

  /** Theorem: a list of payloads comes back, ending at the sentinel, exactly when each of them is
      newline-free, trimmed, not the sentinel and short enough for a line. */
  lemma WireRoundTrip(payloads: seq<string>)
    ensures Read(Wire(payloads)) == Reading(payloads, Sentinel) <==> forall p | p in payloads :: Sendable(p)
  {
    if Read(Wire(payloads)) == Reading(payloads, Sentinel) {
      JoinSplit(Wire(payloads), '\n');
      ReadPayloadsAreClean(Split(Wire(payloads), '\n'));
    }
    if forall p | p in payloads :: Clean(p) {
      CleanRoundTrip(payloads);
    }
  }

  /** One clean payload in front of anything. */
  lemma ReadClean(p: string, rest: string)
    requires Clean(p)
    ensures Read(Frame(p) + rest) ==
            if Sendable(p) then Reading([p] + Read(rest).payloads, Read(rest).end) else Reading([], LineTooLong)
  {
    hide Payload, DropCR, ByteLen, Read;
    ReadFrame(p, rest);
    TrimmedPayload(p);
  }

  lemma ReadSentinel()
    ensures Read(Frame(DONE)) == Reading([], Sentinel)
  {
    hide Read, Payload, DropCR, ByteLen, Frame;
    ReadFrame(DONE, "");
    TrimmedPayload(DONE);
    ShortText();
    ByteLenConcat("data: ", DONE);
    assert Frame(DONE) + "" == Frame(DONE);
  }

  lemma {:induction false} CleanRoundTrip(payloads: seq<string>)
    requires forall p | p in payloads :: Clean(p)
    ensures Read(Wire(payloads)) == Reading(payloads, Sentinel) <==> forall p | p in payloads :: Sendable(p)
  {
    hide Read, Frame, Sendable, Clean;
    if payloads == [] {
      assert Wire(payloads) == Frame(DONE);
      ReadSentinel();
    } else {
      var p, rest := payloads[0], payloads[1..];
      assert Wire(payloads) == Frame(p) + Wire(rest);
      ReadClean(p, Wire(rest));
      CleanRoundTrip(rest);
      assert payloads == [p] + rest;
    }
  }

  /** A response cut short after its frames reads as the same payloads, ending with the input. */
  lemma {:induction false} FramesRoundTrip(payloads: seq<string>)
    requires forall p | p in payloads :: Sendable(p)
    ensures Read(Frames(payloads)) == Reading(payloads, EndOfInput)
  {
    if payloads != [] {
      hide Read, Frame;
      var p, rest := payloads[0], payloads[1..];
      assert p in payloads && Sendable(p);
      ReadClean(p, Frames(rest));
      FramesRoundTrip(rest);
      assert payloads == [p] + rest;
    }
  }

  lemma {:induction false} FramesSnoc(payloads: seq<string>, p: string)
    ensures Frames(payloads + [p]) == Frames(payloads) + Frame(p)
  {
    if payloads == [] {
      assert [] + [p] == [p] && [p][1..] == [];
    } else {
      assert (payloads + [p])[1..] == payloads[1..] + [p];
      FramesSnoc(payloads[1..], p);
    }
  }

  // ---------------------------------------------------------------- a response cut short

  /** What is left of a payload whose frame was cut short. */
  predicate CutPayload(p: string, q: string) {
    exists m: nat :: m <= |p| && q == TrimSpace(p[..m])
  }

  /** A prefix of the payloads, the last of which may be cut short. */
  predicate CutOf(payloads: seq<string>, got: seq<string>) {
    && |got| <= |payloads| && (forall i | 0 <= i < |got| - 1 :: got[i] == payloads[i])
    && (got != [] ==> CutPayload(payloads[|got| - 1], got[|got| - 1]))
  }

  /** The data line of any text, whole or cut. */
  lemma DataPayload(p: string)
    ensures Payload(DropCR("data: " + p)) == Data(TrimSpace(p))
  {
    var line := "data: " + p;
    if p != "" && p[|p| - 1] == '\r' {
      var q := p[..|p| - 1];
      assert p == q + ['\r'] && DropCR(line) == "data: " + q;
      AfterPrefix(q);
      TrimSpaceIgnores(q, '\r');
    } else {
      assert DropCR(line) == line;
      AfterPrefix(p);
    }
  }

  lemma AfterPrefix(p: string)
    ensures Payload("data: " + p) == Data(TrimSpace(p))
  {
    var line := "data: " + p;
    assert line[..5] == "data:" && line[5..] == [' '] + p;
    TrimSpaceIgnores(p, ' ');
  }

  lemma PrefixFits(line: string, s: string)
    requires s <= line
    ensures ByteLen(s) <= ByteLen(line)
  {
    ByteLenConcat(s, line[|s|..]);
    assert line == s + line[|s|..];
  }

  /** What a line hands on. */
  function LinePayloads(line: string): seq<string> {
    match Payload(DropCR(line)) case Skipped => [] case Data(q) => if q == DONE then [] else [q]
  }

  /** Input of one line, with or without its terminator. */
  lemma ReadOneLine(s: string)
    requires '\n' !in s && ByteLen(s) < MAX_TOKEN
    ensures s != "" ==> Read(s).payloads == LinePayloads(s)
    ensures s != "" ==> Read(s + ['\n']).payloads == LinePayloads(s)
  {
    hide ByteLen, Payload, DropCR, Split;
    SplitWithoutSeparator(s, '\n');
    SplitAtSeparator(s, "", '\n');
    EmptyInput();
    assert s + ['\n'] + "" == s + ['\n'] && [s] + [""] == [s, ""];
    assert [s][1..] == [] && [s, ""][1..] == [""];
    if s != "" {
      assert [s][0] == s && Split(s, '\n') == [s] != [""];
      assert ReadLines([]) == Reading([], EndOfInput);
      assert forall q: string :: [q] + [] == [q];
    }
  }

  lemma EmptyInput()
    ensures Split("", '\n') == [""] && Read("").payloads == []
  {
  }

  /** A data line cut short hands on the payload cut short, if anything. */
  lemma CutLine(p: string, s: string)
    requires s <= "data: " + p
    ensures LinePayloads(s) == [] || (|LinePayloads(s)| == 1 && CutPayload(p, LinePayloads(s)[0]))
  {
    if |s| >= 6 {
      var m := |s| - 6;
      assert s == "data: " + p[..m];
      DataPayload(p[..m]);
    } else if |s| == 5 {
      assert s == "data:" && s[5..] == "" && p[..0] == "" && TrimSpace("") == "";
    }
  }

  /** One frame cut short. */
  lemma CutFrame(p: string, s: string)
    requires s <= Frame(p) && s != Frame(p) && '\n' !in p && ByteLen(p) + 6 < MAX_TOKEN
    ensures |Read(s).payloads| <= 1 && (Read(s).payloads != [] ==> CutPayload(p, Read(s).payloads[0]))
  {
    hide Read, LinePayloads, CutPayload, ByteLen;
    var line := "data: " + p;
    var cut := if |s| <= |line| then s else line;
    assert cut <= line && (|s| <= |line| || s == line + ['\n']);
    assert forall c | c in cut :: c in line;
    ShortText();
    ByteLenConcat("data: ", p);
    PrefixFits(line, cut);
    EmptyInput();
    ReadOneLine(cut);
    CutLine(p, cut);
  }

  /** Theorem: a response cut at any byte reads as a prefix of what was sent, of which only the last payload may
      be truncated. */
  lemma {:induction false} CutAnywhere(payloads: seq<string>, s: string)
    requires (forall p | p in payloads :: Sendable(p) || p == DONE) && s <= Frames(payloads)
    ensures CutOf(payloads, Read(s).payloads)
  {
    hide Read, Frame, CutPayload, Sendable;
    if payloads == [] {
      EmptyInput();
    } else {
      var p, rest := payloads[0], payloads[1..];
      assert p in payloads && payloads == [p] + rest;
      if Frame(p) <= s {
        var s' := s[|Frame(p)|..];
        assert s == Frame(p) + s' && s' <= Frames(rest);
        CutAnywhere(rest, s');
        WholeFrame(p, s');
        CutCons(p, rest, Read(s').payloads);
      } else {
        assert s <= Frame(p) && s != Frame(p);
        Fits(p);
        CutFrame(p, s);
      }
    }
  }

  lemma Fits(p: string)
    requires Sendable(p) || p == DONE
    ensures '\n' !in p && ByteLen(p) + 6 < MAX_TOKEN
  {
    ShortText();
    ByteLenConcat("data: ", DONE);
    hide ByteLen;
  }

  lemma WholeFrame(p: string, rest: string)
    requires Sendable(p) || p == DONE
    ensures Read(Frame(p) + rest).payloads == if p == DONE then [] else [p] + Read(rest).payloads
  {
    hide Read, Frame, ByteLen, Payload, DropCR;
    Fits(p);
    if p == DONE {
      ReadFrame(p, rest);
      TrimmedPayload(p);
    } else {
      ReadClean(p, rest);
    }
  }

  lemma CutCons(p: string, rest: seq<string>, got: seq<string>)
    requires CutOf(rest, got) && (Sendable(p) || p == DONE)
    ensures CutOf([p] + rest, []) && CutOf([p] + rest, [p] + got)
  {
    hide CutPayload;
    WholeIsCut(p);
  }

  lemma WholeIsCut(p: string)
    requires Sendable(p) || p == DONE
    ensures CutPayload(p, p)
  {
    TrimSpaceSpec(p);
    assert p[..|p|] == p;
  }
}
