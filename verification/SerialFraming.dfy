/** Serial commissioning: characters are gathered into lines of bounded length,
    and each complete line is a command for the session. */
module SerialFraming {
  import opened Text
  import opened Commissioning

  const MAX_LINE_LENGTH: nat := 128

  function WithoutCarriageReturn(line: string): string
  {
    if line != [] && line[|line| - 1] == '\r' then line[..|line| - 1] else line
  }

  /** One character: the lines completed by it (at most one), and the buffer. */
  function Received(buffer: string, c: char): (seq<string>, string)
  {
    if c == '\n' then ([WithoutCarriageReturn(buffer)], "")
    else if |buffer| >= MAX_LINE_LENGTH then ([], "")
    else ([], buffer + [c])
  }

  function Framed(buffer: string, input: string): (seq<string>, string)
    decreases |input|
  {
    if input == [] then ([], buffer)
    else
      var (lines, b) := Framed(buffer, input[..|input| - 1]);
      var (more, b') := Received(b, input[|input| - 1]);
      (lines + more, b')
  }

  function LinesApplied(accepts: Policy, s: SessionState, lines: seq<string>): (SessionState, seq<Response>)
    decreases |lines|
  {
    if lines == [] then (s, [])
    else
      var (t, responses) := LinesApplied(accepts, s, lines[..|lines| - 1]);
      var (u, response) := Applied(accepts, t, Parse(lines[|lines| - 1]));
      (u, responses + [response])
  }

  class SerialCommissioningAdapter {
    const session: CommissioningSession
    var lineBuffer: string

    constructor (session: CommissioningSession)
      ensures this.session == session && lineBuffer == ""
    {
      this.session := session;
      lineBuffer := "";
    }

    /** Reads the characters that are available; what is written back are the
        answers to the lines completed by them. */
    method Poll(available: string) returns (written: seq<Response>)
      modifies this, session, session.store
      ensures lineBuffer == Framed(old(lineBuffer), available).1
      ensures (session.State(), written)
              == LinesApplied(session.store.accepts, old(session.State()), Framed(old(lineBuffer), available).0)
    {
      written := [];
      ghost var before := lineBuffer;
      for i := 0 to |available|
        invariant lineBuffer == Framed(before, available[..i]).1
        invariant (session.State(), written)
                  == LinesApplied(session.store.accepts, old(session.State()), Framed(before, available[..i]).0)
      {
        assert available[..i + 1] == available[..i] + [available[i]];
        OneMoreCharacter(session.store.accepts, old(session.State()), before, available[..i], available[i]);
        var more := Receive(available[i]);
        assert written + [] == written;
        written := written + more;
      }
      assert available[..|available|] == available;
    }

    /** The body of the loop: one character. */
    method Receive(c: char) returns (written: seq<Response>)
      modifies this, session, session.store
      ensures lineBuffer == Received(old(lineBuffer), c).1
      ensures if c == '\n'
              then var (s, response) := Applied(session.store.accepts, old(session.State()),
                                                Parse(WithoutCarriageReturn(old(lineBuffer))));
                   session.State() == s && written == [response]
              else session.State() == old(session.State()) && written == []
    {
      written := [];
      if c == '\n' {
        if lineBuffer != "" && lineBuffer[|lineBuffer| - 1] == '\r' {
          lineBuffer := lineBuffer[..|lineBuffer| - 1];
        }
        var response := session.Apply(Parse(lineBuffer));
        written := [response];
        lineBuffer := "";
      } else if |lineBuffer| >= MAX_LINE_LENGTH {
        lineBuffer := "";
      } else {
        lineBuffer := lineBuffer + [c];
      }
    }
  }

  lemma OneMoreLine(accepts: Policy, s: SessionState, lines: seq<string>, line: string)
    ensures var (t, responses) := LinesApplied(accepts, s, lines);
            var (u, response) := Applied(accepts, t, Parse(line));
            LinesApplied(accepts, s, lines + [line]) == (u, responses + [response])
  {
    var all := lines + [line];
    assert all[..|all| - 1] == lines;
  }

  lemma OneMoreCharacter(accepts: Policy, s: SessionState, before: string, input: string, c: char)
    ensures var (lines, buffer) := Framed(before, input);
            var (t, responses) := LinesApplied(accepts, s, lines);
            var (u, response) := Applied(accepts, t, Parse(WithoutCarriageReturn(buffer)));
            && Framed(before, input + [c]).1 == Received(buffer, c).1
            && LinesApplied(accepts, s, Framed(before, input + [c]).0)
               == if c == '\n' then (u, responses + [response]) else (t, responses)
  {
    var (lines, buffer) := Framed(before, input);
    FramedStep(before, input, c);
    if c == '\n' {
      OneMoreLine(accepts, s, lines, WithoutCarriageReturn(buffer));
    } else {
      assert lines + [] == lines;
    }
  }

  lemma FramedStep(buffer: string, input: string, c: char)
    ensures Framed(buffer, input + [c]).0 == Framed(buffer, input).0 + Received(Framed(buffer, input).1, c).0
    ensures Framed(buffer, input + [c]).1 == Received(Framed(buffer, input).1, c).1
  {
    assert (input + [c])[..|input|] == input;
  }

  /** How the characters are split across polls makes no difference. */
  lemma {:induction false} SplitAnywhere(buffer: string, first: string, second: string)
    ensures Framed(buffer, first + second).0
            == Framed(buffer, first).0 + Framed(Framed(buffer, first).1, second).0
    ensures Framed(buffer, first + second).1 == Framed(Framed(buffer, first).1, second).1
    decreases |second|
  {
    if second == [] {
      assert first + second == first;
    } else {
      var n := |second| - 1;
      SplitAnywhere(buffer, first, second[..n]);
      assert second == second[..n] + [second[n]];
      SplitBeforeOne(buffer, first, second[..n], second[n]);
    }
  }

  lemma SplitBeforeOne(buffer: string, first: string, second: string, c: char)
    requires Framed(buffer, first + second).0
             == Framed(buffer, first).0 + Framed(Framed(buffer, first).1, second).0
    requires Framed(buffer, first + second).1 == Framed(Framed(buffer, first).1, second).1
    ensures Framed(buffer, first + (second + [c])).0
            == Framed(buffer, first).0 + Framed(Framed(buffer, first).1, second + [c]).0
    ensures Framed(buffer, first + (second + [c])).1 == Framed(Framed(buffer, first).1, second + [c]).1
  {
    var b := Framed(buffer, first).1;
    assert first + (second + [c]) == (first + second) + [c];
    FramedStep(buffer, first + second, c);
    FramedStep(b, second, c);
    LinesAdd(Framed(buffer, first).0, Framed(b, second).0, Received(Framed(b, second).1, c).0);
  }

  lemma LinesAdd(a: seq<string>, b: seq<string>, c: seq<string>)
    ensures (a + b) + c == a + (b + c)
  {}

  /** The buffer never outgrows the limit. */
  lemma {:induction false} BufferBounded(buffer: string, input: string)
    requires |buffer| <= MAX_LINE_LENGTH
    ensures |Framed(buffer, input).1| <= MAX_LINE_LENGTH
    decreases |input|
  {
    if input != [] { BufferBounded(buffer, input[..|input| - 1]); }
  }

  ghost predicate OneLine(line: string)
  {
    forall i :: 0 <= i < |line| ==> line[i] != '\n'
  }

  /** What is left of an unfinished line: every 129th character is dropped
      together with the 128 before it. */
  function Kept(line: string): string
  {
    line[(MAX_LINE_LENGTH + 1) * (|line| / (MAX_LINE_LENGTH + 1))..]
  }

  lemma {:induction false} UnfinishedLine(line: string)
    requires OneLine(line)
    ensures Framed("", line).0 == [] && Framed("", line).1 == Kept(line)
    decreases |line|
  {
    if line != [] {
      var n := |line| - 1;
      UnfinishedLine(line[..n]);
      FramedStep("", line[..n], line[n]);
      assert line == line[..n] + [line[n]];
      KeptStep(line[..n], line[n]);
    }
  }

  lemma KeptStep(line: string, c: char)
    ensures Kept(line + [c]) == if |Kept(line)| >= MAX_LINE_LENGTH then "" else Kept(line) + [c]
  {
    var m := MAX_LINE_LENGTH + 1;
    assert |Kept(line)| == |line| % m;
    if |line| % m == MAX_LINE_LENGTH {
      assert (|line| + 1) / m == |line| / m + 1;
    } else {
      assert (|line| + 1) / m == |line| / m;
    }
  }

  /** What is to arrive of a line: its suffix from the last multiple of 129, less
      one carriage return if it ends in one. */
  function Arriving(line: string): string
  {
    var rest := line[129 * (|line| / 129)..];
    if rest != "" && rest[|rest| - 1] == '\r' then rest[..|rest| - 1] else rest
  }

  /** From an empty buffer, every line arrives as just that. */
  lemma LineDelivered(line: string)
    requires OneLine(line)
    ensures Framed("", line + ['\n']).0 == [Arriving(line)]
    ensures Framed("", line + ['\n']).1 == ""
  {
    UnfinishedLine(line);
    FramedStep("", line, '\n');
  }

  /** So a line of up to 128 characters arrives whole, unless its last character
      is a carriage return. */
  lemma WholeLineDelivered(line: string)
    requires OneLine(line) && |line| <= 128 && (line != "" ==> line[|line| - 1] != '\r')
    ensures Framed("", line + ['\n']) == ([line], "")
  {
    LineDelivered(line);
  }

  /** With "\r\n" as its end, a line of up to 127 characters arrives whole. */
  lemma WholeLineWithReturnDelivered(line: string)
    requires OneLine(line) && |line| <= 127
    ensures Framed("", line + ['\r'] + ['\n']) == ([line], "")
  {
    LineDelivered(line + ['\r']);
    assert (line + ['\r'])[0..] == line + ['\r'];
  }

  /** And its command is what the session obeys and answers. */
  lemma TypedLineIsObeyed(accepts: Policy, s: SessionState, line: string)
    requires OneLine(line) && |line| <= 128 && (line != "" ==> line[|line| - 1] != '\r')
    ensures var (t, response) := Applied(accepts, s, Parse(line));
            LinesApplied(accepts, s, Framed("", line + ['\n']).0) == (t, [response])
  {
    WholeLineDelivered(line);
    var none: seq<Response> := [];
    OneMoreLine(accepts, s, [], line);
    assert [] + [line] == [line] && none + [Applied(accepts, s, Parse(line)).1] == [Applied(accepts, s, Parse(line)).1];
  }

  /** A line of up to 128 characters arrives whole; no longer one does. */
  lemma ShortLinesKept(line: string)
    ensures Kept(line) == line <==> |line| <= MAX_LINE_LENGTH
  {}

  function Terminated(lines: seq<string>): string
  {
    if lines == [] then "" else lines[0] + ['\n'] + Terminated(lines[1..])
  }

  function Delivered(lines: seq<string>): seq<string>
  {
    if lines == [] then [] else [Arriving(lines[0])] + Delivered(lines[1..])
  }

  /** Any sequence of lines is delivered line by line; an overlong line does not
      disturb its successors. */
  lemma {:induction false} LinesDelivered(lines: seq<string>)
    requires forall i :: 0 <= i < |lines| ==> OneLine(lines[i])
    ensures Framed("", Terminated(lines)).0 == Delivered(lines) && Framed("", Terminated(lines)).1 == ""
    decreases |lines|
  {
    if lines != [] {
      LineDelivered(lines[0]);
      LinesDelivered(lines[1..]);
      SplitAnywhere("", lines[0] + ['\n'], Terminated(lines[1..]));
    }
  }
}
