/** The Language Server Protocol's message framing: a length header, an empty line, and the body. */
module LspFraming {
  import opened SysmlModel
  import opened Scanning
  import opened Decimals

  type Byte = b: int | 0 <= b < 256

  const Newline: Byte := 10
  const MaxUsize: nat := 18446744073709551615

  /** Why reading a message fails: a header line is no text, or the body stops short. */
  datatype IoError = InvalidData | UnexpectedEof

  datatype Outcome = Message(body: seq<Byte>) | End | Broken(error: IoError)

  /** What was read, and where in the stream reading stopped. */
  datatype Reading = Reading(outcome: Outcome, next: nat)

  /** How bytes become text, which is the library's business: a line's bytes if they are text at all, and
      a body's bytes with whatever is not text replaced. */
  datatype Text = Text(decode: seq<Byte> -> Option<string>, lossy: seq<Byte> -> seq<Byte>)

  function Ascii(s: string): (bytes: seq<Byte>)
    requires IsAscii(s)
    ensures |bytes| == |s| && forall i :: 0 <= i < |s| ==> bytes[i] == s[i] as int
  {
    seq(|s|, i requires 0 <= i < |s| => s[i] as int)
  }

  predicate IsAscii(s: string) {
    forall i :: 0 <= i < |s| ==> s[i] < '\U{80}'
  }

  /** Plain ASCII stands for itself. */
  ghost predicate KeepsAscii(text: Text) {
    forall s :: IsAscii(s) ==> text.decode(Ascii(s)) == Some(s)
  }

  // ----- Writing -----

  function LengthLine(length: nat): string {
    "Content-Length: " + (Decimal(length) + "\r\n")
  }

  function HeaderText(length: nat): string {
    LengthLine(length) + "\r\n"
  }

  lemma {:induction false} HeaderIsAscii(length: nat)
    ensures IsAscii(HeaderText(length)) && IsAscii(LengthLine(length))
  {
    hide Decimal;
    forall i | 0 <= i < |Decimal(length)|
      ensures Decimal(length)[i] < '\U{80}'
    {
      assert IsDigit(Decimal(length)[i]);
    }
  }

  function Frame(body: seq<Byte>): seq<Byte> {
    HeaderIsAscii(|body|);
    Ascii(HeaderText(|body|)) + body
  }

  class Writer {
    var stream: seq<Byte>

    method WriteFramedMessage(body: seq<Byte>)
      modifies this
      ensures stream == old(stream) + Frame(body)
    {
      HeaderIsAscii(|body|);
      stream := stream + Ascii(HeaderText(|body|));
      stream := stream + body;
    }
  }

  // ----- Reading -----

  /** Just past the next end of line, or at the end of the stream. */
  function LineEnd(stream: seq<Byte>, pos: nat): (end: nat)
    requires pos <= |stream|
    ensures pos <= end <= |stream| && (pos < |stream| ==> pos < end)
    decreases |stream| - pos
  {
    if pos == |stream| then pos else if stream[pos] == Newline then pos + 1 else LineEnd(stream, pos + 1)
  }

  function TrimEndOfLine(s: string): string {
    if s != "" && (s[|s| - 1] == '\r' || s[|s| - 1] == '\n') then TrimEndOfLine(s[..|s| - 1]) else s
  }

  function TrimEnd(s: string): string {
    if s != "" && IsWhitespace(s[|s| - 1]) then TrimEnd(s[..|s| - 1]) else s
  }

  function Trim(s: string): string {
    if s != "" && IsWhitespace(s[0]) then Trim(s[1..]) else TrimEnd(s)
  }

  predicate AllDigits(s: string) {
    forall i :: 0 <= i < |s| ==> IsDigit(s[i])
  }

  /** An unsigned 64-bit integer: digits, after a plus sign if there is one. */
  function ParseUsize(s: string): Option<nat> {
    var digits := if |s| > 1 && s[0] == '+' then s[1..] else s;
    if digits == "" || !AllDigits(digits) || Value(digits) > MaxUsize then None else Some(Value(digits))
  }

  const LengthHeader := "Content-Length:"

  function StripPrefix(s: string, prefix: string): Option<string> {
    if prefix <= s then Some(s[|prefix|..]) else None
  }

  /** A header line's effect on the length read so far: the last length header counts, readable or not. */
  function LengthAfter(line: string, length: Option<nat>): Option<nat> {
    match StripPrefix(line, LengthHeader)
    case None => length
    case Some(value) => ParseUsize(Trim(value))
  }

  /** The header lines from `pos` on, then the body. */
  function MessageAt(text: Text, stream: seq<Byte>, pos: nat, length: Option<nat>): (r: Reading)
    requires pos <= |stream|
    ensures pos <= r.next <= |stream|
    decreases |stream| - pos
  {
    if pos == |stream| then Reading(End, pos)
    else
      var end := LineEnd(stream, pos);
      match text.decode(stream[pos..end])
      case None => Reading(Broken(InvalidData), end)
      case Some(line) =>
        var trimmed := TrimEndOfLine(line);
        if trimmed != "" then MessageAt(text, stream, end, LengthAfter(trimmed, length))
        else BodyAt(text, stream, end, length)
  }

  function BodyAt(text: Text, stream: seq<Byte>, pos: nat, length: Option<nat>): (r: Reading)
    requires pos <= |stream|
    ensures pos <= r.next <= |stream|
  {
    match length
    case None => Reading(End, pos)
    case Some(n) =>
      if pos + n > |stream| then Reading(Broken(UnexpectedEof), |stream|)
      else Reading(Message(text.lossy(stream[pos..pos + n])), pos + n)
  }

  class Reader {
    const stream: seq<Byte>
    var pos: nat

    ghost predicate Valid()
      reads this
    {
      pos <= |stream|
    }

    constructor (stream: seq<Byte>)
      ensures Valid() && this.stream == stream && pos == 0
    {
      this.stream, pos := stream, 0;
    }

    method ReadLine() returns (line: seq<Byte>)
      requires Valid()
      modifies this
      ensures Valid() && pos == LineEnd(stream, old(pos)) && line == stream[old(pos)..pos]
    {
      line := [];
      while pos < |stream|
        invariant Valid() && old(pos) <= pos && line == stream[old(pos)..pos]
        invariant LineEnd(stream, pos) == LineEnd(stream, old(pos))
      {
        line := line + [stream[pos]];
        pos := pos + 1;
        if line[|line| - 1] == Newline {
          return;
        }
      }
    }

    method ReadFramedMessage(text: Text) returns (outcome: Outcome)
      requires Valid()
      modifies this
      ensures Valid() && Reading(outcome, pos) == MessageAt(text, stream, old(pos), None)
    {
      hide LineEnd, TrimEndOfLine, LengthAfter;
      var contentLength: Option<nat> := None;
      while true
        invariant Valid() && MessageAt(text, stream, pos, contentLength) == MessageAt(text, stream, old(pos), None)
        decreases |stream| - pos
      {
        ghost var before := pos;
        var line := ReadLine();
        if line == [] {
          assert before == |stream|;
          return End;
        }
        var decoded := text.decode(line);
        if decoded.None? {
          return Broken(InvalidData);
        }
        var trimmed := TrimEndOfLine(decoded.value);
        if trimmed == "" {
          break;
        }
        contentLength := LengthAfter(trimmed, contentLength);
      }
      if contentLength.None? {
        return End;
      }
      if pos + contentLength.value > |stream| {
        pos := |stream|;
        return Broken(UnexpectedEof);
      }
      var body := stream[pos..pos + contentLength.value];
      pos := pos + contentLength.value;
      return Message(text.lossy(body));
    }
  }

  // ----- What was written is read -----

  lemma {:induction false} LineEndsAt(stream: seq<Byte>, pos: nat, end: nat)
    requires pos < end <= |stream| && stream[end - 1] == Newline
    requires forall i :: pos <= i < end - 1 ==> stream[i] != Newline
    ensures LineEnd(stream, pos) == end
    decreases end - pos
  {
    if pos < end - 1 {
      LineEndsAt(stream, pos + 1, end);
    }
  }

  lemma DigitsAreNoEnds(c: char)
    requires IsDigit(c)
    ensures !IsWhitespace(c) && c != '\n' && c != '\r' && c != '+'
  {
  }

  lemma TrimmedLine(s: string)
    requires s != "" && s[|s| - 1] != '\r' && s[|s| - 1] != '\n'
    ensures TrimEndOfLine(s + "\r\n") == s
  {
    assert (s + "\r\n")[..|s| + 1] == s + "\r";
    assert (s + "\r")[..|s|] == s;
    assert TrimEndOfLine(s + "\r\n") == TrimEndOfLine(s + "\r");
    assert TrimEndOfLine(s + "\r") == TrimEndOfLine(s);
  }

  lemma EmptyLine()
    ensures TrimEndOfLine("\r\n") == ""
  {
    assert "\r\n"[..1] == "\r" && "\r"[..0] == "";
  }

  lemma TrimmedValue(s: string)
    requires s != "" && !IsWhitespace(s[0]) && !IsWhitespace(s[|s| - 1])
    ensures Trim(" " + s) == s
  {
    hide IsWhitespace;
    assert (" " + s)[1..] == s;
    SpaceIsWhite();
  }

  lemma SpaceIsWhite()
    ensures IsWhitespace(' ')
  {
  }

  /** The length header reads back as the length it was written for. */
  lemma LengthReadsBack(n: nat, length: Option<nat>)
    requires n <= MaxUsize
    ensures TrimEndOfLine(LengthLine(n)) == "Content-Length: " + Decimal(n)
    ensures LengthAfter("Content-Length: " + Decimal(n), length) == Some(n)
  {
    hide Decimal, IsWhitespace, Value, Trim, TrimEndOfLine;
    var d := Decimal(n);
    DigitsAreNoEnds(d[0]);
    DigitsAreNoEnds(d[|d| - 1]);
    var line := "Content-Length: " + d;
    assert LengthLine(n) == line + "\r\n";
    TrimmedLine(line);
    assert line[..|LengthHeader|] == LengthHeader && line[|LengthHeader|..] == " " + d;
    TrimmedValue(d);
    DecimalReadsBack(n);
  }

  lemma NoNewlineInside(n: nat)
    ensures forall i :: 0 <= i < |LengthLine(n)| - 1 ==> LengthLine(n)[i] != '\n'
    ensures |LengthLine(n)| >= 2 && LengthLine(n)[|LengthLine(n)| - 1] == '\n'
  {
    hide Decimal;
    forall i | 0 <= i < |Decimal(n)|
      ensures Decimal(n)[i] != '\n'
    {
      DigitsAreNoEnds(Decimal(n)[i]);
    }
  }

  ghost predicate StandsAt(stream: seq<Byte>, pos: nat, bytes: seq<Byte>) {
    pos + |bytes| <= |stream| && stream[pos..pos + |bytes|] == bytes
  }

  lemma StandsTogether(stream: seq<Byte>, pos: nat, a: seq<Byte>, b: seq<Byte>)
    requires StandsAt(stream, pos, a + b)
    ensures StandsAt(stream, pos, a) && StandsAt(stream, pos + |a|, b)
  {
    assert stream[pos..pos + |a + b|][..|a|] == a;
    assert stream[pos..pos + |a + b|][|a|..] == b;
  }

  lemma LineIsRead(stream: seq<Byte>, pos: nat, line: string)
    requires IsAscii(line) && StandsAt(stream, pos, Ascii(line)) && line != "" && line[|line| - 1] == '\n'
    requires forall i :: 0 <= i < |line| - 1 ==> line[i] != '\n'
    ensures pos < |stream| && LineEnd(stream, pos) == pos + |line| && stream[pos..pos + |line|] == Ascii(line)
  {
    forall i | 0 <= i < |line|
      ensures stream[pos + i] == line[i] as int
    {
      assert stream[pos..pos + |line|][i] == Ascii(line)[i];
    }
    LineEndsAt(stream, pos, pos + |line|);
  }

  lemma FrameParts(body: seq<Byte>)
    ensures IsAscii(LengthLine(|body|)) && IsAscii("\r\n")
    ensures Frame(body) == Ascii(LengthLine(|body|)) + (Ascii("\r\n") + body)
  {
    hide Decimal;
    HeaderIsAscii(|body|);
    var line := LengthLine(|body|);
    assert Ascii(line + "\r\n") == Ascii(line) + Ascii("\r\n");
  }

  lemma HeaderStep(text: Text, stream: seq<Byte>, pos: nat, line: string, length: Option<nat>)
    requires KeepsAscii(text) && IsAscii(line) && pos < |stream| && LineEnd(stream, pos) == pos + |line|
    requires stream[pos..pos + |line|] == Ascii(line)
    ensures var end, trimmed := pos + |line|, TrimEndOfLine(line);
            MessageAt(text, stream, pos, length)
            == if trimmed != "" then MessageAt(text, stream, end, LengthAfter(trimmed, length))
              else BodyAt(text, stream, end, length)
  {
    hide LineEnd, TrimEndOfLine, LengthAfter;
    assert text.decode(Ascii(line)) == Some(line);
  }

  lemma BodyIsRead(text: Text, stream: seq<Byte>, pos: nat, body: seq<Byte>)
    requires StandsAt(stream, pos, body)
    ensures BodyAt(text, stream, pos, Some(|body|)) == Reading(Message(text.lossy(body)), pos + |body|)
  {
  }

  lemma FrameSize(body: seq<Byte>)
    ensures |Frame(body)| == |LengthLine(|body|)| + 2 + |body|
  {
    hide LengthLine;
  }

  /** A written message is read whole, and reading stops just behind it. */
  lemma FrameReadsBack(text: Text, stream: seq<Byte>, pos: nat, body: seq<Byte>)
    requires KeepsAscii(text) && |body| <= MaxUsize && StandsAt(stream, pos, Frame(body))
    ensures pos <= |stream| &&
            MessageAt(text, stream, pos, None) == Reading(Message(text.lossy(body)), pos + |Frame(body)|)
  {
    hide Decimal, LineEnd, LengthLine, Frame, TrimEndOfLine, LengthAfter, MessageAt, KeepsAscii, BodyAt, StandsAt;
    var line := LengthLine(|body|);
    FrameParts(body);
    FrameSize(body);
    StandsTogether(stream, pos, Ascii(line), Ascii("\r\n") + body);
    StandsTogether(stream, pos + |line|, Ascii("\r\n"), body);
    NoNewlineInside(|body|);
    LineIsRead(stream, pos, line);
    LengthReadsBack(|body|, None);
    var second := pos + |line|;
    LineIsRead(stream, second, "\r\n");
    EmptyLine();
    HeaderStep(text, stream, pos, line, None);
    HeaderStep(text, stream, second, "\r\n", Some(|body|));
    BodyIsRead(text, stream, second + 2, body);
  }

  function Frames(bodies: seq<seq<Byte>>): seq<Byte> {
    if bodies == [] then [] else Frame(bodies[0]) + Frames(bodies[1..])
  }

  /** What a client makes of a stream: it reads messages until there is none, or reading fails. */
  method ReadAll(text: Text, stream: seq<Byte>) returns (bodies: seq<seq<Byte>>, last: Outcome)
    ensures (bodies, last) == AllFrom(text, stream, 0)
  {
    hide MessageAt, AllFrom;
    var reader := new Reader(stream);
    bodies := [];
    GatherNothing(AllFrom(text, stream, 0));
    while true
      invariant reader.Valid() && reader.stream == stream
      invariant Gather(bodies, AllFrom(text, stream, reader.pos)) == AllFrom(text, stream, 0)
      decreases |stream| - reader.pos
    {
      ghost var before := reader.pos;
      last := reader.ReadFramedMessage(text);
      MessagesAdvance(text, stream, before, None);
      NextMessage(text, stream, before, bodies);
      if !last.Message? {
        return;
      }
      bodies := bodies + [last.body];
    }
  }

  function Gather(bodies: seq<seq<Byte>>, rest: (seq<seq<Byte>>, Outcome)): (seq<seq<Byte>>, Outcome) {
    (bodies + rest.0, rest.1)
  }

  lemma GatherNothing(rest: (seq<seq<Byte>>, Outcome))
    ensures Gather([], rest) == rest
  {
    assert [] + rest.0 == rest.0;
  }

  lemma NextMessage(text: Text, stream: seq<Byte>, pos: nat, bodies: seq<seq<Byte>>)
    requires pos <= |stream|
    ensures var r := MessageAt(text, stream, pos, None);
            Gather(bodies, AllFrom(text, stream, pos)) ==
            if r.outcome.Message? then Gather(bodies + [r.outcome.body], AllFrom(text, stream, r.next))
              else (bodies, r.outcome)
  {
    hide MessageAt;
    var r := MessageAt(text, stream, pos, None);
    if r.outcome.Message? {
      var rest := AllFrom(text, stream, r.next).0;
      assert bodies + ([r.outcome.body] + rest) == (bodies + [r.outcome.body]) + rest;
    } else {
      assert bodies + [] == bodies;
    }
  }

  lemma {:induction false} MessagesAdvance(text: Text, stream: seq<Byte>, pos: nat, length: Option<nat>)
    requires pos <= |stream|
    ensures MessageAt(text, stream, pos, length).outcome.Message? ==> MessageAt(text, stream, pos, length).next > pos
    decreases |stream| - pos
  {
    hide TrimEndOfLine, LengthAfter;
    if pos < |stream| {
      var end := LineEnd(stream, pos);
      if text.decode(stream[pos..end]).Some? {
        var trimmed := TrimEndOfLine(text.decode(stream[pos..end]).value);
        MessagesAdvance(text, stream, end, LengthAfter(trimmed, length));
      }
    }
  }

  function AllFrom(text: Text, stream: seq<Byte>, pos: nat): (seq<seq<Byte>>, Outcome)
    requires pos <= |stream|
    decreases |stream| - pos
  {
    var r := MessageAt(text, stream, pos, None);
    MessagesAdvance(text, stream, pos, None);
    if r.outcome.Message? then
      var rest := AllFrom(text, stream, r.next);
      ([r.outcome.body] + rest.0, rest.1)
    else ([], r.outcome)
  }

  lemma {:induction false} FramesReadBack(text: Text, stream: seq<Byte>, pos: nat, bodies: seq<seq<Byte>>)
    requires KeepsAscii(text) && forall b :: b in bodies ==> |b| <= MaxUsize && text.lossy(b) == b
    requires pos <= |stream| && stream[pos..] == Frames(bodies)
    ensures AllFrom(text, stream, pos) == (bodies, End)
    decreases |bodies|
  {
    hide MessageAt, Frame, KeepsAscii;
    if bodies == [] {
      NothingToRead(text, stream);
    } else {
      var first := Frame(bodies[0]);
      assert stream[pos..][..|first|] == first;
      FrameReadsBack(text, stream, pos, bodies[0]);
      assert stream[pos + |first|..] == stream[pos..][|first|..];
      FramesReadBack(text, stream, pos + |first|, bodies[1..]);
      assert bodies == [bodies[0]] + bodies[1..];
    }
  }

  lemma NothingToRead(text: Text, stream: seq<Byte>)
    ensures MessageAt(text, stream, |stream|, None) == Reading(End, |stream|)
  {
  }

  /** Any messages written one after the other are read one after the other, and then comes the end. */
  lemma StreamReadsBack(text: Text, bodies: seq<seq<Byte>>)
    requires KeepsAscii(text) && forall b :: b in bodies ==> |b| <= MaxUsize && text.lossy(b) == b
    ensures AllFrom(text, Frames(bodies), 0) == (bodies, End)
  {
    hide KeepsAscii, AllFrom, Frames;
    assert Frames(bodies)[0..] == Frames(bodies);
    FramesReadBack(text, Frames(bodies), 0, bodies);
  }
}
