/** The fixture server's event-stream bodies and the event-stream parser they are meant for.

The parser follows sections 9.2.5 and 9.2.6 of the WHATWG HTML Living Standard. Bodies are modelled
as characters: CR, LF, the colon and the field names are ASCII, so UTF-8 encoding does not change
where lines end.
*/
module EventStream {

  // ----- The printer

  datatype Framing = Plain | CrComments | CommentFlood

  const COMMENT_LINE_BYTES := 2048
  const COMMENT_LINE_COUNT := 8 * 1024 * 1024 / COMMENT_LINE_BYTES + 1

  function Repeat(s: string, n: nat): string {
    if n == 0 then "" else s + Repeat(s, n - 1)
  }

  /** One keep-alive comment of the flood, without its line end. */
  function FloodComment(): string {
    ": reviewer keepalive " + Repeat("x", COMMENT_LINE_BYTES - 21 - 1)
  }

  function Prefix(framing: Framing): string {
    match framing
    case Plain => ""
    case CrComments => ": reviewer keepalive\r"
    case CommentFlood => Repeat(FloodComment() + "\r", COMMENT_LINE_COUNT)
  }

  function LineEnd(framing: Framing): char {
    if framing == Plain then '\n' else '\r'
  }

  function Frames(framing: Framing, messages: seq<string>): string {
    if messages == [] then ""
    else "data: " + messages[0] + [LineEnd(framing), LineEnd(framing)] + Frames(framing, messages[1..])
  }

  /** `messages` are JSON texts, which hold no raw CR or LF. */
  function Encode(framing: Framing, messages: seq<string>): string {
    Prefix(framing) + Frames(framing, messages)
  }

  predicate OneLine(s: string) {
    forall i :: 0 <= i < |s| ==> s[i] != '\r' && s[i] != '\n'
  }

  // ----- The parser

  /** The ended lines of a stream: a line ends at CRLF, at LF, or at a CR that no LF follows. */
  function Lines(s: string, line: string): seq<string> {
    if s == [] then []
    else if s[0] == '\n' then [line] + Lines(s[1..], "")
    else if s[0] == '\r' then
      if |s| > 1 && s[1] == '\n' then [line] + Lines(s[2..], "") else [line] + Lines(s[1..], "")
    else Lines(s[1..], line + [s[0]])
  }

  datatype Event = Event(kind: string, data: string, lastId: string)

  /** The parser's buffers and the events dispatched so far. */
  datatype Parser = Parser(data: string, kind: string, lastId: string, retry: string, events: seq<Event>)

  const EMPTY := Parser("", "", "", "", [])

  function FirstColon(line: string): (r: nat)
    ensures r <= |line|
    ensures r < |line| ==> line[r] == ':'
    ensures forall i :: 0 <= i < r ==> line[i] != ':'
  {
    if line == [] || line[0] == ':' then 0 else 1 + FirstColon(line[1..])
  }

  function FieldValue(rest: string): string {
    if rest != [] && rest[0] == ' ' then rest[1..] else rest
  }

  function Digits(s: string): bool {
    forall i :: 0 <= i < |s| ==> '0' <= s[i] <= '9'
  }

  function Field(p: Parser, name: string, value: string): Parser {
    if name == "event" then p.(kind := value)
    else if name == "data" then p.(data := p.data + value + "\n")
    else if name == "id" then if '\0' in value then p else p.(lastId := value)
    else if name == "retry" then if Digits(value) then p.(retry := value) else p
    else p
  }

  function Dispatch(p: Parser): Parser {
    if p.data == [] then p.(kind := "")
    else
      var data := if p.data[|p.data|-1] == '\n' then p.data[..|p.data|-1] else p.data;
      p.(data := "", kind := "",
         events := p.events + [Event(if p.kind == [] then "message" else p.kind, data, p.lastId)])
  }

  function ProcessLine(p: Parser, line: string): Parser {
    if line == [] then Dispatch(p)
    else if line[0] == ':' then p
    else
      var colon := FirstColon(line);
      if colon < |line| then Field(p, line[..colon], FieldValue(line[colon+1..])) else Field(p, line, "")
  }

  function Process(p: Parser, lines: seq<string>): Parser
    decreases |lines|
  {
    if lines == [] then p else Process(ProcessLine(p, lines[0]), lines[1..])
  }

  function WithoutBom(s: string): string {
    if s != [] && s[0] == '\U{FEFF}' then s[1..] else s
  }

  /** Every event a stream dispatches before it ends. */
  function Parse(stream: string): seq<Event> {
    Process(EMPTY, Lines(WithoutBom(stream), "")).events
  }

  // ----- The printed stream parses back

  lemma {:induction false} LinesOfText(text: string, rest: string, line: string)
    requires OneLine(text)
    ensures Lines(text + rest, line) == Lines(rest, line + text)
  {
    if text == [] {
      assert text + rest == rest && line + text == line;
    } else {
      assert (text + rest)[1..] == text[1..] + rest;
      assert line + [text[0]] + text[1..] == line + text;
      LinesOfText(text[1..], rest, line + [text[0]]);
    }
  }

  lemma EndedLine(text: string, end: char, rest: string)
    requires OneLine(text) && (end == '\n' || (end == '\r' && !("\n" <= rest)))
    ensures Lines(text + ([end] + rest), "") == [text] + Lines(rest, "")
  {
    LinesOfText(text, [end] + rest, "");
    assert "" + text == text;
    assert ([end] + rest)[1..] == rest;
  }

  /** The lines of the frames: each message on a data line, then an empty line. */
  function FrameLines(messages: seq<string>): seq<string> {
    if messages == [] then [] else ["data: " + messages[0], ""] + FrameLines(messages[1..])
  }

  lemma LinesOfFrame(line: string, end: char, rest: string)
    requires OneLine(line) && (end == '\n' || end == '\r') && !("\n" <= rest)
    ensures Lines(line + [end, end] + rest, "") == [line, ""] + Lines(rest, "")
  {
    var tail := [end] + rest;
    assert tail[0] == end;
    assert line + [end, end] + rest == line + ([end] + tail);
    assert "" + tail == tail;
    EndedLine(line, end, tail);
    EndedLine("", end, rest);
  }

  lemma DataLineIsOneLine(message: string)
    requires OneLine(message)
    ensures OneLine("data: " + message)
    ensures forall tail :: !("\n" <= "data: " + message + tail)
  {
    assert OneLine("data: ");
    forall tail ensures !("\n" <= "data: " + message + tail) {
      assert ("data: " + message + tail)[0] == 'd';
    }
  }

  lemma {:induction false} LinesOfFrames(framing: Framing, messages: seq<string>)
    requires forall i :: 0 <= i < |messages| ==> OneLine(messages[i])
    ensures Lines(Frames(framing, messages), "") == FrameLines(messages)
    ensures !("\n" <= Frames(framing, messages))
  {
    if messages != [] {
      var end, rest := LineEnd(framing), Frames(framing, messages[1..]);
      LinesOfFrames(framing, messages[1..]);
      DataLineIsOneLine(messages[0]);
      LinesOfFrame("data: " + messages[0], end, rest);
      assert Frames(framing, messages) == "data: " + messages[0] + ([end, end] + rest);
    }
  }

  ghost function Messages(texts: seq<string>): seq<Event> {
    seq(|texts|, i requires 0 <= i < |texts| => Event("message", texts[i], ""))
  }

  lemma DataLine(p: Parser, message: string)
    requires p.data == "" && p.kind == "" && p.lastId == ""
    ensures Dispatch(ProcessLine(p, "data: " + message)) == p.(events := p.events + [Event("message", message, "")])
  {
    var line := "data: " + message;
    assert line[0] == 'd' && line[1] == 'a' && line[2] == 't' && line[3] == 'a' && line[4] == ':';
    assert FirstColon(line) == 4;
    assert line[..4] == "data" && line[5..] == " " + message;
    assert (" " + message)[1..] == message;
    assert "" + message + "\n" == message + "\n";
    assert (message + "\n")[..|message|] == message;
  }

  lemma ProcessFrame(p: Parser, line: string, rest: seq<string>)
    ensures Process(p, [line, ""] + rest) == Process(Dispatch(ProcessLine(p, line)), rest)
  {
    var lines := [line, ""] + rest;
    assert lines[0] == line && lines[1..][0] == "" && lines[1..][1..] == rest;
  }

  lemma MessageFrame(p: Parser, message: string, rest: seq<string>)
    requires p.data == "" && p.kind == "" && p.lastId == ""
    ensures Process(p, ["data: " + message, ""] + rest)
      == Process(p.(events := p.events + [Event("message", message, "")]), rest)
  {
    DataLine(p, message);
    ProcessFrame(p, "data: " + message, rest);
  }

  lemma FirstMessage(events: seq<Event>, messages: seq<string>)
    requires messages != []
    ensures events + [Event("message", messages[0], "")] + Messages(messages[1..]) == events + Messages(messages)
  {
    assert Messages(messages) == [Event("message", messages[0], "")] + Messages(messages[1..]);
  }

  lemma {:induction false} ProcessFrames(p: Parser, messages: seq<string>)
    requires p.data == "" && p.kind == "" && p.lastId == ""
    ensures Process(p, FrameLines(messages)) == p.(events := p.events + Messages(messages))
    decreases |messages|
  {
    if messages == [] {
      assert p.events + Messages(messages) == p.events;
    } else {
      MessageFrame(p, messages[0], FrameLines(messages[1..]));
      ProcessFrames(p.(events := p.events + [Event("message", messages[0], "")]), messages[1..]);
      FirstMessage(p.events, messages);
    }
  }

  lemma {:induction false} CommentsIgnored(comment: string, n: nat, rest: string)
    requires OneLine(comment) && ":" <= comment && !("\n" <= rest)
    ensures Process(EMPTY, Lines(Repeat(comment + "\r", n) + rest, "")) == Process(EMPTY, Lines(rest, ""))
    ensures !("\n" <= Repeat(comment + "\r", n) + rest)
  {
    if n == 0 {
      assert Repeat(comment + "\r", 0) + rest == rest;
    } else {
      var more := Repeat(comment + "\r", n - 1) + rest;
      CommentsIgnored(comment, n - 1, rest);
      assert Repeat(comment + "\r", n) + rest == comment + (['\r'] + more);
      EndedLine(comment, '\r', more);
      assert ([comment] + Lines(more, ""))[1..] == Lines(more, "");
    }
  }

  lemma {:induction false} RepeatOneLine(s: string, n: nat)
    requires OneLine(s)
    ensures OneLine(Repeat(s, n))
  {
    if n > 0 { RepeatOneLine(s, n - 1); }
  }

  lemma ParseFrames(framing: Framing, messages: seq<string>)
    requires forall i :: 0 <= i < |messages| ==> OneLine(messages[i])
    ensures Process(EMPTY, Lines(Frames(framing, messages), "")).events == Messages(messages)
    ensures !("\n" <= Frames(framing, messages))
  {
    LinesOfFrames(framing, messages);
    ProcessFrames(EMPTY, messages);
    assert [] + Messages(messages) == Messages(messages);
  }

  lemma ParseAfterComments(comment: string, n: nat, frames: string)
    requires OneLine(comment) && ":" <= comment && !("\n" <= frames) && n > 0
    ensures Parse(Repeat(comment + "\r", n) + frames) == Process(EMPTY, Lines(frames, "")).events
  {
    CommentsIgnored(comment, n, frames);
    var body := Repeat(comment + "\r", n) + frames;
    assert Repeat(comment + "\r", n) == comment + "\r" + Repeat(comment + "\r", n - 1);
    assert body[0] == comment[0] == ':';
  }

  lemma ParsePlain(messages: seq<string>)
    ensures Parse(Frames(Plain, messages)) == Process(EMPTY, Lines(Frames(Plain, messages), "")).events
  {
    var frames := Frames(Plain, messages);
    assert messages != [] ==> frames[0] == 'd';
  }

  /** Whatever the framing, a conforming parser gets back exactly the messages, in order. */
  lemma ParseEncoded(framing: Framing, messages: seq<string>)
    requires forall i :: 0 <= i < |messages| ==> OneLine(messages[i])
    ensures Parse(Encode(framing, messages)) == Messages(messages)
  {
    var frames := Frames(framing, messages);
    ParseFrames(framing, messages);
    match framing
    case Plain =>
      ParsePlain(messages);
      assert Encode(framing, messages) == frames;
    case CrComments =>
      var comment := ": reviewer keepalive";
      assert Repeat(comment + "\r", 1) == Prefix(framing);
      ParseAfterComments(comment, 1, frames);
    case CommentFlood =>
      FloodIsComment();
      ParseAfterComments(FloodComment(), COMMENT_LINE_COUNT, frames);
  }

  lemma FloodIsComment()
    ensures OneLine(FloodComment()) && ":" <= FloodComment()
  {
    RepeatOneLine("x", COMMENT_LINE_BYTES - 21 - 1);
    assert OneLine(": reviewer keepalive ");
  }

  lemma {:induction false} RepeatLength(s: string, n: nat)
    ensures |Repeat(s, n)| == |s| * n
  {
    if n > 0 { RepeatLength(s, n - 1); }
  }

  /** The flood's comments alone exceed the 8 MiB event limit, in lines of exactly 2048 bytes. */
  lemma FloodExceedsEventLimit()
    ensures |FloodComment()| + 1 == COMMENT_LINE_BYTES
    ensures |Prefix(CommentFlood)| > 8 * 1024 * 1024
  {
    RepeatLength("x", COMMENT_LINE_BYTES - 21 - 1);
    RepeatLength(FloodComment() + "\r", COMMENT_LINE_COUNT);
  }

  // ----- What each framing looks like

  function Copies(comment: string, n: nat): seq<string> {
    if n == 0 then [] else [comment] + Copies(comment, n - 1)
  }

  /** The comment lines ahead of the messages. */
  function Comments(framing: Framing): seq<string> {
    match framing
    case Plain => []
    case CrComments => [": reviewer keepalive"]
    case CommentFlood => Copies(FloodComment(), COMMENT_LINE_COUNT)
  }

  lemma FirstComment(comment: string, n: nat, rest: string)
    requires n > 0
    ensures Repeat(comment + "\r", n) + rest == comment + (['\r'] + (Repeat(comment + "\r", n - 1) + rest))
  {
  }

  lemma FirstCopy(comment: string, n: nat, lines: seq<string>)
    requires n > 0
    ensures [comment] + (Copies(comment, n - 1) + lines) == Copies(comment, n) + lines
  {
  }

  lemma {:induction false} LinesAfterComments(comment: string, n: nat, rest: string, body: string)
    requires OneLine(comment) && ":" <= comment && !("\n" <= rest)
    requires body == Repeat(comment + "\r", n) + rest
    ensures Lines(body, "") == Copies(comment, n) + Lines(rest, "")
    ensures !("\n" <= body)
  {
    if n == 0 {
      assert body == rest;
    } else {
      var more := Repeat(comment + "\r", n - 1) + rest;
      LinesAfterComments(comment, n - 1, rest, more);
      FirstComment(comment, n, rest);
      EndedLine(comment, '\r', more);
      FirstCopy(comment, n, Lines(rest, ""));
    }
  }

  lemma OneComment(frames: string)
    requires !("\n" <= frames)
    ensures Lines(": reviewer keepalive\r" + frames, "") == [": reviewer keepalive"] + Lines(frames, "")
  {
    var comment := ": reviewer keepalive";
    assert ": reviewer keepalive\r" + frames == comment + (['\r'] + frames);
    EndedLine(comment, '\r', frames);
  }

  lemma PlainLines(messages: seq<string>)
    requires forall i :: 0 <= i < |messages| ==> OneLine(messages[i])
    ensures Lines(Encode(Plain, messages), "") == FrameLines(messages)
  {
    LinesOfFrames(Plain, messages);
    assert Encode(Plain, messages) == Frames(Plain, messages);
  }

  lemma CommentLines(comment: string, n: nat, framing: Framing, messages: seq<string>)
    requires OneLine(comment) && ":" <= comment && Prefix(framing) == Repeat(comment + "\r", n)
    requires forall i :: 0 <= i < |messages| ==> OneLine(messages[i])
    ensures Lines(Encode(framing, messages), "") == Copies(comment, n) + FrameLines(messages)
  {
    LinesOfFrames(framing, messages);
    LinesAfterComments(comment, n, Frames(framing, messages), Encode(framing, messages));
  }

  /** Every body consists of its comment lines and one data line and one empty line per message. */
  lemma EncodedLines(framing: Framing, messages: seq<string>)
    requires forall i :: 0 <= i < |messages| ==> OneLine(messages[i])
    ensures Lines(Encode(framing, messages), "") == Comments(framing) + FrameLines(messages)
  {
    match framing
    case Plain => PlainLines(messages);
    case CrComments =>
      LinesOfFrames(framing, messages);
      OneComment(Frames(framing, messages));
    case CommentFlood =>
      FloodIsComment();
      CommentLines(FloodComment(), COMMENT_LINE_COUNT, framing, messages);
  }

  lemma {:induction false} FramesEnds(framing: Framing, messages: seq<string>)
    requires forall i :: 0 <= i < |messages| ==> OneLine(messages[i])
    ensures (if framing == Plain then '\r' else '\n') !in Frames(framing, messages)
  {
    if messages != [] {
      FramesEnds(framing, messages[1..]);
      DataLineIsOneLine(messages[0]);
    }
  }

  lemma {:induction false} RepeatWithout(s: string, n: nat, c: char)
    requires c !in s
    ensures c !in Repeat(s, n)
  {
    if n > 0 { RepeatWithout(s, n - 1, c); }
  }

  /** A plain body has no CR and the reviewer framings no LF: all their lines end in a bare CR. */
  lemma EncodedEnds(framing: Framing, messages: seq<string>)
    requires forall i :: 0 <= i < |messages| ==> OneLine(messages[i])
    ensures (if framing == Plain then '\r' else '\n') !in Encode(framing, messages)
  {
    FramesEnds(framing, messages);
    FloodIsComment();
    RepeatWithout(FloodComment() + "\r", COMMENT_LINE_COUNT, '\n');
  }
}
