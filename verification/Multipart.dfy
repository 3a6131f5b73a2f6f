/** The multipart stream a viewer receives: the framing loop of `internal/camera/broadcaster.go`. */
module Multipart {
  import opened Basics
  import opened Framing

  /** The bytes of a text; what a reader relies on is that ASCII characters keep their codes. */
  function Ascii(text: string): (bytes: seq<byte>)
    ensures |bytes| == |text|
    ensures forall i :: 0 <= i < |text| && text[i] as int < 128 ==> bytes[i] == text[i] as int
  {
    seq(|text|, i requires 0 <= i < |text| => text[i] as int % 256)
  }

  const BOUNDARY := "frame"

  /** The content type of the response. */
  const CONTENT_TYPE := "multipart/x-mixed-replace; boundary" + "=" + BOUNDARY

  const TYPE_LINE := "Content-Type: image/jpeg"
  const CRLF: seq<byte> := [13, 10]

  /** Decimal text without leading zeros, as `%d` prints it. */
  function Decimal(n: nat): seq<byte> {
    if n < 10 then [48 + n] else Decimal(n / 10) + [48 + n % 10]
  }

  function LengthLine(n: nat): seq<byte> {
    Ascii("Content-Length: ") + Decimal(n)
  }

  function Header(length: nat): seq<byte> {
    Ascii("--" + BOUNDARY) + CRLF + Ascii(TYPE_LINE) + CRLF + LengthLine(length) + CRLF + CRLF
  }

  function Part(f: Frame): seq<byte> {
    Header(|f|) + f + CRLF
  }

  // ---- A reader that knows only what the response announces

  /** The text behind the first equals sign of a content type. */
  function BoundaryOf(contentType: string): Option<string> {
    if contentType == "" then None
    else if contentType[0] == '=' then Some(contentType[1..])
    else BoundaryOf(contentType[1..])
  }

  function Text(b: seq<byte>): (text: string)
    ensures |text| == |b|
  {
    seq(|b|, i requires 0 <= i < |b| => b[i] as char)
  }

  /** What comes before the first line end, and what comes after it. */
  function Line(b: seq<byte>): (r: Option<(seq<byte>, seq<byte>)>)
    ensures r.Some? ==> |r.value.1| < |b|
  {
    if |b| < 2 then None
    else if b[0] == 13 && b[1] == 10 then Some(([], b[2..]))
    else match Line(b[1..])
         case None => None
         case Some((line, rest)) => Some(([b[0]] + line, rest))
  }

  /** Header lines up to the empty one, and the body after it. */
  function Headers(b: seq<byte>): (r: Option<(seq<string>, seq<byte>)>)
    ensures r.Some? ==> |r.value.1| < |b|
    decreases |b|
  {
    match Line(b)
    case None => None
    case Some((line, rest)) =>
      if line == [] then Some(([], rest))
      else match Headers(rest)
           case None => None
           case Some((more, body)) => Some(([Text(line)] + more, body))
  }

  /** The value of the first header with that name. */
  function Field(headers: seq<string>, name: string): Option<string> {
    if headers == [] then None
    else if name + ": " <= headers[0] then Some(headers[0][|name| + 2..])
    else Field(headers[1..], name)
  }

  predicate Digits(text: string) {
    forall i :: 0 <= i < |text| ==> '0' <= text[i] <= '9'
  }

  function Value(digits: string): nat
    requires Digits(digits)
  {
    if digits == "" then 0 else
      var last := digits[|digits| - 1];
      assert '0' <= last <= '9';
      10 * Value(digits[..|digits| - 1]) + (last as int - '0' as int)
  }

  function Length(headers: seq<string>): Option<nat> {
    match Field(headers, "Content-Length")
    case None => None
    case Some(digits) => if digits != "" && Digits(digits) then Some(Value(digits)) else None
  }

  /** Boundary line, headers, as many bytes as they say, and a line end. The boundary is never looked for in a frame. */
  function ReadPart(boundary: string, b: seq<byte>): (r: Option<(Frame, seq<byte>)>)
    ensures r.Some? ==> |r.value.1| < |b|
  {
    match Line(b)
    case None => None
    case Some((line, rest)) =>
      if Text(line) != "--" + boundary then None
      else match Headers(rest)
           case None => None
           case Some((headers, body)) => if Length(headers).None? then None else ReadBody(Length(headers).value, body)
  }

  function ReadBody(n: nat, b: seq<byte>): (r: Option<(Frame, seq<byte>)>)
    ensures r.Some? ==> |r.value.1| < |b|
  {
    if n <= |b| && CRLF <= b[n..] then Some((b[..n], b[n..][|CRLF|..])) else None
  }

  /** The part at the head of `b`, by the boundary the response announces. */
  function DecodePart(b: seq<byte>): (r: Option<(Frame, seq<byte>)>)
    ensures r.Some? ==> |r.value.1| < |b|
  {
    match BoundaryOf(CONTENT_TYPE)
    case None => None
    case Some(boundary) => ReadPart(boundary, b)
  }

  // ---- It reads back what is written

  lemma {:induction false} BoundaryBehind(before: string, boundary: string)
    requires '=' !in before
    ensures BoundaryOf(before + "=" + boundary) == Some(boundary)
  {
    var whole := before + "=" + boundary;
    if before == "" {
      assert whole[1..] == boundary;
    } else {
      assert whole[1..] == before[1..] + "=" + boundary;
      BoundaryBehind(before[1..], boundary);
    }
  }

  lemma AnnouncesFrame()
    ensures BoundaryOf(CONTENT_TYPE) == Some("frame")
  {
    BoundaryBehind("multipart/x-mixed-replace; boundary", BOUNDARY);
  }

  lemma SplitAt(a: seq<byte>, b: seq<byte>)
    ensures a <= a + b && (a + b)[..|a|] == a && (a + b)[|a|..] == b
  {
  }

  lemma {:induction false} LineReadBack(line: seq<byte>, rest: seq<byte>)
    requires 13 !in line
    ensures Line(line + CRLF + rest) == Some((line, rest))
  {
    var b := line + CRLF + rest;
    if line == [] {
      assert b[2..] == rest;
    } else {
      LineReadBack(line[1..], rest);
      assert b[1..] == line[1..] + CRLF + rest;
      assert [line[0]] + line[1..] == line;
    }
  }

  /** Printable text. */
  predicate Plain(text: string) {
    forall i :: 0 <= i < |text| ==> ' ' <= text[i] <= '~'
  }

  lemma AsciiReadBack(text: string)
    requires Plain(text)
    ensures Text(Ascii(text)) == text && 13 !in Ascii(text)
  {
  }

  lemma {:induction false} DecimalInverts(n: nat)
    ensures |Decimal(n)| > 0
    ensures forall i :: 0 <= i < |Decimal(n)| ==> 48 <= Decimal(n)[i] <= 57
    ensures Value(Text(Decimal(n))) == n
    ensures |Decimal(n)| > 1 ==> Decimal(n)[0] != 48
  {
    var digits := Decimal(n);
    if n < 10 {
      assert Text(digits)[..0] == "";
    } else {
      DecimalInverts(n / 10);
      assert Text(digits)[..|digits| - 1] == Text(Decimal(n / 10));
    }
  }

  lemma LengthLineReadBack(n: nat)
    ensures 13 !in LengthLine(n) && LengthLine(n) != []
    ensures Text(LengthLine(n)) == "Content-Length: " + Text(Decimal(n))
    ensures Digits(Text(Decimal(n))) && Text(Decimal(n)) != "" && Value(Text(Decimal(n))) == n
  {
    DecimalInverts(n);
    AsciiReadBack("Content-Length: ");
    assert Text(LengthLine(n)) == Text(Ascii("Content-Length: ")) + Text(Decimal(n));
  }

  /** The header lines of a part with a frame of `n` bytes. */
  function PartHeaders(n: nat): seq<string> {
    ["Content-Type: image/jpeg", "Content-Length: " + Text(Decimal(n))]
  }

  lemma OneHeader(line: seq<byte>, rest: seq<byte>)
    requires line != [] && 13 !in line && Headers(rest).Some?
    ensures Headers(line + CRLF + rest) == Some(([Text(line)] + Headers(rest).value.0, Headers(rest).value.1))
  {
    LineReadBack(line, rest);
  }

  lemma NoMoreHeaders(body: seq<byte>)
    ensures Headers(CRLF + body) == Some(([], body))
  {
    LineReadBack([], body);
    assert [] + CRLF + body == CRLF + body;
  }

  lemma HeadersReadBack(n: nat, body: seq<byte>)
    ensures Headers(Ascii(TYPE_LINE) + CRLF + (LengthLine(n) + CRLF + (CRLF + body))) == Some((PartHeaders(n), body))
  {
    AsciiReadBack(TYPE_LINE);
    assert |TYPE_LINE| == 24 && Ascii(TYPE_LINE) != [];
    LengthLineReadBack(n);
    NoMoreHeaders(body);
    OneHeader(LengthLine(n), CRLF + body);
    OneHeader(Ascii(TYPE_LINE), LengthLine(n) + CRLF + (CRLF + body));
    assert [TYPE_LINE] + ([Text(LengthLine(n))] + []) == PartHeaders(n);
  }

  /** Their length is the frame's, and their type says JPEG. */
  lemma HeadersSay(n: nat)
    ensures Field(PartHeaders(n), "Content-Type") == Some("image/jpeg")
    ensures Length(PartHeaders(n)) == Some(n)
  {
    var headers := PartHeaders(n);
    LengthLineReadBack(n);
    assert "Content-Type" + ": " <= headers[0] && headers[0][14..] == "image/jpeg";
    assert ("Content-Length" + ": ")[8] != headers[0][8];
    assert Field(headers, "Content-Length") == Field(headers[1..], "Content-Length");
    var line := headers[1..][0];
    assert line == "Content-Length: " + Text(Decimal(n)) && "Content-Length" + ": " <= line;
    assert line[16..] == Text(Decimal(n));
  }

  /** A part is read back whole, whatever its frame holds and whatever follows. */
  lemma PartReadBack(f: Frame, rest: seq<byte>)
    ensures DecodePart(Part(f) + rest) == Some((f, rest))
  {
    var body := f + (CRLF + rest);
    var headed := Ascii(TYPE_LINE) + CRLF + (LengthLine(|f|) + CRLF + (CRLF + body));
    AnnouncesFrame();
    PartLines(f, rest);
    AsciiReadBack("--frame");
    LineReadBack(Ascii("--frame"), headed);
    HeadersReadBack(|f|, body);
    HeadersSay(|f|);
    SplitAt(f, CRLF + rest);
    SplitAt(CRLF, rest);
  }

  lemma PartLines(f: Frame, rest: seq<byte>)
    ensures Part(f) + rest ==
            Ascii("--frame") + CRLF +
            (Ascii(TYPE_LINE) + CRLF + (LengthLine(|f|) + CRLF + (CRLF + (f + (CRLF + rest)))))
  {
    assert "--" + BOUNDARY == "--frame";
  }

  /** What a reader of the part is told about it. */
  lemma PartIsJpeg(f: Frame, rest: seq<byte>)
    ensures var line := Line(Part(f) + rest);
            && line.Some? && Text(line.value.0) == "--frame"
            && var headers := Headers(line.value.1);
               && headers.Some? && Field(headers.value.0, "Content-Type") == Some("image/jpeg")
               && Length(headers.value.0) == Some(|f|)
  {
    PartLines(f, rest);
    AsciiReadBack("--frame");
    LineReadBack(Ascii("--frame"),
                 Ascii(TYPE_LINE) + CRLF + (LengthLine(|f|) + CRLF + (CRLF + (f + (CRLF + rest)))));
    HeadersReadBack(|f|, f + (CRLF + rest));
    HeadersSay(|f|);
  }

  // ---- Nothing is read too early

  lemma {:induction false} LineExtends(b: seq<byte>, more: seq<byte>)
    requires Line(b).Some?
    ensures Line(b + more) == Some((Line(b).value.0, Line(b).value.1 + more))
  {
    if b[0] == 13 && b[1] == 10 {
      assert (b + more)[2..] == b[2..] + more;
    } else {
      LineExtends(b[1..], more);
      assert (b + more)[1..] == b[1..] + more;
    }
  }

  lemma {:induction false} HeadersExtend(b: seq<byte>, more: seq<byte>)
    requires Headers(b).Some?
    ensures Headers(b + more) == Some((Headers(b).value.0, Headers(b).value.1 + more))
    decreases |b|
  {
    LineExtends(b, more);
    if Line(b).value.0 != [] { HeadersExtend(Line(b).value.1, more); }
  }

  lemma BodyExtends(n: nat, b: seq<byte>, more: seq<byte>)
    requires ReadBody(n, b).Some?
    ensures ReadBody(n, b + more) == Some((ReadBody(n, b).value.0, ReadBody(n, b).value.1 + more))
  {
    assert (b + more)[n..] == b[n..] + more && (b + more)[..n] == b[..n];
    assert (b[n..] + more)[|CRLF|..] == b[n..][|CRLF|..] + more;
  }

  lemma PartExtends(b: seq<byte>, more: seq<byte>)
    requires DecodePart(b).Some?
    ensures DecodePart(b + more) == Some((DecodePart(b).value.0, DecodePart(b).value.1 + more))
  {
    LineExtends(b, more);
    HeadersExtend(Line(b).value.1, more);
    var (headers, body) := Headers(Line(b).value.1).value;
    BodyExtends(Length(headers).value, body, more);
  }

  /** A part that is cut short is never taken for a frame: what it lacks would be left over from the whole one. */
  lemma CutPartUnread(f: Frame, n: nat)
    requires n < |Part(f)|
    ensures DecodePart(Part(f)[..n]) == None
  {
    var b, more := Part(f)[..n], Part(f)[n..];
    assert b + more == Part(f) == Part(f) + [];
    PartReadBack(f, []);
    if DecodePart(b).Some? { PartExtends(b, more); }
  }

  const MJPEG := Code(Part, DecodePart)

  lemma MjpegSelfDelimiting()
    ensures SelfDelimiting(MJPEG)
  {
    forall f: Frame, rest: seq<byte>
      ensures TakenBack(MJPEG, f, rest)
    {
      PartReadBack(f, rest);
    }
    forall f: Frame, n: nat
      ensures CutRefused(MJPEG, f, n)
    {
      if n < |Part(f)| { CutPartUnread(f, n); }
    }
  }

  /** The announced boundary recovers any list of frames, even frames that contain the boundary text. */
  lemma FramesRoundTrip(fs: seq<Frame>)
    ensures Decode(MJPEG, Stream(MJPEG, fs)) == (fs, [])
  {
    MjpegSelfDelimiting();
    StreamReadBack(MJPEG, fs);
  }

  // ---- The loop that writes it

  function Cut(b: seq<byte>, room: nat): seq<byte> {
    if room < |b| then b[..room] else b
  }

  /** One write to a connection that takes `room` more bytes and then fails. */
  method Write(out: seq<byte>, data: seq<byte>, room: nat) returns (out': seq<byte>, room': nat, ok: bool)
    ensures out' == out + Cut(data, room)
    ensures ok <==> |data| <= room
    ensures ok ==> room' == room - |data|
  {
    if |data| <= room {
      return out + data, room - |data|, true;
    }
    return out + data[..room], 0, false;
  }

  lemma CutTwice(a: seq<byte>, b: seq<byte>, room: nat)
    ensures room >= |a| ==> Cut(a + b, room) == a + Cut(b, room - |a|)
    ensures room < |a| ==> Cut(a + b, room) == Cut(a, room)
  {
  }

  lemma ThreeWrites(out: seq<byte>, a: seq<byte>, b: seq<byte>, c: seq<byte>, room: nat)
    ensures var sent := out + Cut(a + b + c, room);
            if room < |a| then sent == out + Cut(a, room)
            else if room < |a| + |b| then sent == out + Cut(a, room) + Cut(b, room - |a|)
            else sent == out + Cut(a, room) + Cut(b, room - |a|) + Cut(c, room - |a| - |b|)
  {
  }

  /** The three writes of one part, given up at the first that fails. */
  method WritePart(out: seq<byte>, frame: Frame, room: nat) returns (out': seq<byte>, room': nat, ok: bool)
    ensures out' == out + Cut(Part(frame), room)
    ensures ok <==> |Part(frame)| <= room
    ensures ok ==> room' == room - |Part(frame)|
  {
    ThreeWrites(out, Header(|frame|), frame, CRLF, room);
    out', room', ok := Write(out, Header(|frame|), room);
    if !ok { return; }
    out', room', ok := Write(out', frame, room');
    if !ok { return; }
    out', room', ok := Write(out', CRLF, room');
  }

  lemma CutDecodes(frames: seq<Frame>, capacity: nat)
    ensures var out := Cut(Stream(MJPEG, frames), capacity);
            |out| <= |Stream(MJPEG, frames)| && Decode(MJPEG, out).0 == frames[..Whole(MJPEG, frames, |out|)]
  {
    var n := |Cut(Stream(MJPEG, frames), capacity)|;
    assert Cut(Stream(MJPEG, frames), capacity) == Stream(MJPEG, frames)[..n];
    MjpegSelfDelimiting();
    CutStreamReadBack(MJPEG, frames, n);
  }

  /**
   Frames go out until one write fails. What the viewer received is the stream, cut where it failed, and
   reads back as the frames that were sent whole.
   */
  method ServeFrames(frames: seq<Frame>, capacity: nat) returns (out: seq<byte>)
    ensures out == Cut(Stream(MJPEG, frames), capacity)
    ensures Decode(MJPEG, out).0 == frames[..Whole(MJPEG, frames, |out|)]
  {
    out := [];
    var room := capacity;
    var i := 0;
    assert frames[0..] == frames;
    while i < |frames|
      invariant 0 <= i <= |frames|
      invariant Cut(Stream(MJPEG, frames), capacity) == out + Cut(Stream(MJPEG, frames[i..]), room)
    {
      PartFirst(out, frames, i, room);
      var ok;
      out, room, ok := WritePart(out, frames[i], room);
      if !ok { break; }
      i := i + 1;
    }
    CutDecodes(frames, capacity);
  }

  lemma PartFirst(sent: seq<byte>, frames: seq<Frame>, i: nat, room: nat)
    requires i < |frames|
    ensures var part, tail := Part(frames[i]), Stream(MJPEG, frames[i + 1..]);
            && (room < |part| ==> sent + Cut(Stream(MJPEG, frames[i..]), room) == sent + Cut(part, room))
            && (room >= |part| ==>
                  sent + Cut(Stream(MJPEG, frames[i..]), room) == sent + part + Cut(tail, room - |part|) &&
                  Cut(part, room) == part)
  {
    var part, tail := Part(frames[i]), Stream(MJPEG, frames[i + 1..]);
    assert frames[i..][1..] == frames[i + 1..];
    assert Stream(MJPEG, frames[i..]) == part + tail;
    CutTwice(part, tail, room);
    if room >= |part| {
      assert sent + (part + Cut(tail, room - |part|)) == sent + part + Cut(tail, room - |part|);
    }
  }
}
