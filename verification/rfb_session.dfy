/** One capture from greeting to first FramebufferUpdate (internal/vnc/capture.go), and the server
    side it is the inverse of (sections 7.1 to 7.3, 7.6 and 7.7.1 of RFC 6143). */
module RfbSession {
  import opened Wrappers
  import opened Bytes
  import opened RfbWire
  import opened RfbCapture

  /** What was being read when the stream ended. */
  datatype Stage =
    | Version | SecurityCount | ReasonLength | Reason | SecurityTypes | SecurityStatus
    | InitFields | DesktopName | MessageType | UpdateHeader | RectHeader | PixelData
    | ColourHeader | ColourData | TextHeader | TextData

  datatype Failure =
    | ShortRead(at: Stage)
    | RefusedBecause(reason: seq<byte>)
    | NoneUnavailable(types: seq<byte>)
    | AuthFailedBecause(reason: seq<byte>)
    | AuthFailed(code: nat)
    | UnsupportedEncoding(encoding: nat)
    | UnexpectedMessage(kind: byte)
    | Cancelled

  // ---- The server's stream as the client accepts it ----

  datatype Hello = Hello(width: nat, height: nat, rest: seq<byte>)
  datatype Update = Update(rects: seq<Rect>, rest: seq<byte>)
  datatype Shot = Shot(width: nat, height: nat, rects: seq<Rect>, rest: seq<byte>)

  function ParseHello(s: seq<byte>): (r: Result<Hello, Failure>)
    ensures r.Ok? ==> r.value.width < 65536 && r.value.height < 65536
  {
    if |s| < VERSION_LENGTH then Err(ShortRead(Version))
    else ParseSecurity(s[VERSION_LENGTH..])
  }

  function ParseSecurity(s: seq<byte>): (r: Result<Hello, Failure>)
    ensures r.Ok? ==> r.value.width < 65536 && r.value.height < 65536
  {
    if |s| < 1 then Err(ShortRead(SecurityCount))
    else
      var count: int := s[0];
      if count == 0 then Err(ParseRefusal(s[1..]))
      else if |s| < 1 + count then Err(ShortRead(SecurityTypes))
      else if SECURITY_NONE !in s[1..1 + count] then Err(NoneUnavailable(s[1..1 + count]))
      else ParseSecurityResult(s[1 + count..])
  }

  function ParseRefusal(s: seq<byte>): Failure {
    if |s| < 4 then ShortRead(ReasonLength)
    else if |s| < 4 + U32(s[..4]) then ShortRead(Reason)
    else RefusedBecause(s[4..4 + U32(s[..4])])
  }

  function ParseSecurityResult(s: seq<byte>): (r: Result<Hello, Failure>)
    ensures r.Ok? ==> r.value.width < 65536 && r.value.height < 65536
  {
    if |s| < 4 then Err(ShortRead(SecurityStatus))
    else if U32(s[..4]) != 0 then Err(ParseAuthFailure(U32(s[..4]), s[4..]))
    else ParseInit(s[4..])
  }

  /** The reason is reported even when it is cut short: what did not arrive reads as zero bytes. */
  function ParseAuthFailure(code: nat, s: seq<byte>): Failure {
    if |s| < 4 then AuthFailed(code)
    else if |s| < 4 + U32(s[..4]) then AuthFailedBecause(s[4..] + Zeros(4 + U32(s[..4]) - |s|))
    else AuthFailedBecause(s[4..4 + U32(s[..4])])
  }

  function ParseInit(s: seq<byte>): (r: Result<Hello, Failure>)
    ensures r.Ok? ==> r.value.width < 65536 && r.value.height < 65536
  {
    if |s| < 24 then Err(ShortRead(InitFields))
    else if |s| < 24 + U32(s[20..24]) then Err(ShortRead(DesktopName))
    else Ok(Hello(U16(s[0..2]), U16(s[2..4]), s[24 + U32(s[20..24])..]))
  }

  /** `polls` is the number of times the loop finds ctx still open. */
  function ParseMessages(s: seq<byte>, polls: nat): (r: Result<Update, Failure>)
    ensures r.Ok? ==> forall q | q in r.value.rects :: RectOk(q)
    decreases |s|
  {
    if polls == 0 then Err(Cancelled)
    else if s == [] then Err(ShortRead(MessageType))
    else if s[0] == 0 then
      if |s| < 4 then Err(ShortRead(UpdateHeader)) else ParseRects(s[4..], U16(s[2..4]))
    else if s[0] == 1 then
      if |s| < 6 then Err(ShortRead(ColourHeader))
      else if |s| < 6 + U16(s[4..6]) * 6 then Err(ShortRead(ColourData))
      else ParseMessages(s[6 + U16(s[4..6]) * 6..], polls - 1)
    else if s[0] == 2 then ParseMessages(s[1..], polls - 1)
    else if s[0] == 3 then
      if |s| < 8 then Err(ShortRead(TextHeader))
      else if |s| < 8 + U32(s[4..8]) then Err(ShortRead(TextData))
      else ParseMessages(s[8 + U32(s[4..8])..], polls - 1)
    else Err(UnexpectedMessage(s[0]))
  }

  datatype RectFields = RectFields(x: nat, y: nat, w: nat, h: nat, encoding: nat)

  function RectFieldsOf(s: seq<byte>): (f: RectFields)
    requires |s| >= 12
    ensures f.x < 65536 && f.y < 65536 && f.w < 65536 && f.h < 65536
  {
    RectFields(U16(s[0..2]), U16(s[2..4]), U16(s[4..6]), U16(s[6..8]), U32(s[8..12]))
  }

  lemma FieldsOfPrefix(s: seq<byte>)
    requires |s| >= 12
    ensures RectFieldsOf(s[..12]) == RectFieldsOf(s)
  {
    var p := s[..12];
    assert p[0..2] == s[0..2] && p[2..4] == s[2..4] && p[4..6] == s[4..6] && p[6..8] == s[6..8] && p[8..12] == s[8..12];
  }

  function ParseRects(s: seq<byte>, n: nat): (r: Result<Update, Failure>)
    ensures r.Ok? ==> |r.value.rects| == n && forall q | q in r.value.rects :: RectOk(q)
    decreases n
  {
    if n == 0 then Ok(Update([], s))
    else
      var first := ParseRect(s);
      if first.Err? then Err(first.error)
      else
        var others := ParseRects(first.value.rest, n - 1);
        if others.Err? then Err(others.error)
        else Ok(Update(first.value.rects + others.value.rects, others.value.rest))
  }

  function ParseRect(s: seq<byte>): (r: Result<Update, Failure>)
    ensures r.Ok? ==> |r.value.rects| == 1 && RectOk(r.value.rects[0])
  {
    if |s| < 12 then Err(ShortRead(RectHeader))
    else
      var f := RectFieldsOf(s);
      if f.encoding != 0 then Err(UnsupportedEncoding(f.encoding))
      else
        var size: nat := f.w * f.h * 4;
        if |s| < 12 + size then Err(ShortRead(PixelData))
        else Ok(Update([Rect(f.x, f.y, f.w, f.h, s[12..12 + size])], s[12 + size..]))
  }

  function Parse(s: seq<byte>, polls: nat): (r: Result<Shot, Failure>)
    ensures r.Ok? ==> r.value.width < 65536 && r.value.height < 65536
    ensures r.Ok? ==> forall q | q in r.value.rects :: RectOk(q)
  {
    var hello := ParseHello(s);
    if hello.Err? then Err(hello.error)
    else
      var update := ParseMessages(hello.value.rest, polls);
      if update.Err? then Err(update.error)
      else Ok(Shot(hello.value.width, hello.value.height, update.value.rects, update.value.rest))
  }

  // ---- The client ----

  method ReadRefusal(conn: Conn) returns (failure: Failure)
    modifies conn`pending
    ensures failure == ParseRefusal(old(conn.Rest()))
  {
    hide Conn.Rest;
    ghost var s := conn.Rest();
    var reasonLen, ok := conn.ReadBytes(4);
    if !ok { return ShortRead(ReasonLength); }
    var reason;
    reason, ok := conn.ReadBytes(U32(reasonLen));
    if !ok { return ShortRead(Reason); }
    assert reason == s[4..4 + U32(reasonLen)];
    failure := RefusedBecause(reason);
  }

  /** Scans the offered security types for None. */
  method HasNone(secTypes: seq<byte>) returns (hasNone: bool)
    ensures hasNone <==> SECURITY_NONE in secTypes
  {
    hasNone := false;
    for i := 0 to |secTypes|
      invariant hasNone <==> SECURITY_NONE in secTypes[..i]
    {
      if secTypes[i] == SECURITY_NONE {
        return true;
      }
    }
    assert secTypes[..|secTypes|] == secTypes;
  }

  method ReadSecurity(conn: Conn) returns (failure: Option<Failure>)
    modifies conn
    ensures failure.Some? ==> ParseHello(old(conn.Rest())) == Err(failure.value)
    ensures failure.None? ==> ParseHello(old(conn.Rest())) == ParseInit(conn.Rest())
    ensures failure.None? ==> conn.sent == old(conn.sent) + CLIENT_VERSION + [SECURITY_NONE]
  {
    hide Conn.Rest, ParseInit, ParseRefusal, ParseSecurityResult;
    var serverVersion, ok := conn.ReadBytes(VERSION_LENGTH);
    if !ok { return Some(ShortRead(Version)); }
    conn.Write(CLIENT_VERSION);
    ghost var s := conn.Rest();
    var numSecTypes;
    numSecTypes, ok := conn.ReadBytes(1);
    if !ok { return Some(ShortRead(SecurityCount)); }
    if numSecTypes[0] == 0 {
      var refusal := ReadRefusal(conn);
      return Some(refusal);
    }
    var secTypes;
    secTypes, ok := conn.ReadBytes(numSecTypes[0]);
    if !ok { return Some(ShortRead(SecurityTypes)); }
    assert secTypes == s[1..1 + |secTypes|];
    assert conn.Rest() == s[1 + |secTypes|..];
    var hasNone := HasNone(secTypes);
    if !hasNone { return Some(NoneUnavailable(secTypes)); }
    conn.Write([SECURITY_NONE]);
    failure := ReadSecurityResult(conn);
  }

  method ReadSecurityResult(conn: Conn) returns (failure: Option<Failure>)
    modifies conn`pending
    ensures failure.Some? ==> ParseSecurityResult(old(conn.Rest())) == Err(failure.value)
    ensures failure.None? ==> ParseSecurityResult(old(conn.Rest())) == ParseInit(conn.Rest())
  {
    hide Conn.Rest, ParseInit;
    var secResult, ok := conn.ReadBytes(4);
    if !ok { return Some(ShortRead(SecurityStatus)); }
    if U32(secResult) != 0 {
      ghost var s := conn.Rest();
      var reasonLen;
      reasonLen, ok := conn.ReadBytes(4);
      if ok {
        var reason;
        reason, ok := conn.ReadBytes(U32(reasonLen));
        assert ok ==> reason == s[4..4 + U32(reasonLen)];
        return Some(AuthFailedBecause(reason));
      }
      return Some(AuthFailed(U32(secResult)));
    }
    failure := None;
  }

  method ReadInit(conn: Conn) returns (r: Result<(nat, nat), Failure>)
    modifies conn`pending
    ensures r.Err? ==> ParseInit(old(conn.Rest())) == Err(r.error)
    ensures r.Ok? ==> r.value.0 < 65536 && r.value.1 < 65536
    ensures r.Ok? ==> ParseInit(old(conn.Rest())) == Ok(Hello(r.value.0, r.value.1, conn.Rest()))
  {
    hide Conn.Rest;
    ghost var s := conn.Rest();
    var serverInit, ok := conn.ReadBytes(24);
    if !ok { return Err(ShortRead(InitFields)); }
    assert serverInit[0..2] == s[0..2] && serverInit[2..4] == s[2..4] && serverInit[20..24] == s[20..24];
    var fbWidth, fbHeight, nameLen := U16(serverInit[0..2]), U16(serverInit[2..4]), U32(serverInit[20..24]);
    var desktopName;
    desktopName, ok := conn.ReadBytes(nameLen);
    if !ok { return Err(ShortRead(DesktopName)); }
    assert conn.Rest() == s[24 + nameLen..];
    r := Ok((fbWidth, fbHeight));
  }

  /** Steps 1 to 10: handshake, then the three requests. */
  method Handshake(conn: Conn) returns (r: Result<(nat, nat), Failure>)
    modifies conn
    ensures r.Err? ==> ParseHello(old(conn.Rest())) == Err(r.error)
    ensures r.Ok? ==> r.value.0 < 65536 && r.value.1 < 65536
    ensures r.Ok? ==> ParseHello(old(conn.Rest())) == Ok(Hello(r.value.0, r.value.1, conn.Rest()))
    ensures r.Ok? ==> conn.sent == old(conn.sent) + ClientBytes(r.value.0, r.value.1)
    ensures r.Ok? ==>
      |old(conn.sent)| <= |conn.sent| && ServerReads(conn.sent[|old(conn.sent)|..], r.value.0, r.value.1)
  {
    hide ServerReads, ParseHello, ParseInit, UpdateRequest, Conn.Rest;
    ghost var was := conn.sent;
    var failure := ReadSecurity(conn);
    if failure.Some? { return Err(failure.value); }
    conn.Write([1]);
    var init := ReadInit(conn);
    if init.Err? { return Err(init.error); }
    conn.Write(SET_PIXEL_FORMAT);
    conn.Write(SET_ENCODINGS);
    conn.Write(UpdateRequest(init.value.0, init.value.1));
    assert conn.sent == was + ClientBytes(init.value.0, init.value.1);
    ClientIsRead(init.value.0, init.value.1);
    assert conn.sent[|was|..] == ClientBytes(init.value.0, init.value.1);
    r := init;
  }

  /** One rectangle: header, pixel data, painting. */
  method ReadRect(conn: Conn, img: Image) returns (failure: Option<Failure>, ghost rect: Rect)
    requires img.Valid()
    modifies conn`pending, img.pix
    ensures failure.Some? ==> ParseRect(old(conn.Rest())) == Err(failure.value)
    ensures failure.None? ==> ParseRect(old(conn.Rest())) == Ok(Update([rect], conn.Rest())) && RectOk(rect)
    ensures failure.None? ==> forall x, y | img.Inside(x, y) ::
              img.At(x, y) == if Covers(rect, x, y) then PixelOf(rect, x, y) else old(img.At(x, y))
  {
    hide Conn.Rest, RectFieldsOf, PixelOf, Covers, Image.At, Image.Inside;
    rect := Rect(0, 0, 0, 0, []);
    ghost var s := conn.Rest();
    var header, ok := conn.ReadBytes(12);
    if !ok { return Some(ShortRead(RectHeader)), rect; }
    FieldsOfPrefix(s);
    var f := RectFieldsOf(header);
    if f.encoding != 0 { return Some(UnsupportedEncoding(f.encoding)), rect; }
    var pixelData;
    pixelData, ok := conn.ReadBytes(f.w * f.h * 4);
    if !ok { return Some(ShortRead(PixelData)), rect; }
    assert pixelData == s[12..12 + f.w * f.h * 4] && conn.Rest() == s[12 + f.w * f.h * 4..];
    rect := Rect(f.x, f.y, f.w, f.h, pixelData);
    img.Paint(Rect(f.x, f.y, f.w, f.h, pixelData));
    failure := None;
  }

  /** The rectangles of one FramebufferUpdate; the 16-bit counter stays below the count. */
  method ReadRects(conn: Conn, img: Image, numRects: nat) returns (failure: Option<Failure>)
    requires img.Valid() && numRects < 65536
    requires forall x, y | img.Inside(x, y) :: img.At(x, y) == BLANK
    modifies conn`pending, img.pix
    ensures failure.Some? ==> ParseRects(old(conn.Rest()), numRects) == Err(failure.value)
    ensures failure.None? ==>
      && ParseRects(old(conn.Rest()), numRects).Ok?
      && var update := ParseRects(old(conn.Rest()), numRects).value;
         conn.Rest() == update.rest
         && forall x, y | img.Inside(x, y) :: img.At(x, y) == Shown(update.rects, x, y)
  {
    hide Decode, Offset, ParseRect, PixelOf, RectOk;
    ghost var done: seq<Rect> := [];
    ghost var s := conn.Rest();
    var i := 0;
    AfterNone(ParseRects(s, numRects));
    while i < numRects
      invariant 0 <= i <= numRects && |done| == i
      invariant forall q | q in done :: RectOk(q)
      invariant ParseRects(s, numRects) == After(done, ParseRects(conn.Rest(), numRects - i))
      invariant forall x, y | img.Inside(x, y) :: img.At(x, y) == Shown(done, x, y)
    {
      ghost var rest, before := ParseRects(conn.Rest(), numRects - i), done;
      ghost var rect;
      failure, rect := ReadRect(conn, img);
      if failure.Some? { return; }
      done := done + [rect];
      assert done[..|done| - 1] == before;
      AfterOne(before, rect, ParseRects(conn.Rest(), numRects - i - 1));
      i := i + 1;
    }
    assert done + [] == done;
    failure := None;
  }

  /** A parse result with rectangles already read put in front. */
  ghost function After(done: seq<Rect>, r: Result<Update, Failure>): Result<Update, Failure> {
    if r.Ok? then Ok(Update(done + r.value.rects, r.value.rest)) else r
  }

  lemma AfterNone(r: Result<Update, Failure>)
    ensures After([], r) == r
  {
    if r.Ok? {
      assert [] + r.value.rects == r.value.rects;
    }
  }

  lemma AfterOne(done: seq<Rect>, rect: Rect, r: Result<Update, Failure>)
    ensures After(done, After([rect], r)) == After(done + [rect], r)
  {
    if r.Ok? {
      assert done + ([rect] + r.value.rects) == (done + [rect]) + r.value.rects;
    }
  }

  /** SetColourMapEntries, Bell and ServerCutText, after the type byte has been read. */
  method SkipMessage(conn: Conn, kind: byte, ghost s: seq<byte>, ghost left: nat) returns (failure: Option<Failure>)
    requires 1 <= kind <= 3 && s != [] && s[0] == kind && conn.Rest() == s[1..] && left > 0
    modifies conn`pending
    ensures failure.Some? ==> ParseMessages(s, left) == Err(failure.value)
    ensures failure.None? ==> ParseMessages(s, left) == ParseMessages(conn.Rest(), left - 1)
  {
    hide ParseRects, Conn.Rest, U16, U32, RectOk;
    if kind == 1 {
      var skipHeader, ok := conn.ReadBytes(5);
      if !ok { return Some(ShortRead(ColourHeader)); }
      Cut(s, 1, 3, 5);
      Cut(s, 1, 5, |s| - 1);
      assert skipHeader[3..5] == s[1..][3..5];
      var skipData;
      skipData, ok := conn.ReadBytes(U16(skipHeader[3..5]) * 6);
      if !ok { return Some(ShortRead(ColourData)); }
      assert conn.Rest() == s[6 + U16(s[4..6]) * 6..];
    } else if kind == 3 {
      var skipHeader, ok := conn.ReadBytes(7);
      if !ok { return Some(ShortRead(TextHeader)); }
      Cut(s, 1, 3, 7);
      Cut(s, 1, 7, |s| - 1);
      assert skipHeader[3..7] == s[1..][3..7];
      var skipData;
      skipData, ok := conn.ReadBytes(U32(skipHeader[3..7]));
      if !ok { return Some(ShortRead(TextData)); }
      assert conn.Rest() == s[8 + U32(s[4..8])..];
    }
    failure := None;
  }

  /** Step 11: skip other messages until the first FramebufferUpdate. */
  method ReadUpdate(conn: Conn, img: Image, polls: nat) returns (failure: Option<Failure>)
    requires img.Valid()
    requires forall x, y | img.Inside(x, y) :: img.At(x, y) == BLANK
    modifies conn`pending, img.pix
    ensures failure.Some? ==> ParseMessages(old(conn.Rest()), polls) == Err(failure.value)
    ensures failure.None? ==>
      && ParseMessages(old(conn.Rest()), polls).Ok?
      && var update := ParseMessages(old(conn.Rest()), polls).value;
         conn.Rest() == update.rest
         && forall x, y | img.Inside(x, y) :: img.At(x, y) == Shown(update.rects, x, y)
  {
    hide Decode, Offset, Shown, ParseRects, Image.At, Image.Inside, Conn.Rest, U16, U32, RectOk;
    var left := polls;
    ghost var goal := ParseMessages(conn.Rest(), polls);
    while true
      invariant ParseMessages(conn.Rest(), left) == goal
      invariant forall x, y | img.Inside(x, y) :: img.At(x, y) == BLANK
      decreases left
    {
      if left == 0 { return Some(Cancelled); }
      ghost var s := conn.Rest();
      var msgType, ok := conn.ReadBytes(1);
      if !ok { return Some(ShortRead(MessageType)); }
      assert msgType[0] == s[0];
      if msgType[0] == 0 {
        var header;
        header, ok := conn.ReadBytes(3);
        if !ok { return Some(ShortRead(UpdateHeader)); }
        Cut(s, 1, 1, 3);
        Cut(s, 1, 3, |s| - 1);
        assert header[1..3] == s[1..][1..3] && conn.Rest() == s[4..];
        failure := ReadRects(conn, img, U16(header[1..3]));
        return;
      } else if msgType[0] <= 3 {
        failure := SkipMessage(conn, msgType[0], s, left);
        if failure.Some? { return; }
      } else {
        return Some(UnexpectedMessage(msgType[0]));
      }
      left := left - 1;
    }
  }

  /** The whole client. The result, every pixel, and how much is consumed depend only on the bytes of
      the stream, not on how they were split into reads. */
  method CaptureScreenshot(conn: Conn, polls: nat) returns (r: Result<Image, Failure>)
    modifies conn
    ensures r.Err? <==> Parse(old(conn.Rest()), polls).Err?
    ensures r.Err? ==> Parse(old(conn.Rest()), polls) == Err(r.error)
    ensures r.Ok? ==>
      && var img, shot := r.value, Parse(old(conn.Rest()), polls).value;
      && img.Valid() && img.width == shot.width && img.height == shot.height
      && (forall x, y | img.Inside(x, y) :: img.At(x, y) == Shown(shot.rects, x, y))
      && conn.Rest() == shot.rest
      && conn.sent == old(conn.sent) + ClientBytes(shot.width, shot.height)
      && ServerReads(conn.sent[|old(conn.sent)|..], shot.width, shot.height)
  {
    hide Decode, Offset, Shown, ParseHello, ParseMessages, Image.At, Image.Inside, ClientBytes, Conn.Rest;
    hide ServerReads;
    var hello := Handshake(conn);
    if hello.Err? { return Err(hello.error); }
    var img := new Image(hello.value.0, hello.value.1);
    var failure := ReadUpdate(conn, img, polls);
    if failure.Some? { return Err(failure.value); }
    r := Ok(img);
  }

  // ---- The server ----

  datatype Skipped =
    | Bell
    | ColourMap(header: seq<byte>, colours: seq<byte>)
    | CutText(padding: seq<byte>, text: seq<byte>)

  predicate SkippedOk(m: Skipped) {
    match m
    case Bell => true
    case ColourMap(header, colours) => |header| == 3 && |colours| % 6 == 0 && |colours| / 6 < 65536
    case CutText(padding, text) => |padding| == 3 && |text| < 0x1_0000_0000
  }

  function PutSkipped(m: Skipped): (s: seq<byte>)
    requires SkippedOk(m)
    ensures s != []
  {
    match m
    case Bell => [2]
    case ColourMap(header, colours) => [1] + header + PutU16(|colours| / 6) + colours
    case CutText(padding, text) => [3] + padding + PutU32(|text|) + text
  }

  function PutAllSkipped(ms: seq<Skipped>): seq<byte>
    requires forall m | m in ms :: SkippedOk(m)
  {
    if ms == [] then [] else PutSkipped(ms[0]) + PutAllSkipped(ms[1..])
  }

  function PutRect(r: Rect): seq<byte>
    requires RectOk(r)
  {
    PutU16(r.x) + PutU16(r.y) + PutU16(r.w) + PutU16(r.h) + PutU32(0) + r.data
  }

  function PutRects(rects: seq<Rect>): seq<byte>
    requires forall r | r in rects :: RectOk(r)
  {
    if rects == [] then [] else PutRect(rects[0]) + PutRects(rects[1..])
  }

  /** What a server decides to say to one client. */
  datatype Session = Session(
    version: seq<byte>, secTypes: seq<byte>, width: nat, height: nat, format: seq<byte>, name: seq<byte>,
    skipped: seq<Skipped>, padding: byte, rects: seq<Rect>)

  predicate SessionOk(v: Session) {
    && |v.version| == VERSION_LENGTH
    && 0 < |v.secTypes| < 256 && SECURITY_NONE in v.secTypes
    && v.width < 65536 && v.height < 65536
    && |v.format| == 16 && |v.name| < 0x1_0000_0000
    && (forall m | m in v.skipped :: SkippedOk(m))
    && |v.rects| < 65536 && (forall r | r in v.rects :: RectOk(r))
  }

  function PutInit(v: Session): seq<byte>
    requires SessionOk(v)
  {
    PutU16(v.width) + PutU16(v.height) + v.format + PutU32(|v.name|) + v.name
  }

  function PutUpdate(v: Session): seq<byte>
    requires SessionOk(v)
  {
    [0, v.padding] + PutU16(|v.rects|) + PutRects(v.rects)
  }

  function Serve(v: Session): seq<byte>
    requires SessionOk(v)
  {
    var count: byte := |v.secTypes|;
    v.version + [count] + v.secTypes + PutU32(0) + PutInit(v) + PutAllSkipped(v.skipped) + PutUpdate(v)
  }

  lemma RectRoundTrip(r: Rect, tail: seq<byte>)
    requires RectOk(r)
    ensures ParseRect(PutRect(r) + tail) == Ok(Update([r], tail))
  {
    var s := PutRect(r) + tail;
    assert s[0..2] == PutU16(r.x) && s[2..4] == PutU16(r.y);
    assert s[4..6] == PutU16(r.w) && s[6..8] == PutU16(r.h) && s[8..12] == PutU32(0);
    assert s[12..12 + |r.data|] == r.data && s[12 + |r.data|..] == tail;
  }

  lemma {:induction false} RectsRoundTrip(rects: seq<Rect>, tail: seq<byte>)
    requires forall r | r in rects :: RectOk(r)
    ensures ParseRects(PutRects(rects) + tail, |rects|) == Ok(Update(rects, tail))
  {
    hide RectOk, ParseRect, PutRect;
    if rects == [] {
      assert PutRects(rects) + tail == tail;
    } else {
      RectRoundTrip(rects[0], PutRects(rects[1..]) + tail);
      RectsRoundTrip(rects[1..], tail);
      assert PutRects(rects) + tail == PutRect(rects[0]) + (PutRects(rects[1..]) + tail);
      assert [rects[0]] + rects[1..] == rects;
    }
  }

  lemma SkipOne(m: Skipped, tail: seq<byte>, polls: nat)
    requires SkippedOk(m) && polls > 0
    ensures ParseMessages(PutSkipped(m) + tail, polls) == ParseMessages(tail, polls - 1)
  {
    var s := PutSkipped(m) + tail;
    match m
    case Bell =>
      assert s[1..] == tail;
    case ColourMap(header, colours) =>
      assert s[4..6] == PutU16(|colours| / 6);
      assert s[6 + |colours|..] == tail;
    case CutText(padding, text) =>
      assert s[4..8] == PutU32(|text|);
      assert s[8 + |text|..] == tail;
  }

  /** Messages that carry no image are skipped one poll each, and a cancel seen among them wins. */
  lemma {:induction false} SkipAll(ms: seq<Skipped>, tail: seq<byte>, polls: nat)
    requires forall m | m in ms :: SkippedOk(m)
    ensures ParseMessages(PutAllSkipped(ms) + tail, polls)
            == if polls < |ms| then Err(Cancelled) else ParseMessages(tail, polls - |ms|)
  {
    hide SkippedOk, PutSkipped;
    if ms == [] {
      assert PutAllSkipped(ms) + tail == tail;
    } else if polls > 0 {
      var rest := PutAllSkipped(ms[1..]) + tail;
      assert PutAllSkipped(ms) + tail == PutSkipped(ms[0]) + rest;
      SkipOne(ms[0], rest, polls);
      SkipAll(ms[1..], tail, polls - 1);
    }
  }

  lemma NoPollsLeft(s: seq<byte>)
    ensures ParseMessages(s, 0) == Err(Cancelled)
  {
  }

  lemma UpdateRoundTrip(v: Session, tail: seq<byte>, polls: nat)
    requires SessionOk(v) && polls > 0
    ensures ParseMessages(PutUpdate(v) + tail, polls) == Ok(Update(v.rects, tail))
  {
    hide RectOk;
    var s := PutUpdate(v) + tail;
    assert s[2..4] == PutU16(|v.rects|);
    assert s[4..] == PutRects(v.rects) + tail;
    RectsRoundTrip(v.rects, tail);
  }

  lemma InitRoundTrip(v: Session, tail: seq<byte>)
    requires SessionOk(v)
    ensures ParseInit(PutInit(v) + tail) == Ok(Hello(v.width, v.height, tail))
  {
    var s := PutInit(v) + tail;
    assert s[0..2] == PutU16(v.width) && s[2..4] == PutU16(v.height) && s[20..24] == PutU32(|v.name|);
    assert s[24 + |v.name|..] == tail;
  }

  lemma HelloRoundTrip(v: Session, tail: seq<byte>)
    requires SessionOk(v)
    ensures var count: byte := |v.secTypes|;
      ParseHello(v.version + [count] + v.secTypes + PutU32(0) + PutInit(v) + tail)
        == Ok(Hello(v.width, v.height, tail))
  {
    hide ParseInit, PutInit, PutU32;
    var count: byte := |v.secTypes|;
    var rest := PutInit(v) + tail;
    var result := PutU32(0) + rest;
    var s := v.version + [count] + v.secTypes + PutU32(0) + PutInit(v) + tail;
    assert s == v.version + ([count] + (v.secTypes + result));
    var s1 := s[VERSION_LENGTH..];
    assert s1 == [count] + (v.secTypes + result);
    assert s1[1..1 + |v.secTypes|] == v.secTypes && s1[1 + |v.secTypes|..] == result;
    assert result[..4] == PutU32(0) && result[4..] == rest;
    InitRoundTrip(v, tail);
  }

  /** Round trip: from what any server sends, the client recovers the size and exactly its
      rectangles, and leaves every byte after the update unread; it reports a cancelled context
      exactly when ctx closes before the update is reached. */
  lemma CaptureInvertsServe(v: Session, tail: seq<byte>, polls: nat)
    requires SessionOk(v)
    ensures Parse(Serve(v) + tail, polls)
            == if polls <= |v.skipped| then Err(Cancelled) else Ok(Shot(v.width, v.height, v.rects, tail))
  {
    hide RectOk, ParseHello, ParseMessages, PutInit, PutUpdate;
    var count: byte := |v.secTypes|;
    var messages := PutAllSkipped(v.skipped) + (PutUpdate(v) + tail);
    assert Serve(v) + tail == v.version + [count] + v.secTypes + PutU32(0) + PutInit(v) + messages;
    HelloRoundTrip(v, messages);
    SkipAll(v.skipped, PutUpdate(v) + tail, polls);
    if polls > |v.skipped| {
      UpdateRoundTrip(v, tail, polls - |v.skipped|);
    } else if polls == |v.skipped| {
      NoPollsLeft(PutUpdate(v) + tail);
    }
  }

  /** The two together: however the network splits what a server sends, the screenshot shows the last
      rectangle over every pixel, and nothing after the update is read. */
  method CaptureServed(v: Session, tail: seq<byte>, fragments: seq<seq<byte>>, polls: nat)
    returns (img: Image, ghost unread: seq<byte>, ghost sent: seq<byte>)
    requires SessionOk(v) && polls > |v.skipped|
    requires Flatten(fragments) == Serve(v) + tail
    ensures img.Valid() && img.width == v.width && img.height == v.height
    ensures forall x, y | img.Inside(x, y) :: img.At(x, y) == Shown(v.rects, x, y)
    ensures unread == tail && ServerReads(sent, v.width, v.height)
  {
    hide Shown, Parse, Serve, Image.At, ServerReads, ClientBytes;
    var conn := new Conn(fragments);
    assert conn.Rest() == Flatten(fragments);
    CaptureInvertsServe(v, tail, polls);
    var r := CaptureScreenshot(conn, polls);
    img, unread, sent := r.value, conn.Rest(), conn.sent;
    assert sent[0..] == sent;
  }
}
