/** Which streams the screenshot client accepts, and what it reports about the others
    (internal/vnc/capture.go, sections 7.1, 7.3 and 7.6 of RFC 6143). */
module RfbGrammar {
  import opened Wrappers
  import opened Bytes
  import opened RfbWire
  import opened RfbCapture
  import opened RfbSession

  // ---- Only what a server sends is accepted ----

  lemma U16Back(s: seq<byte>)
    requires |s| == 2
    ensures PutU16(U16(s)) == s
  {
  }

  lemma U32Back(s: seq<byte>)
    requires |s| == 4
    ensures PutU32(U32(s)) == s
  {
    var hi, lo := U16(s[..2]), U16(s[2..]);
    assert U32(s) == hi * 0x1_0000 + lo;
    assert U32(s) / 0x1_0000 == hi && U32(s) % 0x1_0000 == lo;
  }

  lemma RectBack(s: seq<byte>)
    requires ParseRect(s).Ok?
    ensures var u := ParseRect(s).value; RectOk(u.rects[0]) && s == PutRect(u.rects[0]) + u.rest
  {
    U16Back(s[0..2]);
    U16Back(s[2..4]);
    U16Back(s[4..6]);
    U16Back(s[6..8]);
    U32Back(s[8..12]);
    var u := ParseRect(s).value;
    var r := u.rects[0];
    hide U16, U32, PutU16, PutU32;
    assert PutU16(r.x) == s[0..2] && PutU16(r.y) == s[2..4] && PutU16(r.w) == s[4..6] && PutU16(r.h) == s[6..8];
    assert PutU32(0) == s[8..12];
    assert s == s[0..2] + s[2..4] + s[4..6] + s[6..8] + s[8..12] + r.data + u.rest;
  }

  lemma {:induction false} RectsBack(s: seq<byte>, n: nat)
    requires ParseRects(s, n).Ok?
    ensures var u := ParseRects(s, n).value; s == PutRects(u.rects) + u.rest
    decreases n
  {
    hide ParseRect, PutRect, RectOk;
    var u := ParseRects(s, n).value;
    if n > 0 {
      var first := ParseRect(s).value;
      RectBack(s);
      RectsBack(first.rest, n - 1);
      var others := ParseRects(first.rest, n - 1).value;
      assert first.rects == [u.rects[0]] && u.rects[1..] == others.rects;
      assert PutRect(u.rects[0]) + (PutRects(others.rects) + u.rest)
          == (PutRect(u.rects[0]) + PutRects(others.rects)) + u.rest;
    }
  }

  /** A message that carries no image, read off the front of a stream. */
  lemma SkippedBack(s: seq<byte>, polls: nat) returns (m: Skipped, rest: seq<byte>)
    requires ParseMessages(s, polls).Ok? && s[0] != 0
    ensures SkippedOk(m) && s == PutSkipped(m) + rest && |rest| < |s|
    ensures polls > 0 && ParseMessages(rest, polls - 1) == ParseMessages(s, polls)
  {
    hide ParseRects;
    if s[0] == 1 {
      m, rest := ColourBack(s);
    } else if s[0] == 2 {
      m, rest := Bell, s[1..];
    } else {
      m, rest := TextBack(s);
    }
  }

  lemma ColourBack(s: seq<byte>) returns (m: Skipped, rest: seq<byte>)
    requires |s| >= 6 && s[0] == 1 && |s| >= 6 + U16(s[4..6]) * 6
    ensures SkippedOk(m) && s == PutSkipped(m) + rest && rest == s[6 + U16(s[4..6]) * 6..]
  {
    var n := U16(s[4..6]);
    U16Back(s[4..6]);
    m, rest := ColourMap(s[1..4], s[6..6 + n * 6]), s[6 + n * 6..];
    assert |m.colours| / 6 == n;
    hide U16, PutU16;
    assert s == [s[0]] + s[1..4] + s[4..6] + s[6..6 + n * 6] + rest;
  }

  lemma TextBack(s: seq<byte>) returns (m: Skipped, rest: seq<byte>)
    requires |s| >= 8 && s[0] == 3 && |s| >= 8 + U32(s[4..8])
    ensures SkippedOk(m) && s == PutSkipped(m) + rest && rest == s[8 + U32(s[4..8])..]
  {
    var n := U32(s[4..8]);
    U32Back(s[4..8]);
    m, rest := CutText(s[1..4], s[8..8 + n]), s[8 + n..];
    hide U32, PutU32;
    assert s == [s[0]] + s[1..4] + s[4..8] + s[8..8 + n] + rest;
  }

  /** The skipped messages and the update. */
  ghost predicate Messages(s: seq<byte>, ms: seq<Skipped>, padding: byte, u: Update) {
    && (forall m | m in ms :: SkippedOk(m))
    && |u.rects| < 65536 && (forall r | r in u.rects :: RectOk(r))
    && s == PutAllSkipped(ms) + ([0, padding] + PutU16(|u.rects|) + PutRects(u.rects) + u.rest)
  }

  lemma {:induction false} MessagesBack(s: seq<byte>, polls: nat) returns (ms: seq<Skipped>, padding: byte)
    requires ParseMessages(s, polls).Ok?
    ensures |ms| < polls && Messages(s, ms, padding, ParseMessages(s, polls).value)
    decreases |s|
  {
    if s[0] == 0 {
      UpdateBack(s, polls);
      hide ParseMessages, Messages;
      ms, padding := [], s[1];
    } else {
      var m, rest := SkippedBack(s, polls);
      hide ParseMessages, SkippedOk, PutSkipped, Messages;
      var others;
      others, padding := MessagesBack(rest, polls - 1);
      ms := [m] + others;
      OneMoreMessage(s, m, rest, others, padding, ParseMessages(s, polls).value);
    }
  }

  lemma OneMoreMessage(s: seq<byte>, m: Skipped, rest: seq<byte>, ms: seq<Skipped>, padding: byte, u: Update)
    requires SkippedOk(m) && s == PutSkipped(m) + rest && Messages(rest, ms, padding, u)
    ensures Messages(s, [m] + ms, padding, u)
  {
    hide SkippedOk, PutSkipped, RectOk, PutU16, PutRects;
    var all := [m] + ms;
    assert all[0] == m && all[1..] == ms;
    var update := [0, padding] + PutU16(|u.rects|) + PutRects(u.rects) + u.rest;
    assert PutSkipped(m) + (PutAllSkipped(ms) + update) == (PutSkipped(m) + PutAllSkipped(ms)) + update;
  }

  lemma UpdateBack(s: seq<byte>, polls: nat)
    requires ParseMessages(s, polls).Ok? && s[0] == 0
    ensures polls > 0 && |s| >= 4 && Messages(s, [], s[1], ParseMessages(s, polls).value)
  {
    hide RectOk, ParseRects, PutRects;
    RectsBack(s[4..], U16(s[2..4]));
    U16Back(s[2..4]);
    var u := ParseMessages(s, polls).value;
    hide U16, PutU16;
    assert s == [0, s[1]] + s[2..4] + s[4..];
    assert PutAllSkipped([]) == [];
    assert [0, s[1]] + s[2..4] + (PutRects(u.rects) + u.rest) == [0, s[1]] + s[2..4] + PutRects(u.rects) + u.rest;
  }

  /** The greeting. */
  ghost predicate Greeting(s: seq<byte>, version: seq<byte>, types: seq<byte>, format: seq<byte>, name: seq<byte>, h: Hello) {
    && |version| == VERSION_LENGTH && 0 < |types| < 256 && SECURITY_NONE in types
    && h.width < 65536 && h.height < 65536 && |format| == 16 && |name| < 0x1_0000_0000
    && var count: byte := |types|;
       s == version + ([count] + (types + (PutU32(0)
            + (PutU16(h.width) + PutU16(h.height) + format + PutU32(|name|) + name + h.rest))))
  }

  lemma InitBack(s: seq<byte>) returns (format: seq<byte>, name: seq<byte>)
    requires ParseInit(s).Ok?
    ensures |format| == 16 && |name| < 0x1_0000_0000
    ensures var h := ParseInit(s).value;
      s == PutU16(h.width) + PutU16(h.height) + format + PutU32(|name|) + name + h.rest
  {
    var n := U32(s[20..24]);
    U16Back(s[0..2]);
    U16Back(s[2..4]);
    U32Back(s[20..24]);
    format, name := s[4..20], s[24..24 + n];
    hide U16, U32, PutU16, PutU32;
    assert s == s[0..2] + s[2..4] + s[4..20] + s[20..24] + s[24..24 + n] + s[24 + n..];
  }

  lemma GreetingBack(s: seq<byte>)
    returns (version: seq<byte>, types: seq<byte>, format: seq<byte>, name: seq<byte>)
    requires ParseHello(s).Ok?
    ensures Greeting(s, version, types, format, name, ParseHello(s).value)
  {
    hide ParseInit, PutU16, PutU32;
    version := s[..VERSION_LENGTH];
    var s1 := s[VERSION_LENGTH..];
    var count: int := s1[0];
    types := s1[1..1 + count];
    var s2 := s1[1 + count..];
    U32Back(s2[..4]);
    hide U32;
    format, name := InitBack(s2[4..]);
    assert s1 == [s1[0]] + (types + s2);
    assert s2 == PutU32(0) + s2[4..];
    assert s == version + s1;
  }

  /** The stream starts with what some server sends, with room for its skipped messages. */
  ghost predicate IsServed(s: seq<byte>, polls: nat) {
    exists v, tail :: SessionOk(v) && |v.skipped| < polls && s == Serve(v) + tail
  }

  /** The client accepts exactly the streams that begin with a server's session; any other stream, with
      type None missing, a security result other than zero, an encoding other than Raw, an unknown message
      or a field cut short, is rejected. */
  lemma AcceptsExactly(s: seq<byte>, polls: nat)
    ensures Parse(s, polls).Ok? <==> IsServed(s, polls)
  {
    if Parse(s, polls).Ok? {
      AcceptedIsServed(s, polls);
    } else if IsServed(s, polls) {
      hide Parse, SessionOk, Serve;
      var v, tail :| SessionOk(v) && |v.skipped| < polls && s == Serve(v) + tail;
      CaptureInvertsServe(v, tail, polls);
    }
  }

  lemma AcceptedIsServed(s: seq<byte>, polls: nat)
    requires Parse(s, polls).Ok?
    ensures IsServed(s, polls)
  {
    var h := ParseHello(s).value;
    hide ParseHello, ParseMessages;
    var version, types, format, name := GreetingBack(s);
    var ms, padding := MessagesBack(h.rest, polls);
    var u := ParseMessages(h.rest, polls).value;
    var v := Session(version, types, h.width, h.height, format, name, ms, padding, u.rects);
    PartsMakeSession(s, v, h, u);
    hide Serve, SessionOk;
    assert s == Serve(v) + u.rest;
  }

  lemma PartsMakeSession(s: seq<byte>, v: Session, h: Hello, u: Update)
    requires Greeting(s, v.version, v.secTypes, v.format, v.name, h)
    requires Messages(h.rest, v.skipped, v.padding, u)
    requires v.width == h.width && v.height == h.height && v.rects == u.rects
    ensures SessionOk(v) && s == Serve(v) + u.rest
  {
    hide SkippedOk, RectOk, PutU16, PutU32, PutAllSkipped, PutRects;
    assert h.rest == PutAllSkipped(v.skipped) + (PutUpdate(v) + u.rest);
    var count: byte := |v.secTypes|;
    var rest := PutInit(v) + h.rest;
    assert PutU16(h.width) + PutU16(h.height) + v.format + PutU32(|v.name|) + v.name + h.rest == rest;
    hide PutUpdate, PutInit;
    assert s == v.version + ([count] + (v.secTypes + (PutU32(0) + rest)));
  }

  // ---- The reason reported is the one the server wrote ----

  function PutReason(reason: seq<byte>): seq<byte>
    requires |reason| < 0x1_0000_0000
  {
    PutU32(|reason|) + reason
  }

  /** A server that offers no security type at all says why. */
  lemma RefusalIsReported(version: seq<byte>, reason: seq<byte>, tail: seq<byte>, polls: nat)
    requires |version| == VERSION_LENGTH && |reason| < 0x1_0000_0000
    ensures Parse(version + [0] + PutReason(reason) + tail, polls) == Err(RefusedBecause(reason))
  {
    hide PutU32;
    var s := version + [0] + PutReason(reason) + tail;
    var s1 := s[VERSION_LENGTH..];
    var s2 := PutReason(reason) + tail;
    assert s1 == [0] + s2;
    assert s1[1..] == s2;
    assert s2[..4] == PutU32(|reason|) && s2[4..4 + |reason|] == reason;
  }

  /** Without type None the types offered are reported. */
  lemma NoneMissingIsReported(version: seq<byte>, types: seq<byte>, tail: seq<byte>, polls: nat)
    requires |version| == VERSION_LENGTH && 0 < |types| < 256 && SECURITY_NONE !in types
    ensures var count: byte := |types|;
      Parse(version + [count] + types + tail, polls) == Err(NoneUnavailable(types))
  {
    hide ParseSecurityResult;
    var count: byte := |types|;
    var s := version + [count] + types + tail;
    var s1 := s[VERSION_LENGTH..];
    assert s1 == [count] + types + tail;
    assert s1[1..1 + |types|] == types;
  }

  /** A failed security result is reported with its reason. */
  lemma AuthFailureIsReported(
    version: seq<byte>, types: seq<byte>, code: nat, reason: seq<byte>, tail: seq<byte>, polls: nat)
    requires |version| == VERSION_LENGTH && 0 < |types| < 256 && SECURITY_NONE in types
    requires 0 < code < 0x1_0000_0000 && |reason| < 0x1_0000_0000
    ensures var count: byte := |types|;
      Parse(version + ([count] + (types + (PutU32(code) + (PutReason(reason) + tail)))), polls)
        == Err(AuthFailedBecause(reason))
  {
    var s4 := PutReason(reason) + tail;
    var s3 := PutU32(code) + s4;
    ReasonIsReported(code, reason, tail);
    ResultFails(code, s4);
    hide PutU32, PutReason, ParseSecurity, ParseSecurityResult, ParseAuthFailure;
    OfferIsAccepted(types, s3);
    var count: byte := |types|;
    VersionIsRead(version, [count] + (types + s3));
  }

  lemma VersionIsRead(version: seq<byte>, rest: seq<byte>)
    requires |version| == VERSION_LENGTH
    ensures ParseHello(version + rest) == ParseSecurity(rest)
  {
    hide ParseSecurity;
    assert (version + rest)[VERSION_LENGTH..] == rest;
  }

  lemma OfferIsAccepted(types: seq<byte>, rest: seq<byte>)
    requires 0 < |types| < 256 && SECURITY_NONE in types
    ensures var count: byte := |types|; ParseSecurity([count] + (types + rest)) == ParseSecurityResult(rest)
  {
    hide ParseSecurityResult;
    var count: byte := |types|;
    var offer := types + rest;
    var s := [count] + offer;
    assert s[1..] == offer && offer[..|types|] == types && offer[|types|..] == rest;
    assert s[1..1 + |types|] == offer[..|types|] && s[1 + |types|..] == offer[|types|..];
  }

  lemma ResultFails(code: nat, rest: seq<byte>)
    requires 0 < code < 0x1_0000_0000
    ensures ParseSecurityResult(PutU32(code) + rest) == Err(ParseAuthFailure(code, rest))
  {
    hide PutU32, ParseInit, ParseAuthFailure;
    var s := PutU32(code) + rest;
    assert s[..4] == PutU32(code) && s[4..] == rest;
  }

  lemma ReasonIsReported(code: nat, reason: seq<byte>, tail: seq<byte>)
    requires |reason| < 0x1_0000_0000
    ensures ParseAuthFailure(code, PutReason(reason) + tail) == AuthFailedBecause(reason)
  {
    hide PutU32;
    var s := PutReason(reason) + tail;
    assert s[..4] == PutU32(|reason|) && s[4..4 + |reason|] == reason;
  }

  /** After any good rectangles, one in an encoding other than Raw ends the capture, and the encoding is
      reported. */
  lemma {:induction false} EncodingIsReported(
    rects: seq<Rect>, fields: seq<byte>, encoding: nat, tail: seq<byte>, n: nat)
    requires forall r | r in rects :: RectOk(r)
    requires |fields| == 8 && 0 < encoding < 0x1_0000_0000 && n > |rects|
    ensures ParseRects(PutRects(rects) + (fields + PutU32(encoding) + tail), n) == Err(UnsupportedEncoding(encoding))
    decreases |rects|
  {
    hide RectOk, PutRect, ParseRect;
    var bad := fields + PutU32(encoding) + tail;
    if rects == [] {
      BadRect(fields, encoding, tail);
      assert PutRects(rects) + bad == bad;
    } else {
      RectRoundTrip(rects[0], PutRects(rects[1..]) + bad);
      EncodingIsReported(rects[1..], fields, encoding, tail, n - 1);
      assert PutRects(rects) + bad == PutRect(rects[0]) + (PutRects(rects[1..]) + bad);
    }
  }

  lemma BadRect(fields: seq<byte>, encoding: nat, tail: seq<byte>)
    requires |fields| == 8 && 0 < encoding < 0x1_0000_0000
    ensures ParseRect(fields + PutU32(encoding) + tail) == Err(UnsupportedEncoding(encoding))
  {
    hide PutU32;
    assert (fields + PutU32(encoding) + tail)[8..12] == PutU32(encoding);
  }

  /** After any skipped messages, a message of an unknown type ends the capture, and the type is reported. */
  lemma UnknownMessageIsReported(ms: seq<Skipped>, kind: byte, tail: seq<byte>, polls: nat)
    requires (forall m | m in ms :: SkippedOk(m)) && kind > 3 && polls > |ms|
    ensures ParseMessages(PutAllSkipped(ms) + ([kind] + tail), polls) == Err(UnexpectedMessage(kind))
  {
    SkipAll(ms, [kind] + tail, polls);
    hide PutAllSkipped;
  }
}
