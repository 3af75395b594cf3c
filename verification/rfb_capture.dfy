/** The image side of the RFB 3.8 screenshot client (internal/vnc/capture.go): the requests it sends,
    the pixel format it asks for, Raw rectangles, clipping and conversion to RGBA.

    `Shown` says what a framebuffer must show after a list of rectangles, in terms of the pixel
    format the client itself requested; `Image.Paint` is the painting loop. */
module RfbCapture {
  import opened Bytes
  import opened RfbWire

  // ---- What the client sends ----

  const VERSION_LENGTH := 12
  const CLIENT_VERSION: seq<byte> := [82, 70, 66, 32, 48, 48, 51, 46, 48, 48, 56, 10]
  const SECURITY_NONE: byte := 1
  const SET_PIXEL_FORMAT: seq<byte> :=
    [0, 0, 0, 0, 32, 24, 0, 1] + PutU16(255) + PutU16(255) + PutU16(255) + [16, 8, 0, 0, 0, 0]
  const SET_ENCODINGS: seq<byte> := [2, 0] + PutU16(1) + PutU32(0)

  function UpdateRequest(width: nat, height: nat): seq<byte>
    requires width < 65536 && height < 65536
  {
    [3, 0] + PutU16(0) + PutU16(0) + PutU16(width) + PutU16(height)
  }

  function ClientBytes(width: nat, height: nat): seq<byte>
    requires width < 65536 && height < 65536
  {
    CLIENT_VERSION + [SECURITY_NONE] + [1] + SET_PIXEL_FORMAT + SET_ENCODINGS + UpdateRequest(width, height)
  }

  /** What a server finds in those bytes, by the field positions of sections 7.1.1, 7.1.2, 7.3.1, 7.5.1,
      7.5.2 and 7.5.3 of RFC 6143: version 3.8, security type None, a shared session; true colour pixels
      of 32 bits, depth 24, least byte first, blue lowest; the one encoding Raw; and a request for all of
      the width by height area, not an incremental one. */
  ghost predicate ServerReads(s: seq<byte>, width: nat, height: nat) {
    && |s| == 52
    && (forall k :: 0 <= k < 12 ==> s[k] as int == "RFB 003.008\n"[k] as int)
    && s[12] == 1 && s[13] == 1
    // SetPixelFormat: type, bits per pixel, depth, big-endian flag, true-colour flag, maxima, shifts
    && s[14] == 0 && s[18] == 32 && s[19] == 24 && s[20] == 0 && s[21] != 0
    && s[22] == 0 && s[23] == 255 && s[24] == 0 && s[25] == 255 && s[26] == 0 && s[27] == 255
    && s[28] == 16 && s[29] == 8 && s[30] == 0
    // SetEncodings: type, count, one encoding
    && s[34] == 2 && s[36] == 0 && s[37] == 1
    && s[38] == 0 && s[39] == 0 && s[40] == 0 && s[41] == 0
    // FramebufferUpdateRequest: type, incremental flag, x, y, width, height
    && s[42] == 3 && s[43] == 0
    && s[44] == 0 && s[45] == 0 && s[46] == 0 && s[47] == 0
    && s[48] as int * 256 + s[49] as int == width && s[50] as int * 256 + s[51] as int == height
  }

  lemma ClientIsRead(width: nat, height: nat)
    requires width < 65536 && height < 65536
    ensures ServerReads(ClientBytes(width, height), width, height)
  {
    SetupIsRead();
    RequestIsRead(width, height);
    var setup, request := Setup(), UpdateRequest(width, height);
    var s := ClientBytes(width, height);
    assert s == setup + request;
    hide UpdateRequest, ClientBytes, Setup;
    assert forall k :: 0 <= k < 42 ==> s[k] == setup[k];
    assert forall k :: 0 <= k < 10 ==> s[42 + k] == request[k];
  }

  /** Everything but the request. */
  function Setup(): (s: seq<byte>)
    ensures |s| == 42
  {
    CLIENT_VERSION + [SECURITY_NONE] + [1] + SET_PIXEL_FORMAT + SET_ENCODINGS
  }

  lemma SetupIsRead()
    ensures var s := Setup();
      && (forall k :: 0 <= k < 12 ==> s[k] as int == "RFB 003.008\n"[k] as int)
      && s[12] == 1 && s[13] == 1
      && s[14] == 0 && s[18] == 32 && s[19] == 24 && s[20] == 0 && s[21] != 0
      && s[22] == 0 && s[23] == 255 && s[24] == 0 && s[25] == 255 && s[26] == 0 && s[27] == 255
      && s[28] == 16 && s[29] == 8 && s[30] == 0
      && s[34] == 2 && s[36] == 0 && s[37] == 1
      && s[38] == 0 && s[39] == 0 && s[40] == 0 && s[41] == 0
  {
    var s := Setup();
    assert s[..12] == CLIENT_VERSION && s[12] == SECURITY_NONE && s[13] == 1;
    assert s[14..34] == SET_PIXEL_FORMAT && s[34..42] == SET_ENCODINGS;
    var f, e := SET_PIXEL_FORMAT, SET_ENCODINGS;
    assert forall k :: 0 <= k < 20 ==> s[14 + k] == f[k];
    assert forall k :: 0 <= k < 8 ==> s[34 + k] == e[k];
    assert PutU16(255) == [0, 255] && PutU16(1) == [0, 1] && PutU32(0) == [0, 0, 0, 0];
    hide Setup, PutU16, PutU32;
    assert f[4] == 32 && f[5] == 24 && f[6] == 0 && f[7] == 1;
    assert e[2] == 0 && e[3] == 1;
  }

  lemma RequestIsRead(width: nat, height: nat)
    requires width < 65536 && height < 65536
    ensures var q := UpdateRequest(width, height);
      && |q| == 10 && q[0] == 3 && q[1] == 0 && q[2] == 0 && q[3] == 0 && q[4] == 0 && q[5] == 0
      && q[6] as int * 256 + q[7] as int == width && q[8] as int * 256 + q[9] as int == height
  {
    var q := UpdateRequest(width, height);
    assert q[2..4] == PutU16(0) && q[4..6] == PutU16(0);
    assert q[6..8] == PutU16(width) && q[8..10] == PutU16(height);
  }

  // ---- Pixels, by section 7.4 of RFC 6143 ----

  /** Red, green, blue and alpha of one image pixel. */
  datatype Rgba = Rgba(r: int, g: int, b: int, a: int)

  const BLANK := Rgba(0, 0, 0, 0)

  datatype PixelFormat = PixelFormat(
    bigEndian: bool, redMax: nat, greenMax: nat, blueMax: nat, redShift: nat, greenShift: nat, blueShift: nat)

  /** The format inside a SetPixelFormat message. */
  function FormatIn(m: seq<byte>): PixelFormat
    requires |m| == 20
  {
    PixelFormat(m[6] != 0, U16(m[8..10]), U16(m[10..12]), U16(m[12..14]), m[14], m[15], m[16])
  }

  function Pow2(n: nat): (r: nat)
    ensures r > 0
  {
    if n == 0 then 1 else 2 * Pow2(n - 1)
  }

  /** One colour component of a 32-bit pixel value: shift right, then mask with the maximum. */
  function Component(value: nat, shift: nat, max: nat): nat {
    value / Pow2(shift) % (max + 1)
  }

  function PixelValue(f: PixelFormat, q: seq<byte>): nat
    requires |q| == 4
  {
    if f.bigEndian then U32(q) else U32([q[3], q[2], q[1], q[0]])
  }

  function Decode(f: PixelFormat, q: seq<byte>): Rgba
    requires |q| == 4
  {
    var v := PixelValue(f, q);
    Rgba(Component(v, f.redShift, f.redMax), Component(v, f.greenShift, f.greenMax),
         Component(v, f.blueShift, f.blueMax), 255)
  }

  lemma RequestedFormat()
    ensures FormatIn(SET_PIXEL_FORMAT) == PixelFormat(false, 255, 255, 255, 16, 8, 0)
  {
    var m := SET_PIXEL_FORMAT;
    assert m[8..10] == PutU16(255) && m[10..12] == PutU16(255) && m[12..14] == PutU16(255);
  }

  lemma ByteComponents(q0: nat, q1: nat, q2: nat, q3: nat)
    requires q0 < 256 && q1 < 256 && q2 < 256 && q3 < 256
    ensures var v := q3 * 0x100_0000 + q2 * 0x1_0000 + q1 * 256 + q0;
      v / 65536 % 256 == q2 && v / 256 % 256 == q1 && v % 256 == q0
  {
    var v := q3 * 0x100_0000 + q2 * 0x1_0000 + q1 * 256 + q0;
    assert v / 65536 == q3 * 256 + q2;
    assert v / 256 == q3 * 65536 + q2 * 256 + q1;
  }

  lemma Shifts()
    ensures Pow2(0) == 1 && Pow2(8) == 256 && Pow2(16) == 65536
  {
    assert Pow2(4) == 16;
    assert Pow2(8) == 16 * Pow2(4);
    assert Pow2(12) == 16 * Pow2(8);
    assert Pow2(16) == 16 * Pow2(12);
  }

  /** The bytes the client picks are the components of the format it requested. */
  lemma PicksMatchFormat(q: seq<byte>)
    requires |q| == 4
    ensures Decode(FormatIn(SET_PIXEL_FORMAT), q) == Rgba(q[2], q[1], q[0], 255)
  {
    RequestedFormat();
    Shifts();
    ByteComponents(q[0], q[1], q[2], q[3]);
    hide FormatIn, Pow2;
  }

  // ---- Rectangles and what they paint ----

  datatype Rect = Rect(x: nat, y: nat, w: nat, h: nat, data: seq<byte>)

  predicate RectOk(r: Rect) {
    r.x < 65536 && r.y < 65536 && r.w < 65536 && r.h < 65536 && |r.data| == r.w * r.h * 4
  }

  predicate Covers(r: Rect, x: int, y: int) {
    r.x <= x < r.x + r.w && r.y <= y < r.y + r.h
  }

  lemma MulMono(a: nat, b: nat, c: nat)
    requires a <= b
    ensures a * c <= b * c
  {
  }

  lemma SourceIndex(r: Rect, px: nat, py: nat)
    requires RectOk(r) && px < r.w && py < r.h
    ensures 0 <= (py * r.w + px) * 4 && (py * r.w + px) * 4 + 4 <= |r.data|
  {
    MulMono(py + 1, r.h, r.w);
    assert (py + 1) * r.w == py * r.w + r.w;
    assert r.w * r.h * 4 == (r.h * r.w) * 4;
  }

  /** The colour a rectangle gives to a pixel it covers. */
  function PixelOf(r: Rect, x: int, y: int): Rgba
    requires RectOk(r) && Covers(r, x, y)
  {
    SourceIndex(r, x - r.x, y - r.y);
    var i := ((y - r.y) * r.w + (x - r.x)) * 4;
    Decode(FormatIn(SET_PIXEL_FORMAT), r.data[i..i + 4])
  }

  /** The colour of pixel (x, y) after the rectangles, painted in order on a blank image. */
  function Shown(rects: seq<Rect>, x: int, y: int): Rgba
    requires forall r | r in rects :: RectOk(r)
  {
    if rects == [] then BLANK
    else
      var last := rects[|rects| - 1];
      if Covers(last, x, y) then PixelOf(last, x, y) else Shown(rects[..|rects| - 1], x, y)
  }

  /** The last rectangle that covers a pixel decides it. */
  lemma {:induction false} LastRectWins(rects: seq<Rect>, i: nat, x: int, y: int)
    requires forall r | r in rects :: RectOk(r)
    requires i < |rects| && Covers(rects[i], x, y)
    requires forall j :: i < j < |rects| ==> !Covers(rects[j], x, y)
    ensures Shown(rects, x, y) == PixelOf(rects[i], x, y)
  {
    hide PixelOf;
    if i < |rects| - 1 {
      LastRectWins(rects[..|rects| - 1], i, x, y);
    }
  }

  /** A pixel no rectangle covers stays four zero bytes. */
  lemma {:induction false} UncoveredStaysBlank(rects: seq<Rect>, x: int, y: int)
    requires forall r | r in rects :: RectOk(r)
    requires forall j :: 0 <= j < |rects| ==> !Covers(rects[j], x, y)
    ensures Shown(rects, x, y) == BLANK
  {
    hide PixelOf;
    if rects != [] {
      UncoveredStaysBlank(rects[..|rects| - 1], x, y);
    }
  }

  /** The pixel in bytes: the last rectangle whose columns and rows include (x, y) gives its third,
      second and first byte there as red, green and blue, opaque; without one the pixel is four zeros. */
  lemma ShownBytes(rects: seq<Rect>, i: nat, x: int, y: int)
    requires forall r | r in rects :: RectOk(r)
    requires i <= |rects|
    requires i < |rects| ==>
      rects[i].x <= x < rects[i].x + rects[i].w && rects[i].y <= y < rects[i].y + rects[i].h
    requires forall j :: (if i < |rects| then i + 1 else 0) <= j < |rects| ==>
      !(rects[j].x <= x < rects[j].x + rects[j].w && rects[j].y <= y < rects[j].y + rects[j].h)
    ensures i == |rects| ==> Shown(rects, x, y) == Rgba(0, 0, 0, 0)
    ensures i < |rects| ==>
      var r := rects[i];
      var o := ((y - r.y) * r.w + (x - r.x)) * 4;
      && 0 <= o && o + 4 <= |r.data|
      && Shown(rects, x, y) == Rgba(r.data[o + 2], r.data[o + 1], r.data[o], 255)
  {
    hide Shown;
    if i < |rects| {
      LastRectWins(rects, i, x, y);
      var r := rects[i];
      assert r in rects;
      SourceIndex(r, x - r.x, y - r.y);
      var o := ((y - r.y) * r.w + (x - r.x)) * 4;
      PicksMatchFormat(r.data[o..o + 4]);
      hide Decode, FormatIn;
    } else {
      UncoveredStaysBlank(rects, x, y);
    }
  }

  // ---- The image buffer ----

  function Offset(width: nat, x: nat, y: nat): nat {
    y * (4 * width) + x * 4
  }

  /** For 16-bit sizes every offset stays inside the buffer, and every product in 63 bits. */
  lemma OffsetInside(width: nat, height: nat, x: nat, y: nat)
    requires width < 65536 && height < 65536 && x < width && y < height
    ensures Offset(width, x, y) + 4 <= 4 * width * height < 0x4000_0000_0000_0000
  {
    MulMono(y + 1, height, 4 * width);
    assert (y + 1) * (4 * width) == y * (4 * width) + 4 * width;
    assert height * (4 * width) == 4 * width * height;
    MulMono(height, 65536, 4 * width);
  }

  lemma OffsetsApart(width: nat, x: nat, y: nat, x': nat, y': nat)
    requires x < width && x' < width && (x, y) != (x', y')
    ensures Offset(width, x, y) + 4 <= Offset(width, x', y') || Offset(width, x', y') + 4 <= Offset(width, x, y)
  {
    if y < y' {
      MulMono(y + 1, y', 4 * width);
      assert (y + 1) * (4 * width) == y * (4 * width) + 4 * width;
    } else if y' < y {
      MulMono(y' + 1, y, 4 * width);
      assert (y' + 1) * (4 * width) == y' * (4 * width) + 4 * width;
    }
  }

  class Image {
    const width: nat
    const height: nat
    const pix: array<byte>

    ghost predicate Valid() {
      width < 65536 && height < 65536 && pix.Length == 4 * width * height
    }

    predicate Inside(x: int, y: int) {
      0 <= x < width && 0 <= y < height
    }

    ghost function At(x: int, y: int): Rgba
      requires Valid() && Inside(x, y)
      reads pix
    {
      OffsetInside(width, height, x, y);
      var o := Offset(width, x, y);
      Rgba(pix[o], pix[o + 1], pix[o + 2], pix[o + 3])
    }

    constructor (width: nat, height: nat)
      requires width < 65536 && height < 65536
      ensures this.width == width && this.height == height && Valid() && fresh(pix)
      ensures forall x, y | Inside(x, y) :: At(x, y) == BLANK
    {
      this.width, this.height := width, height;
      pix := new byte[4 * width * height](_ => 0);
      new;
      forall x, y | Inside(x, y)
        ensures At(x, y) == BLANK
      {
        OffsetInside(width, height, x, y);
      }
    }

    /** The four byte stores of one pixel change that pixel and no other. */
    method Store(x: nat, y: nat, r: byte, g: byte, b: byte)
      requires Valid() && Inside(x, y)
      modifies pix
      ensures forall x', y' | Inside(x', y') ::
                At(x', y') == if (x', y') == (x, y) then Rgba(r, g, b, 255) else old(At(x', y'))
    {
      OffsetInside(width, height, x, y);
      var offset := y * (4 * width) + x * 4;
      pix[offset] := r;
      pix[offset + 1] := g;
      pix[offset + 2] := b;
      pix[offset + 3] := 255;
      forall x', y' | Inside(x', y')
        ensures At(x', y') == if (x', y') == (x, y) then Rgba(r, g, b, 255) else old(At(x', y'))
      {
        OffsetInside(width, height, x', y');
        if (x', y') != (x, y) {
          OffsetsApart(width, x, y, x', y');
        }
      }
    }

    /** The pixels of `rect` met before row py, column px of the double loop. */
    predicate Reached(rect: Rect, py: int, px: int, x: int, y: int) {
      Covers(rect, x, y) && (y - rect.y < py || (y - rect.y == py && x - rect.x < px))
    }

    /** Paints one Raw rectangle, clipped to the image. */
    method Paint(rect: Rect)
      requires Valid() && RectOk(rect)
      modifies pix
      ensures forall x, y | Inside(x, y) ::
                At(x, y) == if Covers(rect, x, y) then PixelOf(rect, x, y) else old(At(x, y))
    {
      hide Decode, FormatIn, Offset, At;
      var py := 0;
      while py < rect.h
        invariant 0 <= py <= rect.h
        invariant forall x, y | Inside(x, y) ::
                    At(x, y) == if Reached(rect, py, 0, x, y) then PixelOf(rect, x, y) else old(At(x, y))
      {
        var px := 0;
        while px < rect.w
          invariant 0 <= px <= rect.w
          invariant forall x, y | Inside(x, y) ::
                      At(x, y) == if Reached(rect, py, px, x, y) then PixelOf(rect, x, y) else old(At(x, y))
        {
          SourceIndex(rect, px, py);
          var srcIdx := (py * rect.w + px) * 4;
          var b, g, r := rect.data[srcIdx], rect.data[srcIdx + 1], rect.data[srcIdx + 2];
          var imgX, imgY := rect.x + px, rect.y + py;
          if imgX < width && imgY < height {
            PicksMatchFormat(rect.data[srcIdx..srcIdx + 4]);
            assert PixelOf(rect, imgX, imgY) == Rgba(r, g, b, 255);
            Store(imgX, imgY, r, g, b);
          }
          px := px + 1;
        }
        py := py + 1;
      }
    }
  }
}
