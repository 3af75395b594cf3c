/** Base64 with padding, by section 4 of RFC 4648. */
module Base64 {
  import opened Wrappers
  import opened Bytes

  const PAD := '='

  /** Table 1 of RFC 4648. */
  function Digit(i: nat): char
    requires i < 64
  {
    if i < 26 then 'A' + i as char
    else if i < 52 then 'a' + (i - 26) as char
    else if i < 62 then '0' + (i - 52) as char
    else if i == 62 then '+'
    else '/'
  }

  function Value(c: char): (v: Option<nat>)
    ensures v.Some? ==> v.value < 64
  {
    if 'A' <= c <= 'Z' then Some((c - 'A') as int)
    else if 'a' <= c <= 'z' then Some((c - 'a') as int + 26)
    else if '0' <= c <= '9' then Some((c - '0') as int + 52)
    else if c == '+' then Some(62)
    else if c == '/' then Some(63)
    else None
  }

  /** Reading a digit gives its value back, and no digit is the pad. */
  lemma DigitValue(i: nat)
    requires i < 64
    ensures Value(Digit(i)) == Some(i) && Digit(i) != PAD
  {
  }

  const ALPHABET := "ABCDEFGHIJKLMNOP" + "QRSTUVWXYZabcdef" + "ghijklmnopqrstuv" + "wxyz0123456789+/"

  lemma Digits0(i: nat)
    requires i < 16
    ensures Digit(i) == "ABCDEFGHIJKLMNOP"[i]
  {
    assert i == 0 || i == 1 || i == 2 || i == 3 || i == 4 || i == 5 || i == 6 || i == 7
        || i == 8 || i == 9 || i == 10 || i == 11 || i == 12 || i == 13 || i == 14 || i == 15;
  }

  lemma Digits16(i: nat)
    requires i < 16
    ensures Digit(16 + i) == "QRSTUVWXYZabcdef"[i]
  {
    assert i == 0 || i == 1 || i == 2 || i == 3 || i == 4 || i == 5 || i == 6 || i == 7
        || i == 8 || i == 9 || i == 10 || i == 11 || i == 12 || i == 13 || i == 14 || i == 15;
  }

  lemma Digits32(i: nat)
    requires i < 16
    ensures Digit(32 + i) == "ghijklmnopqrstuv"[i]
  {
    assert i == 0 || i == 1 || i == 2 || i == 3 || i == 4 || i == 5 || i == 6 || i == 7
        || i == 8 || i == 9 || i == 10 || i == 11 || i == 12 || i == 13 || i == 14 || i == 15;
  }

  lemma Digits48(i: nat)
    requires i < 16
    ensures Digit(48 + i) == "wxyz0123456789+/"[i]
  {
    assert i == 0 || i == 1 || i == 2 || i == 3 || i == 4 || i == 5 || i == 6 || i == 7
        || i == 8 || i == 9 || i == 10 || i == 11 || i == 12 || i == 13 || i == 14 || i == 15;
  }

  lemma DigitIs(i: nat)
    requires i < 64
    ensures |ALPHABET| == 64 && Digit(i) == ALPHABET[i]
  {
    hide Digit;
    if i < 16 {
      Digits0(i);
    } else if i < 32 {
      Digits16(i - 16);
    } else if i < 48 {
      Digits32(i - 32);
    } else {
      Digits48(i - 48);
    }
  }

  lemma ValueIs(c: char)
    ensures Value(c).Some? ==> Digit(Value(c).value) == c
  {
  }

  /** The digits are the 64 characters of that alphabet in order, and nothing else is a digit. */
  lemma DigitsAreAlphabet(c: char)
    ensures |ALPHABET| == 64 && forall i: nat :: i < 64 ==> Digit(i) == ALPHABET[i]
    ensures Value(c).Some? <==> c in ALPHABET
  {
    ValueIs(c);
    forall i: nat | i < 64
      ensures Digit(i) == ALPHABET[i] && Value(Digit(i)) == Some(i)
    {
      DigitIs(i);
      DigitValue(i);
    }
    DigitIs(0);
    hide Digit, Value;
    if c in ALPHABET {
      var i: nat :| i < 64 && ALPHABET[i] == c;
      assert Value(Digit(i)) == Some(i);
    }
  }

  // ---- One group of 24 bits ----

  function PutGroup(a: byte, b: byte, c: byte): (s: string)
    ensures |s| == 4
  {
    var x: int, y: int, z: int := a, b, c;
    [Digit(x / 4), Digit(x % 4 * 16 + y / 16), Digit(y % 16 * 4 + z / 64), Digit(z % 64)]
  }

  /** The three bytes of four digits, or None when a character is not a digit. */
  function GetGroup(s: string): (r: Option<seq<byte>>)
    requires |s| == 4
    ensures r.Some? ==> |r.value| == 3
  {
    var p, q, u, v := Value(s[0]), Value(s[1]), Value(s[2]), Value(s[3]);
    if p.None? || q.None? || u.None? || v.None? then None
    else Some([p.value * 4 + q.value / 16, q.value % 16 * 16 + u.value / 4, u.value % 4 * 64 + v.value])
  }

  lemma SixBits(x: nat, y: nat, z: nat)
    requires x < 256 && y < 256 && z < 256
    ensures var p, q, u, v := x / 4, x % 4 * 16 + y / 16, y % 16 * 4 + z / 64, z % 64;
      p < 64 && q < 64 && u < 64 && p * 4 + q / 16 == x && q % 16 * 16 + u / 4 == y && u % 4 * 64 + v == z
  {
    assert (x % 4 * 16 + y / 16) / 16 == x % 4 && (x % 4 * 16 + y / 16) % 16 == y / 16;
    assert (y % 16 * 4 + z / 64) / 4 == y % 16 && (y % 16 * 4 + z / 64) % 4 == z / 64;
  }

  lemma GroupRoundTrip(a: byte, b: byte, c: byte)
    ensures GetGroup(PutGroup(a, b, c)) == Some([a, b, c])
  {
    var x: int, y: int, z: int := a, b, c;
    SixBits(x, y, z);
    DigitValue(x / 4);
    DigitValue(x % 4 * 16 + y / 16);
    DigitValue(y % 16 * 4 + z / 64);
    DigitValue(z % 64);
    hide Digit, Value;
  }

  /** The last group may end in one or two pads; spare bits of the digit before them are ignored. */
  function GetLast(s: string): Option<seq<byte>>
    requires |s| == 4
  {
    if s[3] != PAD then GetGroup(s)
    else if s[2] != PAD then
      var g := GetGroup([s[0], s[1], s[2], 'A']);
      if g.None? then None else Some(g.value[..2])
    else
      var g := GetGroup([s[0], s[1], 'A', 'A']);
      if g.None? then None else Some(g.value[..1])
  }

  // ---- Whole texts ----

  function Encode(data: seq<byte>): string {
    if |data| == 0 then ""
    else if |data| == 1 then PutGroup(data[0], 0, 0)[..2] + [PAD, PAD]
    else if |data| == 2 then PutGroup(data[0], data[1], 0)[..3] + [PAD]
    else PutGroup(data[0], data[1], data[2]) + Encode(data[3..])
  }

  function Decode(s: string): Option<seq<byte>> {
    if |s| == 0 then Some([])
    else if |s| < 4 then None
    else if |s| == 4 then GetLast(s)
    else
      var g, rest := GetGroup(s[..4]), Decode(s[4..]);
      if g.None? || rest.None? then None else Some(g.value + rest.value)
  }

  lemma {:induction false} EncodedLength(data: seq<byte>)
    ensures |Encode(data)| == (|data| + 2) / 3 * 4
  {
    if |data| > 2 {
      EncodedLength(data[3..]);
    }
  }

  lemma LastOne(a: byte)
    ensures Decode(Encode([a])) == Some([a])
  {
    var s := Encode([a]);
    GroupRoundTrip(a, 0, 0);
    var x: int := a;
    DigitValue(x % 4 * 16);
    assert Digit(0) == 'A';
    hide Digit, Value, GetGroup;
    assert [s[0], s[1], 'A', 'A'] == PutGroup(a, 0, 0);
    assert [a, 0, 0][..1] == [a];
  }

  lemma LastTwo(a: byte, b: byte)
    ensures Decode(Encode([a, b])) == Some([a, b])
  {
    var s := Encode([a, b]);
    GroupRoundTrip(a, b, 0);
    var y: int := b;
    DigitValue(y % 16 * 4);
    assert Digit(0) == 'A';
    hide Digit, Value, GetGroup;
    assert [s[0], s[1], s[2], 'A'] == PutGroup(a, b, 0);
    assert [a, b, 0][..2] == [a, b];
  }

  /** Decoding undoes encoding. */
  lemma {:induction false} RoundTrip(data: seq<byte>)
    ensures Decode(Encode(data)) == Some(data)
  {
    if |data| == 1 {
      LastOne(data[0]);
      assert data == [data[0]];
    } else if |data| == 2 {
      LastTwo(data[0], data[1]);
      assert data == [data[0], data[1]];
    } else if |data| > 2 {
      RoundTrip(data[3..]);
      GroupThenRest(data[0], data[1], data[2], data[3..]);
      assert data == [data[0], data[1], data[2]] + data[3..];
    }
  }

  lemma GroupThenRest(a: byte, b: byte, c: byte, rest: seq<byte>)
    requires Decode(Encode(rest)) == Some(rest)
    ensures Decode(PutGroup(a, b, c) + Encode(rest)) == Some([a, b, c] + rest)
  {
    GroupRoundTrip(a, b, c);
    PadFree(a, b, c);
    EncodedLength(rest);
    hide PutGroup, GetGroup, Encode;
    var s := PutGroup(a, b, c) + Encode(rest);
    assert s[..4] == PutGroup(a, b, c) && s[4..] == Encode(rest);
    if rest == [] {
      assert s == PutGroup(a, b, c);
      assert [a, b, c] + [] == [a, b, c];
    }
  }

  lemma PadFree(a: byte, b: byte, c: byte)
    ensures PutGroup(a, b, c)[3] != PAD
  {
    var z: int := c;
    DigitValue(z % 64);
    hide Digit, Value;
  }

  lemma EncodeStep(data: seq<byte>)
    requires |data| >= 3
    ensures Encode(data) == PutGroup(data[0], data[1], data[2]) + Encode(data[3..])
  {
  }

  /** After a whole number of three-byte groups the encoding starts afresh, and no pad has been
      written yet. */
  lemma {:induction false} EncodeConcat(a: seq<byte>, b: seq<byte>)
    requires |a| % 3 == 0
    ensures Encode(a + b) == Encode(a) + Encode(b)
  {
    hide PutGroup, Encode;
    if a == [] {
      assert a + b == b && Encode(a) == "" by { EncodeNothing(); }
      assert "" + Encode(b) == Encode(b);
    } else {
      EncodeConcat(a[3..], b);
      EncodeStep(a);
      EncodeStep(a + b);
      assert (a + b)[3..] == a[3..] + b;
      assert (a + b)[0] == a[0] && (a + b)[1] == a[1] && (a + b)[2] == a[2];
      var g := PutGroup(a[0], a[1], a[2]);
      assert g + (Encode(a[3..]) + Encode(b)) == (g + Encode(a[3..])) + Encode(b);
    }
  }

  lemma EncodeNothing()
    ensures Encode([]) == ""
  {
  }

  /** The test vectors in section 10 of RFC 4648: "foobar" and its prefixes. */
  lemma StandardVectors()
    ensures Encode([102]) == "Zg==" && Encode([102, 111]) == "Zm8=" && Encode([102, 111, 111]) == "Zm9v"
    ensures Encode([102, 111, 111, 98]) == "Zm9vYg==" && Encode([102, 111, 111, 98, 97]) == "Zm9vYmE="
    ensures Encode([102, 111, 111, 98, 97, 114]) == "Zm9vYmFy"
  {
    EncodeNothing();
    assert Encode([102, 111, 111]) == "Zm9v" + Encode([]);
  }
}
