/** Chunked file transfer over WinRM (internal/guest/windows/transport/winrm.go): the file is encoded
    as Base64, cut every 48000 characters, and each piece is decoded and written by its own remote
    command. */
module WinRM {
  import opened Wrappers
  import opened Bytes
  import opened Text
  import opened Base64

  const CHUNK_SIZE := 48000
  const BYTES_PER_CHUNK := 36000

  /** How a remote command ended. A transport error tells nothing about whether the command ran; a
      command that exits with another code than zero changed nothing. */
  datatype Outcome = TransportError(ran: bool) | Exited(code: int)

  datatype TransferError =
    | MakeDirFailed
    | WriteChunkFailed
    | ReadFailed
    | ReadExited(code: int)
    | NotBase64

  /** [IO.File]::WriteAllBytes of the decoded text. */
  function Overwrite(prev: Option<seq<byte>>, text: string): Option<seq<byte>> {
    var bytes := Decode(text);
    if bytes.None? then prev else bytes
  }

  /** Opening with mode Append creates a missing file. */
  function Append(prev: Option<seq<byte>>, text: string): Option<seq<byte>> {
    var bytes := Decode(text);
    if bytes.None? then prev else Some(Contents(prev) + bytes.value)
  }

  function Contents(file: Option<seq<byte>>): seq<byte> {
    if file.None? then [] else file.value
  }

  /** The guest, as one file and the fate of the commands to come. */
  class Guest {
    var file: Option<seq<byte>>
    var ran: nat
    const fate: nat -> Outcome

    constructor (file: Option<seq<byte>>, fate: nat -> Outcome)
      ensures this.file == file && ran == 0 && this.fate == fate
    {
      this.file, this.ran, this.fate := file, 0, fate;
    }

    /** Runs one command whose effect, if it has one, is `effect`. */
    method Run(effect: Option<seq<byte>>) returns (outcome: Outcome)
      modifies this
      ensures ran == old(ran) + 1 && outcome == fate(old(ran))
      ensures file == Ran(outcome, old(file), effect)
    {
      outcome := fate(ran);
      ran := ran + 1;
      match outcome
      case TransportError(took) => if took { file := effect; }
      case Exited(code) => if code == 0 { file := effect; }
    }
  }

  function Ran(outcome: Outcome, prev: Option<seq<byte>>, effect: Option<seq<byte>>): Option<seq<byte>> {
    match outcome
    case TransportError(took) => if took then effect else prev
    case Exited(code) => if code == 0 then effect else prev
  }

  // ---- Where the chunks fall ----

  function Min(a: nat, b: nat): nat {
    if a < b then a else b
  }

  /** The bytes of the file that chunk k carries. */
  function Slice(data: seq<byte>, k: nat): seq<byte>
    requires BYTES_PER_CHUNK * k <= |data|
  {
    data[BYTES_PER_CHUNK * k..Min(BYTES_PER_CHUNK * (k + 1), |data|)]
  }

  function ChunkCount(data: seq<byte>): nat {
    (|data| + BYTES_PER_CHUNK - 1) / BYTES_PER_CHUNK
  }

  /** A piece that starts after a whole number of groups, and ends after one or at the end of the file,
      is encoded by itself. */
  lemma PieceOfEncoding(before: seq<byte>, piece: seq<byte>, tail: seq<byte>)
    requires |before| % 3 == 0 && (|piece| % 3 == 0 || tail == [])
    ensures Encode(before + piece + tail) == Encode(before) + Encode(piece) + Encode(tail)
  {
    hide Encode;
    assert before + piece + tail == before + (piece + tail);
    EncodeConcat(before, piece + tail);
    if tail == [] {
      EncodeNothing();
      assert piece + tail == piece;
      assert Encode(before) + Encode(piece) + "" == Encode(before) + Encode(piece);
    } else {
      EncodeConcat(piece, tail);
      assert Encode(before) + (Encode(piece) + Encode(tail)) == Encode(before) + Encode(piece) + Encode(tail);
    }
  }

  lemma ChunkEnds(data: seq<byte>, k: nat)
    requires k < ChunkCount(data)
    ensures CHUNK_SIZE * k < |Encode(data)|
    ensures |Encode(data[..BYTES_PER_CHUNK * k])| == CHUNK_SIZE * k
    ensures |Encode(Slice(data, k))| == Min(CHUNK_SIZE * (k + 1), |Encode(data)|) - CHUNK_SIZE * k
  {
    hide Encode;
    EncodedLength(data);
    EncodedLength(data[..BYTES_PER_CHUNK * k]);
    EncodedLength(Slice(data, k));
  }

  /** Cutting the encoded text every 48000 characters cuts the file every 36000 bytes: each chunk is
      the encoding of its own slice, so it decodes to that slice whatever comes before or after. */
  lemma ChunkIsSlice(data: seq<byte>, k: nat)
    requires k < ChunkCount(data)
    ensures 48000 * k < |Encode(data)| && 36000 * k <= |data|
    ensures var end := Min(48000 * (k + 1), |Encode(data)|);
      Decode(Encode(data)[48000 * k..end]) == Some(data[36000 * k..Min(36000 * (k + 1), |data|)])
  {
    hide Encode, Decode, Slice, ChunkCount;
    var before, piece, tail := Parts(data, k);
    PieceOfEncoding(before, piece, tail);
    ChunkEnds(data, k);
    RoundTrip(piece);
    Middle(Encode(before), Encode(piece), Encode(tail));
    SliceIs(data, k);
    hide Min;
  }

  lemma SliceIs(data: seq<byte>, k: nat)
    requires 36000 * k <= |data|
    ensures Slice(data, k) == data[36000 * k..Min(36000 * (k + 1), |data|)]
  {
  }

  lemma ChunkStarts(data: seq<byte>, k: nat)
    requires k < ChunkCount(data)
    ensures BYTES_PER_CHUNK * k < |data| && BYTES_PER_CHUNK * k % 3 == 0
  {
    assert BYTES_PER_CHUNK * k == 3 * (12000 * k);
  }

  lemma Parts(data: seq<byte>, k: nat) returns (before: seq<byte>, piece: seq<byte>, tail: seq<byte>)
    requires k < ChunkCount(data)
    ensures BYTES_PER_CHUNK * k <= |data| && before == data[..BYTES_PER_CHUNK * k] && piece == Slice(data, k)
    ensures data == before + piece + tail
    ensures |before| % 3 == 0 && (|piece| % 3 == 0 || tail == [])
  {
    ChunkStarts(data, k);
    hide ChunkCount;
    before, piece := data[..BYTES_PER_CHUNK * k], Slice(data, k);
    tail := data[BYTES_PER_CHUNK * k + |piece|..];
  }

  lemma Middle(a: string, b: string, c: string)
    ensures (a + b + c)[|a|..|a| + |b|] == b
  {
  }

  lemma CountMatches(data: seq<byte>)
    ensures CHUNK_SIZE * ChunkCount(data) >= |Encode(data)|
    ensures ChunkCount(data) > 0 ==> CHUNK_SIZE * (ChunkCount(data) - 1) < |Encode(data)|
  {
    EncodedLength(data);
    hide Encode;
  }

  // ---- What an upload leaves behind ----

  /** The remote file after the commands for the first chunks ended as `fates` says. */
  function After(prev: Option<seq<byte>>, data: seq<byte>, fates: seq<Outcome>): Option<seq<byte>>
    requires |fates| <= ChunkCount(data)
    decreases |fates|
  {
    if fates == [] then prev
    else
      var k := |fates| - 1;
      var was := After(prev, data, fates[..k]);
      Ran(fates[k], was, Written(was, data, k))
  }

  /** Chunk k written over or after what is there. */
  function Written(was: Option<seq<byte>>, data: seq<byte>, k: nat): Option<seq<byte>>
    requires k < ChunkCount(data)
  {
    Some((if k == 0 then [] else Contents(was)) + Slice(data, k))
  }

  function Fates(fate: nat -> Outcome, at: nat, n: nat): (r: seq<Outcome>)
    ensures |r| == n
  {
    seq(n, k requires 0 <= k => fate(at + k))
  }

  ghost predicate AllExited(fates: seq<Outcome>) {
    forall k :: 0 <= k < |fates| ==> fates[k].Exited?
  }

  ghost predicate AllZero(fates: seq<Outcome>) {
    forall k :: 0 <= k < |fates| ==> fates[k] == Exited(0)
  }

  /** One write command: the first chunk overwrites, the others append. */
  method SendChunk(guest: Guest, encoded: string, i: nat, ghost data: seq<byte>, ghost k: nat)
    returns (outcome: Outcome)
    requires encoded == Encode(data) && k < ChunkCount(data) && i == CHUNK_SIZE * k
    modifies guest
    ensures guest.ran == old(guest.ran) + 1 && outcome == guest.fate(old(guest.ran))
    ensures guest.file == Ran(outcome, old(guest.file), Written(old(guest.file), data, k))
  {
    hide Encode, Decode, Slice;
    ChunkIsSlice(data, k);
    SliceIs(data, k);
    var end := i + CHUNK_SIZE;
    if end > |encoded| {
      end := |encoded|;
    }
    var chunk := encoded[i..end];
    if i == 0 {
      assert [] + Slice(data, k) == Slice(data, k);
      outcome := guest.Run(Overwrite(guest.file, chunk));
    } else {
      outcome := guest.Run(Append(guest.file, chunk));
    }
  }

  /** Upload. Exit codes are not looked at: only a transport error stops it. */
  method Upload(guest: Guest, data: seq<byte>) returns (failure: Option<TransferError>, ghost sent: nat)
    modifies guest
    ensures guest.fate(old(guest.ran)).TransportError? <==> failure == Some(MakeDirFailed)
    ensures failure == Some(MakeDirFailed) ==> guest.file == old(guest.file)
    ensures failure != Some(MakeDirFailed) ==>
      && sent <= ChunkCount(data) && guest.ran == old(guest.ran) + 1 + sent
      && guest.file == After(old(guest.file), data, Fates(guest.fate, old(guest.ran) + 1, sent))
    ensures failure.None? ==> sent == ChunkCount(data) && AllExited(Fates(guest.fate, old(guest.ran) + 1, sent))
    ensures failure.Some? && failure != Some(MakeDirFailed) ==>
      failure == Some(WriteChunkFailed) && sent > 0 && guest.fate(guest.ran - 1).TransportError?
  {
    hide Encode, Written;
    ghost var start, was := guest.ran + 1, guest.file;
    sent := 0;
    var made := guest.Run(guest.file);
    if made.TransportError? { return Some(MakeDirFailed), 0; }
    var encoded := Encode(data);
    CountMatches(data);
    var i := 0;
    while i < |encoded|
      invariant i == CHUNK_SIZE * sent && sent <= ChunkCount(data)
      invariant guest.ran == start + sent
      invariant guest.file == After(was, data, Fates(guest.fate, start, sent))
      invariant AllExited(Fates(guest.fate, start, sent))
      decreases |encoded| - i
    {
      assert sent < ChunkCount(data);
      var outcome := SendChunk(guest, encoded, i, data, sent);
      sent := sent + 1;
      ghost var fates := Fates(guest.fate, start, sent);
      assert fates[..sent - 1] == Fates(guest.fate, start, sent - 1) && fates[sent - 1] == outcome;
      if outcome.TransportError? { return Some(WriteChunkFailed), sent; }
      i := i + CHUNK_SIZE;
    }
    failure := None;
  }

  /** When every command so far exited with zero, the remote file is the first 36000 * k bytes. */
  lemma {:induction false} PrefixAfter(prev: Option<seq<byte>>, data: seq<byte>, fates: seq<Outcome>)
    requires 0 < |fates| <= ChunkCount(data) && AllZero(fates)
    ensures After(prev, data, fates) == Some(data[..Min(36000 * |fates|, |data|)])
    decreases |fates|
  {
    var k := |fates| - 1;
    if k > 0 {
      PrefixAfter(prev, data, fates[..k]);
      assert data[..BYTES_PER_CHUNK * k] + Slice(data, k) == data[..Min(BYTES_PER_CHUNK * |fates|, |data|)];
    } else {
      assert [] + Slice(data, 0) == data[..Min(BYTES_PER_CHUNK, |data|)];
    }
  }

  /** After a good first command the file is never too long, and too short once a command failed. */
  lemma {:induction false} SizeAfter(prev: Option<seq<byte>>, data: seq<byte>, fates: seq<Outcome>)
    requires 0 < |fates| <= ChunkCount(data) && AllExited(fates) && fates[0] == Exited(0)
    ensures |Contents(After(prev, data, fates))| <= Min(BYTES_PER_CHUNK * |fates|, |data|)
    ensures !AllZero(fates) ==>
      |Contents(After(prev, data, fates))| < Min(BYTES_PER_CHUNK * |fates|, |data|)
    decreases |fates|
  {
    var k := |fates| - 1;
    if k > 0 {
      SizeAfter(prev, data, fates[..k]);
      assert fates[k].Exited?;
    }
  }

  /** After a failed first command the file still starts with what was there. */
  lemma {:induction false} StaleStart(prev: Option<seq<byte>>, data: seq<byte>, fates: seq<Outcome>)
    requires 0 < |fates| <= ChunkCount(data) && AllExited(fates) && fates[0] != Exited(0)
    ensures Contents(prev) <= Contents(After(prev, data, fates))
    decreases |fates|
  {
    var k := |fates| - 1;
    if k > 0 {
      StaleStart(prev, data, fates[..k]);
      assert fates[k].Exited?;
    } else {
      assert After(prev, data, fates[..0]) == prev;
    }
  }

  /** A finished upload puts exactly the data there, whatever was there before, if and only if the
      data is not empty and every write command exited with zero. */
  lemma UploadFaithfulIff(data: seq<byte>, fates: seq<Outcome>)
    requires |fates| == ChunkCount(data) && AllExited(fates)
    ensures (forall prev :: After(prev, data, fates) == Some(data)) <==> data != [] && AllZero(fates)
  {
    hide After, Slice;
    if data == [] {
      AfterNothing(data, fates, None);
    } else if AllZero(fates) {
      forall prev
        ensures After(prev, data, fates) == Some(data)
      {
        PrefixAfter(prev, data, fates);
        assert data[..|data|] == data;
      }
    } else if fates[0] == Exited(0) {
      SizeAfter(None, data, fates);
      assert After(None, data, fates) != Some(data);
    } else {
      var prev := Some(data + [0]);
      StaleStart(prev, data, fates);
      assert After(prev, data, fates) != Some(data);
    }
  }

  /** No command is sent for an empty file, so the remote file stays as it was, even missing. */
  lemma AfterNothing(data: seq<byte>, fates: seq<Outcome>, prev: Option<seq<byte>>)
    requires data == [] && |fates| == ChunkCount(data)
    ensures After(prev, data, fates) == prev
  {
  }

  // ---- Download ----

  /** Go's decoder skips line breaks. */
  function DropNewlines(s: string): string {
    if s == [] then [] else (if IsLineBreak(s[0]) then [] else [s[0]]) + DropNewlines(s[1..])
  }

  /** Download: the guest prints the encoded file and a line break. A missing file makes the command
      exit with a code other than zero. */
  method Download(guest: Guest, exitWhenMissing: int) returns (r: Result<seq<byte>, TransferError>)
    requires exitWhenMissing != 0
    modifies guest
    ensures guest.file == old(guest.file)
    ensures r.Ok? <==> guest.file.Some? && guest.fate(old(guest.ran)) == Exited(0)
    ensures r.Ok? ==> r.value == guest.file.value
    ensures guest.fate(old(guest.ran)).TransportError? <==> r == Err(ReadFailed)
  {
    hide Encode, Decode;
    var outcome := guest.Run(guest.file);
    if outcome.TransportError? { return Err(ReadFailed); }
    if outcome.code != 0 { return Err(ReadExited(outcome.code)); }
    if guest.file.None? { return Err(ReadExited(exitWhenMissing)); }
    var stdout := Encode(guest.file.value) + "\r\n";
    EncodedIsTight(guest.file.value);
    var encoded := Trim(stdout);
    var data := Decode(DropNewlines(encoded));
    RoundTrip(guest.file.value);
    r := if data.None? then Err(NotBase64) else Ok(data.value);
  }

  /** Nothing in an encoded text is white space, so trimming removes only what the shell added. */
  lemma EncodedIsTight(data: seq<byte>)
    ensures Trim(Encode(data) + "\r\n") == Encode(data)
    ensures DropNewlines(Encode(data)) == Encode(data)
  {
    var s := Encode(data);
    EncodedHasNoSpace(data);
    hide Encode;
    assert s + "\r\n" == "" + s + "\r\n";
    TrimAround("", s, "\r\n");
    if s != [] {
      TrimTight(s);
    }
    NothingToDrop(s);
  }

  ghost predicate NoSpace(s: string) {
    forall k :: 0 <= k < |s| ==> !IsSpace(s[k])
  }

  lemma DigitsNoSpace(a: byte, b: byte, c: byte)
    ensures NoSpace(PutGroup(a, b, c))
  {
  }

  lemma {:induction false} EncodedHasNoSpace(data: seq<byte>)
    ensures NoSpace(Encode(data))
  {
    if |data| > 2 {
      EncodedHasNoSpace(data[3..]);
      DigitsNoSpace(data[0], data[1], data[2]);
    } else if |data| == 2 {
      DigitsNoSpace(data[0], data[1], 0);
    } else if |data| == 1 {
      DigitsNoSpace(data[0], 0, 0);
    }
    hide PutGroup;
  }

  lemma {:induction false} NothingToDrop(s: string)
    requires NoSpace(s)
    ensures DropNewlines(s) == s
  {
    if s != [] {
      NothingToDrop(s[1..]);
    }
  }

  /** The whole promise: a nonempty file sent by commands that all exit with zero comes back
      unchanged, whatever the remote file held. */
  method UploadThenDownload(guest: Guest, data: seq<byte>, exitWhenMissing: int)
    returns (failure: Option<TransferError>, r: Result<seq<byte>, TransferError>)
    requires data != [] && exitWhenMissing != 0
    requires forall k :: guest.ran <= k ==> guest.fate(k) == Exited(0)
    modifies guest
    ensures failure.None? && r == Ok(data)
  {
    hide After;
    ghost var at, prev := guest.ran + 1, guest.file;
    ghost var sent;
    failure, sent := Upload(guest, data);
    UploadFaithfulIff(data, Fates(guest.fate, at, sent));
    assert After(prev, data, Fates(guest.fate, at, sent)) == Some(data);
    r := Download(guest, exitWhenMissing);
  }
}
