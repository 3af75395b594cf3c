/** Byte access on top of a disk that only transfers whole 512-byte sectors
    (internal/vfs/qcow2.go). */
module Qcow2 {
  import opened Wrappers
  import opened Bytes

  const SECTOR_SIZE := 512

  datatype DiskError = OutOfRange

  function AlignDown(value: nat, alignment: nat): nat
    requires alignment > 0
  {
    value / alignment * alignment
  }

  function AlignUp(value: nat, alignment: nat): nat
    requires alignment > 0
  {
    if value % alignment == 0 then value else AlignDown(value, alignment) + alignment
  }

  /** Aligning finds the nearest sector boundary on either side. */
  lemma AlignedAround(value: nat)
    ensures AlignDown(value, SECTOR_SIZE) % 512 == 0 && AlignUp(value, SECTOR_SIZE) % 512 == 0
    ensures AlignDown(value, SECTOR_SIZE) <= value < AlignDown(value, SECTOR_SIZE) + 512
    ensures value <= AlignUp(value, SECTOR_SIZE) < value + 512
  {
  }

  /** The sectors around a range start and end at boundaries and contain it. */
  lemma SectorsAround(off: nat, len: nat)
    ensures var from, to := AlignDown(off, SECTOR_SIZE), AlignUp(off + len, SECTOR_SIZE);
      from % 512 == 0 && from <= off && off + len <= to && (to - from) % 512 == 0
  {
    AlignedAround(off);
    AlignedAround(off + len);
  }

  /** The disk as the qcow2 library offers it: reads and writes of whole sectors inside it. */
  class Disk {
    var data: seq<byte>

    constructor (data: seq<byte>)
      ensures this.data == data
    {
      this.data := data;
    }

    method Pread(offset: nat, buf: array<byte>) returns (error: Option<DiskError>)
      requires offset % 512 == 0 && buf.Length % 512 == 0
      modifies buf
      ensures error.Some? <==> offset + buf.Length > |data|
      ensures error.None? ==> buf[..] == data[offset..offset + buf.Length]
      ensures error.Some? ==> buf[..] == old(buf[..])
    {
      if offset + buf.Length > |data| { return Some(OutOfRange); }
      forall k | 0 <= k < buf.Length {
        buf[k] := data[offset + k];
      }
      error := None;
    }

    method Pwrite(offset: nat, buf: array<byte>) returns (error: Option<DiskError>)
      requires offset % 512 == 0 && buf.Length % 512 == 0
      modifies this
      ensures error.Some? <==> offset + buf.Length > |old(data)|
      ensures error.None? ==> data == Patched(old(data), offset, buf[..])
      ensures error.Some? ==> data == old(data)
    {
      if offset + buf.Length > |data| { return Some(OutOfRange); }
      data := data[..offset] + buf[..] + data[offset + buf.Length..];
      error := None;
    }

    // ---- The file on top of it ----

    /** ReadAt fills p from any offset; it fails, leaving p alone, exactly when the range leaves the
        sectors of the disk. */
    method ReadAt(p: array<byte>, off: nat) returns (n: nat, error: Option<DiskError>)
      modifies p
      ensures error.None? <==> p.Length == 0 || InSectors(data, off, p.Length)
      ensures error.None? ==> n == p.Length
      ensures error.None? && n > 0 ==> off + n <= |data| && p[..] == data[off..off + n]
      ensures error.Some? ==> p[..] == old(p[..])
    {
      if p.Length == 0 { return 0, None; }
      SectorsAround(off, p.Length);
      var alignedStart := AlignDown(off, SECTOR_SIZE);
      var alignedEnd := AlignUp(off + p.Length, SECTOR_SIZE);
      hide AlignDown, AlignUp;
      var buf := new byte[alignedEnd - alignedStart](_ => 0);
      error := Pread(alignedStart, buf);
      if error.Some? { return 0, error; }
      assert buf[..] == data[alignedStart..alignedEnd];
      CopyFrom(p, buf, off - alignedStart);
      SliceOfSlice(data, alignedStart, alignedEnd, off, p.Length);
      n := p.Length;
    }

    /** WriteAt reads the sectors around the range, changes the range and writes them back: the disk
        changes in exactly the range, or not at all. */
    method WriteAt(p: array<byte>, off: nat) returns (n: nat, error: Option<DiskError>)
      modifies this
      ensures error.None? <==> p.Length == 0 || InSectors(old(data), off, p.Length)
      ensures error.None? ==> n == p.Length
      ensures error.None? && n > 0 ==> off + n <= |old(data)| && data == Patched(old(data), off, p[..])
      ensures error.Some? || n == 0 ==> data == old(data)
    {
      if p.Length == 0 { return 0, None; }
      SectorsAround(off, p.Length);
      var alignedStart := AlignDown(off, SECTOR_SIZE);
      var alignedEnd := AlignUp(off + p.Length, SECTOR_SIZE);
      hide AlignDown, AlignUp;
      var buf := new byte[alignedEnd - alignedStart](_ => 0);
      hide Patched;
      error := Pread(alignedStart, buf);
      if error.Some? { return 0, error; }
      assert buf[..] == data[alignedStart..alignedEnd];
      CopyInto(buf, off - alignedStart, p);
      PatchInsideSectors(data, alignedStart, alignedEnd, off, p[..]);
      error := Pwrite(alignedStart, buf);
      n := p.Length;
    }
  }

  /** copy from the middle of a buffer. */
  method CopyFrom(p: array<byte>, buf: array<byte>, at: nat)
    requires at + p.Length <= buf.Length && buf != p
    modifies p
    ensures p[..] == buf[..][at..at + p.Length]
  {
    forall k | 0 <= k < p.Length {
      p[k] := buf[at + k];
    }
  }

  /** copy into the middle of a buffer. */
  method CopyInto(buf: array<byte>, at: nat, p: array<byte>)
    requires at + p.Length <= buf.Length && buf != p
    modifies buf
    ensures buf[..] == Patched(old(buf[..]), at, p[..])
  {
    forall k | 0 <= k < p.Length {
      buf[at + k] := p[k];
    }
  }

  /** The sectors that contain the range lie inside the disk. */
  predicate InSectors(data: seq<byte>, off: nat, len: nat) {
    AlignUp(off + len, SECTOR_SIZE) <= |data|
  }

  /** On a disk of whole sectors that is the same as the range lying inside it. */
  lemma InSectorsIffInRange(data: seq<byte>, off: nat, len: nat)
    requires |data| % 512 == 0
    ensures InSectors(data, off, len) <==> off + len <= |data|
  {
    AlignedAround(off + len);
  }

  /** A flat byte array with a range replaced. */
  function Patched(data: seq<byte>, off: nat, p: seq<byte>): (r: seq<byte>)
    requires off + |p| <= |data|
    ensures |r| == |data|
  {
    data[..off] + p + data[off + |p|..]
  }

  /** Exactly the range changes. */
  lemma PatchedBytes(data: seq<byte>, off: nat, p: seq<byte>, k: nat)
    requires off + |p| <= |data| && k < |data|
    ensures Patched(data, off, p)[k] == if off <= k < off + |p| then p[k - off] else data[k]
  {
  }

  lemma SliceOfSlice(data: seq<byte>, from: nat, to: nat, off: nat, len: nat)
    requires from <= off && off + len <= to <= |data|
    ensures data[from..to][off - from..off - from + len] == data[off..off + len]
  {
    var at := off - from;
    var l, r := data[from..to][at..at + len], data[off..off + len];
    forall k | 0 <= k < len
      ensures l[k] == r[k]
    {
      assert l[k] == data[from..to][at + k];
    }
    assert l == r;
  }

  /** Changing a range inside some sectors and writing the sectors back changes the range. */
  lemma PatchInsideSectors(data: seq<byte>, from: nat, to: nat, off: nat, p: seq<byte>)
    requires from <= off && off + |p| <= to <= |data|
    ensures Patched(data, from, Patched(data[from..to], off - from, p)) == Patched(data, off, p)
  {
  }

  /** Writes to disjoint ranges commute, even inside one sector. */
  lemma DisjointWritesCommute(data: seq<byte>, a: nat, p: seq<byte>, b: nat, q: seq<byte>)
    requires a + |p| <= |data| && b + |q| <= |data|
    requires a + |p| <= b || b + |q| <= a
    ensures Patched(Patched(data, a, p), b, q) == Patched(Patched(data, b, q), a, p)
  {
    var l, r := Patched(Patched(data, a, p), b, q), Patched(Patched(data, b, q), a, p);
    forall k | 0 <= k < |data|
      ensures l[k] == r[k]
    {
      PatchedBytes(data, a, p, k);
      PatchedBytes(data, b, q, k);
      PatchedBytes(Patched(data, a, p), b, q, k);
      PatchedBytes(Patched(data, b, q), a, p, k);
    }
  }

  // ---- Any sequence of accesses ----

  datatype Access = WriteOp(off: nat, bytes: seq<byte>) | ReadOp(off: nat, len: nat)

  function InRange(size: nat, a: Access): bool {
    a.off + (if a.WriteOp? then |a.bytes| else a.len) <= size
  }

  /** The flat byte array the file is meant to be: the final contents and what each read returned. */
  function Flat(data: seq<byte>, ops: seq<Access>): (r: (seq<byte>, seq<seq<byte>>))
    requires forall a | a in ops :: InRange(|data|, a)
    ensures |r.0| == |data|
    decreases |ops|
  {
    if ops == [] then (data, [])
    else
      var last := ops[|ops| - 1];
      assert InRange(|data|, last);
      var (d, got) := Flat(data, ops[..|ops| - 1]);
      match last
      case WriteOp(off, bytes) => (Patched(d, off, bytes), got)
      case ReadOp(off, len) => (d, got + [d[off..off + len]])
  }

  /** A disk of whole sectors behaves like the flat array under every sequence of in-range reads and
      writes, aligned or not. */
  method RunAccesses(disk: Disk, ops: seq<Access>) returns (results: seq<seq<byte>>)
    requires |disk.data| % 512 == 0
    requires forall a | a in ops :: InRange(|disk.data|, a)
    modifies disk
    ensures (disk.data, results) == Flat(old(disk.data), ops)
  {
    hide InSectors;
    results := [];
    ghost var start := disk.data;
    for i := 0 to |ops|
      invariant |disk.data| == |start|
      invariant (disk.data, results) == Flat(start, ops[..i])
    {
      assert ops[..i + 1][..i] == ops[..i] && ops[..i + 1][i] == ops[i];
      assert InRange(|start|, ops[i]);
      match ops[i]
      case WriteOp(off, bytes) =>
        var p := new byte[|bytes|](k requires 0 <= k < |bytes| => bytes[k]);
        assert p[..] == bytes;
        InSectorsIffInRange(disk.data, off, |bytes|);
        var n, error := disk.WriteAt(p, off);
        if n == 0 {
          assert Patched(disk.data, off, bytes) == disk.data;
        }
      case ReadOp(off, len) =>
        var p := new byte[len](_ => 0);
        InSectorsIffInRange(disk.data, off, len);
        var n, error := disk.ReadAt(p, off);
        assert p[..] == disk.data[off..off + len];
        results := results + [p[..]];
    }
    assert ops[..|ops|] == ops;
  }
}
