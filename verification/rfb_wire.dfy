/** Big-endian integers, and a connection that delivers its bytes in arbitrary fragments
    (readFull in internal/vnc/capture.go). */
module RfbWire {
  import opened Bytes

  function U16(s: seq<byte>): (v: nat)
    requires |s| == 2
    ensures v < 65536
  {
    var b0: int, b1: int := s[0], s[1];
    b0 * 256 + b1
  }

  function U32(s: seq<byte>): (v: nat)
    requires |s| == 4
    ensures v < 0x1_0000_0000
  {
    var b0: int, b1: int, b2: int, b3: int := s[0], s[1], s[2], s[3];
    b0 * 0x100_0000 + b1 * 0x1_0000 + b2 * 256 + b3
  }

  function PutU16(v: nat): (s: seq<byte>)
    requires v < 65536
    ensures |s| == 2 && U16(s) == v
  {
    [v / 256, v % 256]
  }

  function PutU32(v: nat): (s: seq<byte>)
    requires v < 0x1_0000_0000
    ensures |s| == 4 && U32(s) == v
  {
    var hi, lo := v / 0x1_0000, v % 0x1_0000;
    [hi / 256, hi % 256, lo / 256, lo % 256]
  }

  /** A piece of what is left after the first bytes. */
  lemma Cut(s: seq<byte>, at: nat, lo: nat, hi: nat)
    requires at <= |s|
    ensures lo <= hi <= |s| - at ==> s[at..][lo..hi] == s[at + lo..at + hi]
    ensures hi == |s| - at && lo <= hi ==> s[at..][lo..] == s[at + lo..]
  {
  }

  function Zeros(n: nat): (s: seq<byte>)
    ensures |s| == n && forall k :: 0 <= k < n ==> s[k] == 0
  {
    seq(n, _ => 0)
  }

  /** A connection: the fragments the network will hand over, one per Read at most, and what the
      client has written. An empty fragment is a Read that returns no bytes and no error. */
  class Conn {
    var pending: seq<seq<byte>>
    var sent: seq<byte>

    constructor (fragments: seq<seq<byte>>)
      ensures pending == fragments && sent == []
    {
      pending, sent := fragments, [];
    }

    /** Everything not read yet. */
    ghost function Rest(): seq<byte>
      reads `pending
    {
      Flatten(pending)
    }

    method Write(data: seq<byte>)
      modifies this`sent
      ensures sent == old(sent) + data
    {
      sent := sent + data;
    }

    /** One Read into buf[at..]: at most one fragment, or an error when nothing is left. */
    method Read(buf: array<byte>, at: nat) returns (n: nat, ok: bool)
      requires at < buf.Length
      modifies this`pending, buf
      ensures ok <==> old(pending) != []
      ensures n <= buf.Length - at && (!ok ==> n == 0 && Rest() == [])
      ensures old(Rest()) == buf[at..at + n] + Rest()
      ensures buf[..at] == old(buf[..at]) && buf[at + n..] == old(buf[at + n..])
      ensures |pending| <= old(|pending|) && (ok && at + n < buf.Length ==> |pending| < old(|pending|))
    {
      if pending == [] {
        return 0, false;
      }
      var fragment := pending[0];
      n := if |fragment| <= buf.Length - at then |fragment| else buf.Length - at;
      forall k | 0 <= k < n {
        buf[at + k] := fragment[k];
      }
      assert buf[at..at + n] == fragment[..n];
      assert fragment == fragment[..n] + fragment[n..];
      if n == |fragment| {
        pending := pending[1..];
      } else {
        pending := [fragment[n..]] + pending[1..];
        assert pending[1..] == old(pending)[1..];
      }
      ok := true;
    }

    /** readFull: it succeeds exactly when enough bytes are left, however they are split, and takes
        not one byte more. */
    method ReadFull(buf: array<byte>) returns (total: nat, ok: bool)
      modifies this`pending, buf
      ensures ok <==> |old(Rest())| >= buf.Length
      ensures ok ==> total == buf.Length && buf[..] == old(Rest())[..total] && Rest() == old(Rest())[total..]
      ensures !ok ==> total == |old(Rest())| && buf[..] == old(Rest()) + old(buf[..])[total..] && Rest() == []
    {
      hide Rest;
      total, ok := 0, true;
      ghost var all, was := Rest(), buf[..];
      while total < buf.Length
        invariant total <= buf.Length
        invariant all == buf[..total] + Rest()
        invariant buf[total..] == was[total..]
        decreases |pending| + buf.Length - total
      {
        var n;
        ghost var done, unread, rest := buf[..total], buf[total..], Rest();
        n, ok := Read(buf, total);
        assert buf[..total + n] == buf[..total] + buf[total..total + n] == done + buf[total..total + n];
        assert all == done + rest == buf[..total + n] + Rest();
        assert buf[total + n..] == unread[n..] == was[total + n..];
        total := total + n;
        if !ok {
          assert buf[..] == buf[..total] + buf[total..];
          return;
        }
      }
      assert buf[..] == buf[..total];
    }

    /** make([]byte, n) followed by readFull. */
    method ReadBytes(n: nat) returns (data: seq<byte>, ok: bool)
      modifies this`pending
      ensures ok <==> |old(Rest())| >= n
      ensures ok ==> data == old(Rest())[..n] && Rest() == old(Rest())[n..]
      ensures !ok ==> data == old(Rest()) + Zeros(n - |old(Rest())|) && Rest() == []
    {
      var buf := new byte[n](_ => 0);
      ghost var was := buf[..];
      var total;
      total, ok := ReadFull(buf);
      data := buf[..];
      if !ok {
        assert was[total..] == Zeros(n - total);
      }
    }
  }
}
