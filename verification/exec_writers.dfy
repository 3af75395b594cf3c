/** The writers that take the output of a guest command (internal/action/exec.go): one logs complete
    lines, one keeps the first bytes for the step output, and io.MultiWriter feeds both. */
module ExecWriters {
  import opened Wrappers
  import opened Bytes
  import opened Text

  const EXEC_STDOUT_MAX_SIZE := 4 * 1024

  /** bytes.IndexAny(s, "\r\n"), with the length when there is none. */
  function BreakAt(s: string): (i: nat)
    ensures i <= |s| && (i < |s| ==> IsLineBreak(s[i])) && forall k :: 0 <= k < i ==> !IsLineBreak(s[k])
  {
    if s == [] || IsLineBreak(s[0]) then 0 else 1 + BreakAt(s[1..])
  }

  /** The nonempty complete lines of a text. */
  function Lines(s: string): seq<string>
    decreases |s|
  {
    var i := BreakAt(s);
    if i == |s| then []
    else (if i > 0 then [s[..i]] else []) + Lines(s[i + 1..])
  }

  /** What follows the last line break. */
  function Tail(s: string): (t: string)
    decreases |s|
  {
    var i := BreakAt(s);
    if i == |s| then s else Tail(s[i + 1..])
  }

  /** Everything logged once the text is complete. */
  function Fields(s: string): seq<string> {
    Lines(s) + (if Tail(s) != [] then [Tail(s)] else [])
  }

  function WithoutBreaks(s: string): string {
    if s == [] then []
    else (if s[0] == '\r' || s[0] == '\n' then [] else [s[0]]) + WithoutBreaks(s[1..])
  }

  lemma {:induction false} BreakAtAppend(a: string, b: string)
    ensures BreakAt(a + b) == if BreakAt(a) < |a| then BreakAt(a) else |a| + BreakAt(b)
  {
    if a == [] {
      assert a + b == b;
    } else {
      assert (a + b)[1..] == a[1..] + b;
      BreakAtAppend(a[1..], b);
    }
  }

  lemma FirstLine(head: string, c: char, rest: string)
    requires BreakAt(head) == |head| && IsLineBreak(c)
    ensures Lines(head + [c] + rest) == (if head != [] then [head] else []) + Lines(rest)
    ensures Tail(head + [c] + rest) == Tail(rest)
  {
    var s := head + [c] + rest;
    assert s == head + ([c] + rest);
    BreakAtAppend(head, [c] + rest);
    assert BreakAt([c] + rest) == 0;
    assert s[..|head|] == head && s[|head| + 1..] == rest;
  }

  lemma NoLine(s: string)
    requires BreakAt(s) == |s|
    ensures Lines(s) == [] && Tail(s) == s
  {
  }

  /** Any text is unbroken, or an unbroken head, a break and a rest. */
  lemma SplitAtBreak(s: string) returns (head: string, c: char, rest: string)
    requires BreakAt(s) < |s|
    ensures s == head + [c] + rest && IsLineBreak(c) && BreakAt(head) == |head| && |rest| < |s|
  {
    var i := BreakAt(s);
    head, c, rest := s[..i], s[i], s[i + 1..];
  }

  /** Cutting a text anywhere does not change its lines, once the tail of the first part is carried
      over to the second. */
  lemma {:induction false} LinesAppend(a: string, b: string)
    ensures Lines(a + b) == Lines(a) + Lines(Tail(a) + b)
    ensures Tail(a + b) == Tail(Tail(a) + b)
    decreases |a|
  {
    hide Lines, Tail;
    if BreakAt(a) == |a| {
      NoLine(a);
    } else {
      var head, c, rest := SplitAtBreak(a);
      LinesAppend(rest, b);
      FirstLine(head, c, rest);
      FirstLine(head, c, rest + b);
      assert a + b == head + [c] + (rest + b);
    }
  }

  lemma {:induction false} WithoutBreaksAppend(a: string, b: string)
    ensures WithoutBreaks(a + b) == WithoutBreaks(a) + WithoutBreaks(b)
  {
    if a == [] {
      assert a + b == b;
    } else {
      assert (a + b)[1..] == a[1..] + b;
      WithoutBreaksAppend(a[1..], b);
    }
  }

  lemma {:induction false} UnbrokenStays(s: string)
    requires BreakAt(s) == |s|
    ensures WithoutBreaks(s) == s
  {
    if s != [] {
      UnbrokenStays(s[1..]);
    }
  }

  lemma {:induction false} FlattenAppend(a: seq<string>, b: seq<string>)
    ensures Flatten(a + b) == Flatten(a) + Flatten(b)
  {
    if a == [] {
      assert a + b == b;
    } else {
      assert (a + b)[1..] == a[1..] + b;
      FlattenAppend(a[1..], b);
    }
  }

  ghost predicate IsField(f: string) {
    f != [] && BreakAt(f) == |f|
  }

  lemma {:induction false} FieldsAreFields(s: string)
    ensures forall f | f in Fields(s) :: IsField(f)
    ensures Flatten(Fields(s)) == WithoutBreaks(s)
    decreases |s|
  {
    hide Lines, Tail;
    if BreakAt(s) == |s| {
      NoLine(s);
      UnbrokenStays(s);
      assert Fields(s) == if s != [] then [s] else [];
      FlattenOne(s);
    } else {
      var head, c, rest := SplitAtBreak(s);
      FieldsAreFields(rest);
      FieldsStep(head, c, rest);
      WithoutBreaksStep(head, c, rest);
      var first := if head != [] then [head] else [];
      hide Fields, WithoutBreaks;
      FlattenAppend(first, Fields(rest));
      FlattenOne(head);
    }
  }

  lemma FieldsStep(head: string, c: char, rest: string)
    requires BreakAt(head) == |head| && IsLineBreak(c)
    ensures Fields(head + [c] + rest) == (if head != [] then [head] else []) + Fields(rest)
  {
    hide Lines, Tail;
    FirstLine(head, c, rest);
    hide IsLineBreak, BreakAt;
    var first := if head != [] then [head] else [];
    var last := if Tail(rest) != [] then [Tail(rest)] else [];
    assert first + Lines(rest) + last == first + (Lines(rest) + last);
  }

  lemma WithoutBreaksStep(head: string, c: char, rest: string)
    requires BreakAt(head) == |head| && IsLineBreak(c)
    ensures WithoutBreaks(head + [c] + rest) == head + WithoutBreaks(rest)
  {
    UnbrokenStays(head);
    assert head + [c] + rest == head + ([c] + rest);
    WithoutBreaksAppend(head, [c] + rest);
    assert ([c] + rest)[0] == c && ([c] + rest)[1..] == rest;
  }

  lemma FieldIsUnbroken(f: string)
    requires IsField(f)
    ensures f != [] && '\r' !in f && '\n' !in f
  {
  }

  /** No byte is lost, repeated or reordered: the fields are nonempty, hold no line break, and
      together are the text without its line breaks. */
  lemma FieldsConserve(s: string)
    ensures forall f | f in Fields(s) :: f != [] && '\r' !in f && '\n' !in f
    ensures Flatten(Fields(s)) == WithoutBreaks(s)
  {
    FieldsAreFields(s);
    hide Fields, IsField, WithoutBreaks;
    forall f | f in Fields(s)
      ensures f != [] && '\r' !in f && '\n' !in f
    {
      FieldIsUnbroken(f);
    }
  }

  lemma FlattenOne(s: string)
    ensures Flatten([s]) == s && Flatten<char>([]) == []
  {
    assert [s][1..] == [];
  }

  class LineWriter {
    const prefix: string
    var buf: string
    var logged: seq<string>

    constructor (prefix: string)
      ensures this.prefix == prefix && buf == [] && logged == []
    {
      this.prefix, buf, logged := prefix, [], [];
    }

    /** The log line of a piece of output. */
    function Entry(line: string): string {
      prefix + ": " + line
    }

    function Entries(lines: seq<string>): (r: seq<string>)
      ensures |r| == |lines| && forall k :: 0 <= k < |lines| ==> r[k] == Entry(lines[k])
    {
      seq(|lines|, k requires 0 <= k < |lines| => Entry(lines[k]))
    }

    lemma EntriesAppend(a: seq<string>, b: seq<string>)
      ensures Entries(a + b) == Entries(a) + Entries(b)
    {
    }

    lemma EntriesOne(line: string)
      ensures Entries([line]) == [Entry(line)] && Entries([]) == []
    {
    }

    method Write(p: string) returns (n: nat)
      modifies this
      ensures n == |p|
      ensures logged == old(logged) + Entries(Lines(old(buf) + p))
      ensures buf == Tail(old(buf) + p) && Valid()
    {
      hide Lines, Tail, Entries, Entry;
      ghost var all, before := buf + p, logged;
      ghost var done: seq<string> := [];
      EntriesOne(p);
      buf := buf + p;
      while true
        invariant Tail(buf) == Tail(all) && done + Lines(buf) == Lines(all)
        invariant logged == before + Entries(done)
        decreases |buf|
      {
        var idx := BreakAt(buf);
        if idx == |buf| {
          NoLine(buf);
          break;
        }
        var line := buf[..idx];
        var rest := buf[idx + 1..];
        assert buf == line + [buf[idx]] + rest;
        FirstLine(line, buf[idx], rest);
        if |line| > 0 {
          EntriesAppend(done, [line]);
          EntriesOne(line);
          assert (done + [line]) + Lines(rest) == done + ([line] + Lines(rest));
          logged := logged + [Entry(line)];
          done := done + [line];
        } else {
          assert [] + Lines(rest) == Lines(rest);
        }
        buf := rest;
      }
      assert done + [] == done;
      n := |p|;
    }

    method Flush()
      modifies this
      ensures buf == []
      ensures logged == old(logged) + Entries(if old(buf) != [] then [old(buf)] else [])
    {
      if |buf| > 0 {
        logged := logged + [Entry(buf)];
        buf := [];
      }
    }

    /** The buffer never holds a complete line. */
    ghost predicate Valid()
      reads this
    {
      BreakAt(buf) == |buf|
    }

    /** After any sequence of writes and a flush, the log is the fields of the whole output, however
        it was cut. */
    method WriteAllAndFlush(chunks: seq<string>)
      requires Valid()
      modifies this
      ensures buf == [] && logged == old(logged) + Entries(Fields(old(buf) + Flatten(chunks)))
    {
      hide Lines, Tail, Entries;
      ghost var start, before := buf, logged;
      ghost var written: string := [];
      NoLine(buf);
      assert start + written == start;
      for i := 0 to |chunks|
        invariant written + Flatten(chunks[i..]) == Flatten(chunks)
        invariant buf == Tail(start + written)
        invariant logged == before + Entries(Lines(start + written))
      {
        LinesAppend(start + written, chunks[i]);
        EntriesAppend(Lines(start + written), Lines(buf + chunks[i]));
        var n := Write(chunks[i]);
        assert chunks[i..][1..] == chunks[i + 1..];
        assert start + (written + chunks[i]) == (start + written) + chunks[i];
        assert before + (Entries(Lines(start + written)) + Entries(Lines(Tail(start + written) + chunks[i])))
            == before + Entries(Lines(start + written)) + Entries(Lines(Tail(start + written) + chunks[i]));
        written := written + chunks[i];
      }
      assert written + [] == written;
      EntriesAppend(Lines(start + written), if buf != [] then [buf] else []);
      Flush();
    }
  }

  function Take(s: string, n: nat): string {
    if |s| <= n then s else s[..n]
  }

  class CaptureWriter {
    const max: nat
    var buf: string

    constructor (max: nat)
      ensures this.max == max && buf == []
    {
      this.max, buf := max, [];
    }

    ghost predicate Valid()
      reads this
    {
      |buf| <= max
    }

    /** Keeps what still fits. The count returned is that of the bytes kept when the write crosses
        the limit, and of all bytes otherwise. */
    method Write(data: string) returns (n: nat)
      requires Valid()
      modifies this
      ensures Valid() && buf == Take(old(buf) + data, max)
      ensures n == |data| <==> !Crosses(|old(buf)|, |data|, max)
      ensures Crosses(|old(buf)|, |data|, max) ==> n == max - |old(buf)|
    {
      var p := data;
      var rem := max - |buf|;
      if rem > 0 {
        if |p| > rem {
          p := p[..rem];
        }
        buf := buf + p;
      }
      n := |p|;
    }
  }

  /** A write of `len` bytes after `before` bytes goes over the limit without starting at it. */
  predicate Crosses(before: nat, len: nat, max: nat) {
    before < max < before + len
  }

  // ---- Both writers behind io.MultiWriter, fed by io.Copy ----

  datatype WriteError = ShortWrite

  class Stdout {
    const lines: LineWriter
    const capture: CaptureWriter

    constructor (lines: LineWriter, capture: CaptureWriter)
      ensures this.lines == lines && this.capture == capture
    {
      this.lines, this.capture := lines, capture;
    }

    /** io.MultiWriter: every writer in turn; one that takes fewer bytes than given is a short write. */
    method Write(p: string) returns (error: Option<WriteError>)
      requires capture.Valid() && lines.Valid()
      modifies lines, capture
      ensures capture.Valid() && lines.Valid()
      ensures capture.buf == Take(old(capture.buf) + p, capture.max)
      ensures lines.buf == Tail(old(lines.buf) + p)
      ensures lines.logged == old(lines.logged) + lines.Entries(Lines(old(lines.buf) + p))
      ensures error.Some? <==> Crosses(|old(capture.buf)|, |p|, capture.max)
    {
      hide Lines, Tail;
      var n := lines.Write(p);
      if n != |p| { return Some(ShortWrite); }
      n := capture.Write(p);
      if n != |p| { return Some(ShortWrite); }
      error := None;
    }

    /** io.Copy of one guest stream, read in the given chunks: it stops at the first error. */
    method Copy(chunks: seq<string>) returns (error: Option<WriteError>, ghost written: nat)
      requires capture.Valid() && lines.Valid() && capture.buf == []
      modifies lines, capture
      ensures capture.Valid() && lines.Valid()
      ensures error.None? <==> Lands(chunks, capture.max)
      ensures written <= |chunks| && (error.None? ==> written == |chunks|)
      ensures capture.buf == Take(Flatten(chunks[..written]), capture.max)
      ensures lines.logged == old(lines.logged) + lines.Entries(Lines(old(lines.buf) + Flatten(chunks[..written])))
      ensures lines.buf == Tail(old(lines.buf) + Flatten(chunks[..written]))
    {
      hide Lines, Tail, Lands, CrossesAt, LineWriter.Entries;
      written := 0;
      ghost var start, before := lines.buf, lines.logged;
      ghost var done := Flatten(chunks[..0]);
      NoLine(start);
      assert done == [] && start + done == start;
      for i := 0 to |chunks|
        invariant written == i && done == Flatten(chunks[..i])
        invariant capture.Valid() && lines.Valid() && capture.buf == Take(done, capture.max)
        invariant lines.buf == Tail(start + done)
        invariant lines.logged == before + lines.Entries(Lines(start + done))
        invariant forall k :: 0 <= k < i ==> !CrossesAt(chunks, k, capture.max)
      {
        LinesAppend(start + done, chunks[i]);
        lines.EntriesAppend(Lines(start + done), Lines(lines.buf + chunks[i]));
        TakeAppend(done, chunks[i], capture.max);
        FlattenSnoc(chunks, i);
        assert start + (done + chunks[i]) == (start + done) + chunks[i];
        CrossesHere(chunks, i, capture.max);
        error := Write(chunks[i]);
        done := done + chunks[i];
        written := written + 1;
        if error.Some? {
          NeverCrosses(chunks, capture.max);
          return;
        }
      }
      NeverCrosses(chunks, capture.max);
      error := None;
    }
  }

  lemma FlattenSnoc(chunks: seq<string>, i: nat)
    requires i < |chunks|
    ensures Flatten(chunks[..i + 1]) == Flatten(chunks[..i]) + chunks[i]
  {
    assert chunks[..i + 1] == chunks[..i] + [chunks[i]];
    FlattenAppend(chunks[..i], [chunks[i]]);
    FlattenOne(chunks[i]);
  }

  lemma TakeIsPrefix(s: string, n: nat)
    ensures Take(s, n) <= s && |Take(s, n)| == if |s| < n then |s| else n
  {
  }

  lemma TakeAppend(a: string, b: string, max: nat)
    ensures Take(Take(a, max) + b, max) == Take(a + b, max)
    ensures Crosses(|Take(a, max)|, |b|, max) <==> Crosses(|a|, |b|, max)
  {
  }

  /** Chunk k crosses the limit. */
  ghost predicate CrossesAt(chunks: seq<string>, k: nat, max: nat)
    requires k < |chunks|
  {
    Crosses(|Flatten(chunks[..k])|, |chunks[k]|, max)
  }

  lemma CrossesHere(chunks: seq<string>, k: nat, max: nat)
    requires k < |chunks|
    ensures CrossesAt(chunks, k, max) <==> Crosses(|Flatten(chunks[..k])|, |chunks[k]|, max)
  {
  }

  /** The output fits, or some chunk ends exactly at the limit. */
  ghost predicate Lands(chunks: seq<string>, max: nat) {
    |Flatten(chunks)| <= max || exists k :: 0 <= k <= |chunks| && |Flatten(chunks[..k])| == max
  }

  lemma {:induction false} Grows(chunks: seq<string>, i: nat, j: nat)
    requires i <= j <= |chunks|
    ensures |Flatten(chunks[..i])| <= |Flatten(chunks[..j])|
    decreases j - i
  {
    if i < j {
      FlattenSnoc(chunks, j - 1);
      Grows(chunks, i, j - 1);
    }
  }

  /** The first boundary at or over the limit. */
  lemma {:induction false} BoundaryOver(chunks: seq<string>, j: nat, max: nat) returns (k: nat)
    requires j <= |chunks| && |Flatten(chunks[..j])| > max
    ensures k < j && |Flatten(chunks[..k])| <= max < |Flatten(chunks[..k + 1])|
  {
    if |Flatten(chunks[..j - 1])| > max {
      k := BoundaryOver(chunks, j - 1, max);
    } else {
      k := j - 1;
    }
  }

  /** Copying the output of a command goes through if and only if the output fits in the capture or
      some read happens to end exactly at its limit; otherwise the write that crosses it is reported
      short and the rest of the output is lost. */
  lemma NeverCrosses(chunks: seq<string>, max: nat)
    ensures (forall k :: 0 <= k < |chunks| ==> !CrossesAt(chunks, k, max)) <==> Lands(chunks, max)
  {
    assert chunks[..|chunks|] == chunks;
    if Lands(chunks, max) {
      forall k | 0 <= k < |chunks|
        ensures !CrossesAt(chunks, k, max)
      {
        FlattenSnoc(chunks, k);
        Grows(chunks, k + 1, |chunks|);
        if exists m :: 0 <= m <= |chunks| && |Flatten(chunks[..m])| == max {
          var m :| 0 <= m <= |chunks| && |Flatten(chunks[..m])| == max;
          if m <= k {
            Grows(chunks, m, k);
          } else {
            Grows(chunks, k + 1, m);
          }
        }
      }
    } else {
      var k := BoundaryOver(chunks, |chunks|, max);
      FlattenSnoc(chunks, k);
      assert CrossesAt(chunks, k, max);
    }
  }

  /** So the result does depend on the cutting: any output over the limit fails when it is read in one
      piece, and goes through when the first read ends at the limit. */
  lemma CuttingMatters(s: string, max: nat)
    requires |s| > max > 0
    ensures !Lands([s], max) && Lands([s[..max], s[max..]], max)
    ensures Flatten([s]) == s == Flatten([s[..max], s[max..]])
  {
    var two := [s[..max], s[max..]];
    FlattenOne(s);
    FlattenOne(s[max..]);
    FlattenOne(s[..max]);
    assert two[1..] == [s[max..]];
    assert two[..1] == [s[..max]];
    assert |Flatten(two[..1])| == max;
    forall k | 0 <= k <= 1
      ensures |Flatten([s][..k])| != max
    {
      assert [s][..k] == if k == 0 then [] else [s];
    }
  }

  /** What a caller can tell beforehand: an output goes through however it is read if and only if it
      fits in the capture. */
  lemma NeverFailsIffFits(s: string, max: nat)
    requires max > 0
    ensures (forall chunks | Flatten(chunks) == s :: Lands(chunks, max)) <==> |s| <= max
  {
    if |s| > max {
      CuttingMatters(s, max);
      assert Flatten([s]) == s;
    }
  }

  /** The stdout side of the exec action: capture limited to 4096 bytes, flush at the end in any case.
      Without an error the log has every line of the output and the step output its first 4096
      bytes. */
  method ExecStdout(chunks: seq<string>)
    returns (error: Option<WriteError>, stdout: string, logged: seq<string>, ghost written: nat)
    ensures error.None? <==> Lands(chunks, 4096)
    ensures written <= |chunks| && (error.None? ==> written == |chunks|)
    ensures stdout <= Flatten(chunks[..written])
    ensures |stdout| == if |Flatten(chunks[..written])| < 4096 then |Flatten(chunks[..written])| else 4096
    ensures |logged| == |Fields(Flatten(chunks[..written]))|
    ensures forall k :: 0 <= k < |logged| ==>
              && logged[k] == "stdout: " + Fields(Flatten(chunks[..written]))[k]
              && '\r' !in logged[k] && '\n' !in logged[k]
  {
    hide Lines, Tail, Take;
    var capture := new CaptureWriter(EXEC_STDOUT_MAX_SIZE);
    var lines := new LineWriter("stdout");
    var stdoutW := new Stdout(lines, capture);
    error, written := stdoutW.Copy(chunks);
    ghost var text := Flatten(chunks[..written]);
    assert [] + text == text && [] + lines.Entries(Lines(text)) == lines.Entries(Lines(text));
    lines.EntriesAppend(Lines(text), if lines.buf != [] then [lines.buf] else []);
    lines.Flush();
    assert forall line :: lines.Entry(line) == "stdout: " + line;
    hide LineWriter.Entry;
    stdout, logged := capture.buf, lines.logged;
    TakeIsPrefix(text, EXEC_STDOUT_MAX_SIZE);
    hide Fields;
    LoggedUnbroken(text, logged);
  }

  lemma LoggedUnbroken(text: string, logged: seq<string>)
    requires |logged| == |Fields(text)|
    requires forall k :: 0 <= k < |logged| ==> logged[k] == "stdout: " + Fields(text)[k]
    ensures forall k :: 0 <= k < |logged| ==> '\r' !in logged[k] && '\n' !in logged[k]
  {
    FieldsConserve(text);
    hide Fields;
    forall k | 0 <= k < |logged|
      ensures '\r' !in logged[k] && '\n' !in logged[k]
    {
      assert Fields(text)[k] in Fields(text);
    }
  }
}
