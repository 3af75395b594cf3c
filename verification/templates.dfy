/** Finding `${{ ... }}` templates in a string (internal/expr/expressions.go).

    `TemplateAt` is a scanner; `Match` is the regular expression
    `\$\{\{\s*([^}]+?)\s*\}\}` read as a decomposition of the text. */
module Templates {
  import opened Wrappers
  import opened Text

  const OPEN := "${{"
  const CLOSE := "}}"

  /** The position of the first closing brace at or after i, or the length. */
  function RunEnd(s: string, i: nat): (q: nat)
    requires i <= |s|
    ensures i <= q <= |s| && (q < |s| ==> s[q] == '}') && forall k :: i <= k < q ==> s[k] != '}'
    decreases |s| - i
  {
    if i == |s| || s[i] == '}' then i else RunEnd(s, i + 1)
  }

  /** The end of the template that starts at p, if one does: `${{`, at least one character other
      than a closing brace, `}}`. */
  function TemplateAt(s: string, p: nat): (e: Option<nat>)
    ensures e.Some? ==> p + 6 <= e.value <= |s|
  {
    if p + 3 <= |s| && s[p..p + 3] == OPEN then
      var q := RunEnd(s, p + 3);
      if q > p + 3 && q + 2 <= |s| && s[q..q + 2] == CLOSE then Some(q + 2) else None
    else None
  }

  /** White space in a regular expression: ASCII only. */
  predicate IsRegexSpace(c: char) {
    c == '\t' || c == '\n' || c == '\U{000C}' || c == '\r' || c == ' '
  }

  predicate AllRegexSpace(s: string) {
    forall k :: 0 <= k < |s| ==> IsRegexSpace(s[k])
  }

  /** The expression matches s[p..e] with its group at s[a..b]. */
  ghost predicate Match(s: string, p: nat, a: nat, b: nat, e: nat) {
    && p + 3 <= a < b <= e - 2 && e <= |s|
    && s[p..p + 3] == OPEN
    && AllRegexSpace(s[p + 3..a])
    && '}' !in s[a..b]
    && AllRegexSpace(s[b..e - 2])
    && s[e - 2..e] == CLOSE
  }

  lemma NoBraceInside(s: string, p: nat, a: nat, b: nat, e: nat)
    requires Match(s, p, a, b, e)
    ensures RunEnd(s, p + 3) == e - 2
  {
    forall k | p + 3 <= k < e - 2
      ensures s[k] != '}'
    {
      if k < a {
        assert s[p + 3..a][k - (p + 3)] == s[k];
      } else if k < b {
        assert s[a..b][k - a] == s[k];
      } else {
        assert s[b..e - 2][k - b] == s[k];
      }
    }
    assert s[e - 2] == s[e - 2..e][0];
  }

  /** Every way to match agrees with the scanner, and the trimmed group is the same in all of them:
      greedy or lazy repetition makes no difference to what is evaluated. */
  lemma MatchIsTemplate(s: string, p: nat, a: nat, b: nat, e: nat)
    requires Match(s, p, a, b, e)
    ensures TemplateAt(s, p) == Some(e)
    ensures Trim(s[a..b]) == Trim(s[p + 3..e - 2])
  {
    NoBraceInside(s, p, a, b, e);
    hide RunEnd, Trim;
    assert AllSpace(s[p + 3..a]) && AllSpace(s[b..e - 2]);
    assert s[p + 3..e - 2] == s[p + 3..a] + s[a..b] + s[b..e - 2];
    TrimAround(s[p + 3..a], s[a..b], s[b..e - 2]);
  }

  /** And a template found by the scanner is matched. */
  lemma TemplateIsMatch(s: string, p: nat)
    requires TemplateAt(s, p).Some?
    ensures Match(s, p, p + 3, TemplateAt(s, p).value - 2, TemplateAt(s, p).value)
  {
  }

  // ---- All templates, left to right ----

  datatype Span = Span(start: nat, end: nat)

  /** Leftmost, non-overlapping matches from position `from` on. */
  function FindAll(s: string, from: nat): (spans: seq<Span>)
    ensures forall i :: 0 <= i < |spans| ==> from <= spans[i].start < spans[i].end <= |s|
    decreases |s| - from
  {
    if from >= |s| then []
    else if TemplateAt(s, from).Some? then
      [Span(from, TemplateAt(s, from).value)] + FindAll(s, TemplateAt(s, from).value)
    else FindAll(s, from + 1)
  }

  ghost predicate InSome(spans: seq<Span>, p: nat) {
    exists i :: 0 <= i < |spans| && spans[i].start <= p < spans[i].end
  }

  /** The positions `spans` leaves uncovered start no template. */
  ghost predicate NoneOutside(s: string, from: nat, spans: seq<Span>) {
    forall p: nat :: from <= p < |s| && !InSome(spans, p) ==> TemplateAt(s, p).None?
  }

  /** What leftmost non-overlapping matching means: every span is a template, the spans are in order
      and disjoint, and no template starts outside them. */
  ghost predicate Leftmost(s: string, from: nat, spans: seq<Span>) {
    Placed(s, from, spans) && NoneOutside(s, from, spans)
  }

  ghost predicate Placed(s: string, from: nat, spans: seq<Span>) {
    && (forall i :: 0 <= i < |spans| ==> from <= spans[i].start && TemplateAt(s, spans[i].start) == Some(spans[i].end))
    && (forall i, j :: 0 <= i < j < |spans| ==> spans[i].end <= spans[j].start)
  }

  lemma LeftmostSkip(s: string, from: nat, spans: seq<Span>)
    requires from < |s| && TemplateAt(s, from).None?
    ensures Leftmost(s, from, spans) <==> Leftmost(s, from + 1, spans)
  {
    hide TemplateAt;
    if Leftmost(s, from, spans) {
      forall i | 0 <= i < |spans|
        ensures from + 1 <= spans[i].start
      {
        var p := spans[i].start;
        assert TemplateAt(s, p).Some?;
      }
    }
  }

  lemma InSomeCons(first: Span, rest: seq<Span>, p: nat)
    ensures InSome([first] + rest, p) <==> first.start <= p < first.end || InSome(rest, p)
  {
    var spans := [first] + rest;
    if first.start <= p < first.end {
      assert spans[0] == first;
    }
    if InSome(rest, p) {
      var i :| 0 <= i < |rest| && rest[i].start <= p < rest[i].end;
      assert spans[i + 1] == rest[i];
    }
  }

  lemma OutsideCons(s: string, from: nat, e: nat, rest: seq<Span>)
    requires from < e <= |s|
    ensures NoneOutside(s, from, [Span(from, e)] + rest) <==> NoneOutside(s, e, rest)
  {
    hide TemplateAt, InSome;
    forall p: nat | from <= p < |s|
      ensures InSome([Span(from, e)] + rest, p) <==> from <= p < e || InSome(rest, p)
    {
      InSomeCons(Span(from, e), rest, p);
    }
  }

  lemma PlacedCons(s: string, from: nat, e: nat, rest: seq<Span>)
    requires from < e && TemplateAt(s, from) == Some(e)
    ensures Placed(s, e, rest) <==> Placed(s, from, [Span(from, e)] + rest)
  {
    hide TemplateAt;
    var spans := [Span(from, e)] + rest;
    if Placed(s, from, spans) {
      forall i | 0 <= i < |rest|
        ensures e <= rest[i].start && TemplateAt(s, rest[i].start) == Some(rest[i].end)
      {
        assert rest[i] == spans[i + 1] && spans[0].end <= spans[i + 1].start;
      }
      forall i, j | 0 <= i < j < |rest|
        ensures rest[i].end <= rest[j].start
      {
        assert spans[i + 1].end <= spans[j + 1].start;
      }
    }
  }

  lemma LeftmostCons(s: string, from: nat, e: nat, rest: seq<Span>)
    requires from < |s| && TemplateAt(s, from) == Some(e)
    ensures Leftmost(s, e, rest) <==> Leftmost(s, from, [Span(from, e)] + rest)
  {
    SpanNonempty(s, from, e);
    OutsideCons(s, from, e, rest);
    PlacedCons(s, from, e, rest);
    hide TemplateAt, NoneOutside, Placed;
  }

  /** When a template starts at `from`, a leftmost list starts with it. */
  lemma LeftmostHead(s: string, from: nat, spans: seq<Span>)
    requires from < |s| && TemplateAt(s, from).Some? && Leftmost(s, from, spans)
    ensures spans != [] && spans[0] == Span(from, TemplateAt(s, from).value)
  {
    hide TemplateAt;
    assert InSome(spans, from);
    var i :| 0 <= i < |spans| && spans[i].start <= from < spans[i].end;
    SpanNonempty(s, spans[0].start, spans[0].end);
  }

  lemma SpanNonempty(s: string, p: nat, e: nat)
    ensures TemplateAt(s, p) == Some(e) ==> p < e <= |s|
  {
  }

  /** Exactly one list of spans is leftmost: the one FindAll returns. */
  lemma {:induction false} FindAllIsLeftmost(s: string, from: nat, spans: seq<Span>)
    ensures Leftmost(s, from, spans) <==> spans == FindAll(s, from)
    decreases |s| - from
  {
    hide Leftmost, TemplateAt;
    if from >= |s| {
      NothingAfterEnd(s, from, spans);
    } else if TemplateAt(s, from).Some? {
      var e := TemplateAt(s, from).value;
      var rest := FindAll(s, e);
      FindAllIsLeftmost(s, e, rest);
      LeftmostCons(s, from, e, rest);
      if Leftmost(s, from, spans) {
        LeftmostHead(s, from, spans);
        assert spans == [Span(from, e)] + spans[1..];
        LeftmostCons(s, from, e, spans[1..]);
        FindAllIsLeftmost(s, e, spans[1..]);
      }
    } else {
      LeftmostSkip(s, from, spans);
      FindAllIsLeftmost(s, from + 1, spans);
    }
  }

  lemma NothingAfterEnd(s: string, from: nat, spans: seq<Span>)
    requires from >= |s|
    ensures Leftmost(s, from, spans) <==> spans == []
  {
    if Leftmost(s, from, spans) && spans != [] {
      SpanNonempty(s, spans[0].start, spans[0].end);
    }
  }

  // ---- The text between and inside the spans ----

  /** Gaps and pieces in turn; the last gap runs to the end. */
  function Interleave(s: string, from: nat, spans: seq<Span>, pieces: seq<string>): string
    requires |pieces| == |spans| && from <= |s|
    requires forall i :: 0 <= i < |spans| ==> spans[i].start <= spans[i].end <= |s|
    decreases |spans|
  {
    if spans == [] then s[from..]
    else
      (if from <= spans[0].start then s[from..spans[0].start] else [])
      + pieces[0] + Interleave(s, spans[0].end, spans[1..], pieces[1..])
  }

  function Raw(s: string, spans: seq<Span>): (r: seq<string>)
    requires forall i :: 0 <= i < |spans| ==> spans[i].start <= spans[i].end <= |s|
    ensures |r| == |spans|
  {
    seq(|spans|, i requires 0 <= i < |spans| => s[spans[i].start..spans[i].end])
  }

  /** Putting every template back in its place rebuilds the input. */
  lemma {:induction false} RawRebuilds(s: string, from: nat, spans: seq<Span>)
    requires from <= |s|
    requires forall i :: 0 <= i < |spans| ==> from <= spans[i].start <= spans[i].end <= |s|
    requires forall i, j :: 0 <= i < j < |spans| ==> spans[i].end <= spans[j].start
    ensures Interleave(s, from, spans, Raw(s, spans)) == s[from..]
    decreases |spans|
  {
    if spans != [] {
      RawRebuilds(s, spans[0].end, spans[1..]);
      assert Raw(s, spans)[1..] == Raw(s, spans[1..]);
      assert s[from..spans[0].start] + s[spans[0].start..spans[0].end] + s[spans[0].end..] == s[from..];
    }
  }
}
