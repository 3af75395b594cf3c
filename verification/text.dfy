/** The few string functions of Go's standard library that the expression engine leans on. */
module Text {

  /** Unicode White_Space, as strings.TrimSpace uses it. */
  predicate IsSpace(c: char) {
    || '\U{0009}' <= c <= '\U{000D}' || c == ' ' || c == '\U{0085}' || c == '\U{00A0}' || c == '\U{1680}'
    || '\U{2000}' <= c <= '\U{200A}' || c == '\U{2028}' || c == '\U{2029}' || c == '\U{202F}'
    || c == '\U{205F}' || c == '\U{3000}'
  }

  const WHITE_SPACE := "\U{0009}\U{000A}\U{000B}\U{000C}\U{000D} \U{0085}\U{00A0}\U{1680}"
    + "\U{2000}\U{2001}\U{2002}\U{2003}\U{2004}\U{2005}\U{2006}\U{2007}\U{2008}\U{2009}\U{200A}"
    + "\U{2028}\U{2029}\U{202F}\U{205F}\U{3000}"

  lemma WhiteSpaceTable(c: char)
    ensures IsSpace(c) <==> c in WHITE_SPACE
  {
  }

  predicate IsLineBreak(c: char) {
    c == '\r' || c == '\n'
  }

  predicate AllSpace(s: string) {
    forall k :: 0 <= k < |s| ==> IsSpace(s[k])
  }

  function TrimLeft(s: string): string {
    if s != [] && IsSpace(s[0]) then TrimLeft(s[1..]) else s
  }

  function TrimRight(s: string): string {
    if s != [] && IsSpace(s[|s| - 1]) then TrimRight(s[..|s| - 1]) else s
  }

  /** strings.TrimSpace */
  function Trim(s: string): string {
    TrimRight(TrimLeft(s))
  }

  lemma {:induction false} TrimLeftAllSpace(w: string, s: string)
    requires AllSpace(w)
    ensures TrimLeft(w + s) == TrimLeft(s)
  {
    if w == [] {
      assert w + s == s;
    } else {
      assert (w + s)[1..] == w[1..] + s;
      TrimLeftAllSpace(w[1..], s);
    }
  }

  lemma {:induction false} TrimRightAllSpace(s: string, w: string)
    requires AllSpace(w)
    ensures TrimRight(s + w) == TrimRight(s)
  {
    if w == [] {
      assert s + w == s;
    } else {
      assert (s + w)[..|s + w| - 1] == s + w[..|w| - 1];
      TrimRightAllSpace(s, w[..|w| - 1]);
    }
  }

  lemma {:induction false} TrimLeftKeepsTail(g: string, w: string)
    requires !AllSpace(g)
    ensures TrimLeft(g + w) == TrimLeft(g) + w
  {
    if IsSpace(g[0]) {
      assert (g + w)[1..] == g[1..] + w;
      TrimLeftKeepsTail(g[1..], w);
    }
  }

  /** White space around a text does not matter to Trim. */
  lemma TrimAround(w: string, g: string, v: string)
    requires AllSpace(w) && AllSpace(v)
    ensures Trim(w + g + v) == Trim(g)
  {
    assert w + g + v == w + (g + v);
    TrimLeftAllSpace(w, g + v);
    if AllSpace(g) {
      TrimLeftAllSpace(g + v, []);
      TrimLeftAllSpace(g, []);
      assert g + v + [] == g + v && g + [] == g;
    } else {
      TrimLeftKeepsTail(g, v);
      TrimRightAllSpace(TrimLeft(g), v);
    }
  }

  lemma TrimTight(g: string)
    requires g != [] && !IsSpace(g[0]) && !IsSpace(g[|g| - 1])
    ensures Trim(g) == g
  {
  }

  /** strings.SplitN with a one-character separator; with n above the number of separators, Split. */
  function SplitN(s: string, sep: char, n: nat): (parts: seq<string>)
    requires n > 0
    ensures 0 < |parts| <= n
    decreases n
  {
    if n == 1 || sep !in s then [s]
    else
      var i := IndexOf(s, sep);
      [s[..i]] + SplitN(s[i + 1..], sep, n - 1)
  }

  function Split(s: string, sep: char): seq<string> {
    SplitN(s, sep, |s| + 1)
  }

  function IndexOf(s: string, c: char): (i: nat)
    requires c in s
    ensures i < |s| && s[i] == c && c !in s[..i]
  {
    if s[0] == c then 0 else 1 + IndexOf(s[1..], c)
  }

  function Join(parts: seq<string>, sep: char): string
    requires parts != []
  {
    if |parts| == 1 then parts[0] else parts[0] + [sep] + Join(parts[1..], sep)
  }

  lemma {:induction false} IndexOfFirst(a: string, c: char, b: string)
    requires c !in a
    ensures c in a + [c] + b && IndexOf(a + [c] + b, c) == |a|
  {
    var s := a + [c] + b;
    assert s[|a|] == c;
    if a != [] {
      IndexOfFirst(a[1..], c, b);
      assert s[1..] == a[1..] + [c] + b;
    }
  }

  lemma SplitHead(a: string, sep: char, b: string, n: nat)
    requires sep !in a && n > 1
    ensures SplitN(a + [sep] + b, sep, n) == [a] + SplitN(b, sep, n - 1)
  {
    var s := a + [sep] + b;
    assert s[|a|] == sep;
    IndexOfFirst(a, sep, b);
    assert s[..|a|] == a && s[|a| + 1..] == b;
  }

  lemma SplitNone(s: string, sep: char, n: nat)
    requires sep !in s && n > 0
    ensures SplitN(s, sep, n) == [s]
  {
  }

  /** Splitting undoes joining, for parts that do not contain the separator. */
  lemma {:induction false} SplitNJoin(parts: seq<string>, sep: char, n: nat)
    requires parts != [] && n >= |parts| && forall p | p in parts :: sep !in p
    ensures SplitN(Join(parts, sep), sep, n) == parts
    decreases |parts|
  {
    hide SplitN;
    if |parts| == 1 {
      SplitNone(parts[0], sep, n);
      assert parts == [parts[0]];
    } else {
      SplitHead(parts[0], sep, Join(parts[1..], sep), n);
      SplitNJoin(parts[1..], sep, n - 1);
      assert [parts[0]] + parts[1..] == parts;
    }
  }

  lemma {:induction false} JoinLength(parts: seq<string>, sep: char)
    requires parts != []
    ensures |Join(parts, sep)| + 1 >= |parts|
  {
    if |parts| > 1 {
      JoinLength(parts[1..], sep);
    }
  }

  lemma SplitJoin(parts: seq<string>, sep: char)
    requires parts != [] && forall p | p in parts :: sep !in p
    ensures Split(Join(parts, sep), sep) == parts
  {
    JoinLength(parts, sep);
    SplitNJoin(parts, sep, |Join(parts, sep)| + 1);
  }
}
