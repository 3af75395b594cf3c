/** Evaluating expressions and resolving them inside a tree of parameters
    (internal/expr/expressions.go). */
module Expressions {
  import opened Wrappers
  import opened Text
  import opened Templates

  /** A parameter tree: strings, string lists, lists, objects, and any other Go value. */
  datatype Value =
    | Str(text: string)
    | Strs(texts: seq<string>)
    | List(items: seq<Value>)
    | Obj(fields: map<string, Value>)
    | Other(shown: string)

  datatype Failure =
    | TestDirUnavailable
    | OutputDirUnavailable
    | EnvNameMissing
    | VMConfigUnavailable
    | VMConfigBroken(reason: string)
    | NotAnObject(path: string)
    | UnknownField(path: string)
    | StepsUnavailable
    | InvalidStepsExpression(expr: string)
    | UnknownExpression(expr: string)
    | NotAString
    | InParam(key: string, inner: Failure)

  /** The values an expression can see. A nil function of the source is None here. */
  datatype Context = Context(
    testDir: string,
    outDir: string,
    vmConfig: Option<Result<map<string, Value>, string>>,
    steps: Option<map<string, map<string, string>>>)

  /** The process: its environment, and how fmt.Sprint prints a list or an object. */
  datatype Host = Host(env: string -> string, sprint: Value -> string)

  function Show(host: Host, v: Value): string {
    match v
    case Str(text) => text
    case Other(shown) => shown
    case _ => host.sprint(v)
  }

  // ---- Evaluation of one expression ----

  function Evaluate(expr: string, host: Host, ctx: Option<Context>): Result<Value, Failure> {
    if expr == "test.dir" then
      if ctx.None? || ctx.value.testDir == "" then Err(TestDirUnavailable) else Ok(Str(ctx.value.testDir))
    else if expr == "output.dir" then
      if ctx.None? || ctx.value.outDir == "" then Err(OutputDirUnavailable) else Ok(Str(ctx.value.outDir))
    else if "env." <= expr then
      if expr[4..] == "" then Err(EnvNameMissing) else Ok(Str(host.env(expr[4..])))
    else if "vmconfig." <= expr then
      if ctx.None? || ctx.value.vmConfig.None? then Err(VMConfigUnavailable)
      else if ctx.value.vmConfig.value.Err? then Err(VMConfigBroken(ctx.value.vmConfig.value.error))
      else Walk(Obj(ctx.value.vmConfig.value.value), Split(expr[9..], '.'), expr[9..])
    else if "steps." <= expr then
      if ctx.None? || ctx.value.steps.None? then Err(StepsUnavailable)
      else ReadSteps(expr, ctx.value.steps.value)
    else Err(UnknownExpression(expr))
  }

  /** steps.STEP_ID.outputs.OUTPUT_NAME; the name may contain dots. */
  function ReadSteps(expr: string, steps: map<string, map<string, string>>): Result<Value, Failure>
    requires "steps." <= expr
  {
    var parts := SplitN(expr[6..], '.', 3);
    if |parts| != 3 || parts[1] != "outputs" then Err(InvalidStepsExpression(expr))
    else Ok(Str(StepOutput(steps, parts[0], parts[2])))
  }

  /** A missing step and a missing output both read as the empty string. */
  function StepOutput(steps: map<string, map<string, string>>, id: string, name: string): string {
    if id in steps && name in steps[id] then steps[id][name] else ""
  }

  /** Following a path of keys through nested objects. */
  function Walk(v: Value, keys: seq<string>, path: string): Result<Value, Failure> {
    if keys == [] then Ok(v)
    else if !v.Obj? then Err(NotAnObject(path))
    else if keys[0] !in v.fields then Err(UnknownField(path))
    else Walk(v.fields[keys[0]], keys[1..], path)
  }

  /** lookupPath: one loop over the segments of the path. */
  method LookupPath(root: map<string, Value>, path: string) returns (r: Result<Value, Failure>)
    ensures r == Walk(Obj(root), Split(path, '.'), path)
  {
    var segments := Split(path, '.');
    var current := Obj(root);
    for i := 0 to |segments|
      invariant Walk(current, segments[i..], path) == Walk(Obj(root), segments, path)
    {
      assert segments[i..][0] == segments[i] && segments[i..][1..] == segments[i + 1..];
      if !current.Obj? { return Err(NotAnObject(path)); }
      if segments[i] !in current.fields { return Err(UnknownField(path)); }
      current := current.fields[segments[i]];
    }
    r := Ok(current);
  }

  /** A path printed from keys without dots leads back along those keys. */
  lemma PathOfKeys(root: map<string, Value>, keys: seq<string>, host: Host, ctx: Context)
    requires keys != [] && forall k | k in keys :: '.' !in k
    requires ctx.vmConfig == Some(Ok(root))
    ensures Evaluate("vmconfig." + Join(keys, '.'), host, Some(ctx)) == Walk(Obj(root), keys, Join(keys, '.'))
  {
    var expr := "vmconfig." + Join(keys, '.');
    assert expr[..9] == "vmconfig." && expr[9..] == Join(keys, '.');
    assert expr[0] == 'v';
    SplitJoin(keys, '.');
  }

  // ---- One string ----

  /** The trimmed text between the braces of a span. */
  function ExprOf(s: string, span: Span): string
    requires span.start + 6 <= span.end <= |s|
  {
    Trim(s[span.start + 3..span.end - 2])
  }

  predicate SpansOk(s: string, spans: seq<Span>) {
    forall i :: 0 <= i < |spans| ==> spans[i].start + 6 <= spans[i].end <= |s|
  }

  lemma {:induction false} FoundSpansOk(s: string, from: nat)
    ensures SpansOk(s, FindAll(s, from))
    decreases |s| - from
  {
    hide TemplateAt;
    if from < |s| {
      if TemplateAt(s, from).Some? {
        FoundSpansOk(s, TemplateAt(s, from).value);
      } else {
        FoundSpansOk(s, from + 1);
      }
    }
  }

  /** The printed values of the spans in order, or the first failure. */
  function Values(s: string, spans: seq<Span>, host: Host, ctx: Option<Context>): (r: Result<seq<string>, Failure>)
    requires SpansOk(s, spans)
    ensures r.Ok? ==> |r.value| == |spans|
  {
    if spans == [] then Ok([])
    else
      var v := Evaluate(ExprOf(s, spans[0]), host, ctx);
      if v.Err? then Err(v.error)
      else
        var rest := Values(s, spans[1..], host, ctx);
        if rest.Err? then rest else Ok([Show(host, v.value)] + rest.value)
  }

  /** What a string resolves to. A string that is one template keeps the type of its value; any other
      string is its gaps with the printed values between them. */
  function Resolved(s: string, host: Host, ctx: Option<Context>): Result<Value, Failure> {
    FoundSpansOk(s, 0);
    var spans := FindAll(s, 0);
    if spans == [] then Ok(Str(s))
    else if spans == [Span(0, |s|)] then Evaluate(ExprOf(s, spans[0]), host, ctx)
    else
      var values := Values(s, spans, host, ctx);
      if values.Err? then Err(values.error) else Ok(Str(Interleave(s, 0, spans, values.value)))
  }

  /** What is still to be written once everything before `from` is. */
  ghost function Remaining(s: string, from: nat, spans: seq<Span>, host: Host, ctx: Option<Context>): Result<string, Failure>
    requires from <= |s| && SpansOk(s, spans)
  {
    var values := Values(s, spans, host, ctx);
    if values.Err? then Err(values.error) else Ok(Interleave(s, from, spans, values.value))
  }

  ghost function Prefixed(written: string, r: Result<string, Failure>): Result<string, Failure> {
    if r.Ok? then Ok(written + r.value) else r
  }

  lemma RemainingStep(s: string, from: nat, spans: seq<Span>, host: Host, ctx: Option<Context>)
    requires from <= |s| && SpansOk(s, spans) && spans != [] && from <= spans[0].start
    ensures var v := Evaluate(ExprOf(s, spans[0]), host, ctx);
      Remaining(s, from, spans, host, ctx)
        == if v.Err? then Err(v.error)
           else Prefixed(s[from..spans[0].start] + Show(host, v.value),
                         Remaining(s, spans[0].end, spans[1..], host, ctx))
  {
    hide Evaluate, ExprOf, Show;
  }

  lemma PrefixedTwice(a: string, b: string, r: Result<string, Failure>)
    ensures Prefixed(a, Prefixed(b, r)) == Prefixed(a + b, r)
  {
    if r.Ok? {
      assert a + (b + r.value) == (a + b) + r.value;
    }
  }

  /** resolveString: the builder loop over the matches. */
  method ResolveString(input: string, host: Host, ctx: Option<Context>) returns (r: Result<Value, Failure>)
    ensures r == Resolved(input, host, ctx)
  {
    hide Evaluate, ExprOf, FindAll;
    FoundSpansOk(input, 0);
    var matches := FindAll(input, 0);
    InOrder(input, 0);
    if |matches| == 0 {
      return Ok(Str(input));
    }
    if |matches| == 1 && matches[0].start == 0 && matches[0].end == |input| {
      r := Evaluate(ExprOf(input, matches[0]), host, ctx);
      return;
    }
    var built := BuildString(input, matches, host, ctx);
    r := if built.Err? then Err(built.error) else Ok(Str(built.value));
  }

  method BuildString(input: string, matches: seq<Span>, host: Host, ctx: Option<Context>)
    returns (r: Result<string, Failure>)
    requires SpansOk(input, matches)
    requires forall i, j :: 0 <= i < j < |matches| ==> matches[i].end <= matches[j].start
    ensures r == Remaining(input, 0, matches, host, ctx)
  {
    hide Evaluate, ExprOf, Show, Remaining, Prefixed;
    ghost var goal := Remaining(input, 0, matches, host, ctx);
    var builder: string, last := [], 0;
    PrefixedNothing(goal);
    assert matches[0..] == matches;
    for i := 0 to |matches|
      invariant last == if i == 0 then 0 else matches[i - 1].end
      invariant 0 <= last <= |input|
      invariant goal == Prefixed(builder, Remaining(input, last, matches[i..], host, ctx))
    {
      ghost var rest := matches[i..];
      assert rest[0] == matches[i] && rest[1..] == matches[i + 1..];
      RemainingStep(input, last, rest, host, ctx);
      var value := Evaluate(ExprOf(input, matches[i]), host, ctx);
      if value.Err? {
        PrefixedFailure(builder, value.error);
        return Err(value.error);
      }
      var piece := input[last..matches[i].start] + Show(host, value.value);
      PrefixedTwice(builder, piece, Remaining(input, matches[i].end, matches[i + 1..], host, ctx));
      builder := builder + piece;
      last := matches[i].end;
    }
    RemainingNone(input, last, host, ctx);
    PrefixedText(builder, input[last..]);
    r := Ok(builder + input[last..]);
  }

  lemma PrefixedNothing(r: Result<string, Failure>)
    ensures Prefixed([], r) == r
  {
    if r.Ok? {
      assert [] + r.value == r.value;
    }
  }

  lemma PrefixedFailure(written: string, e: Failure)
    ensures Prefixed(written, Err(e)) == Err(e)
  {
  }

  lemma PrefixedText(written: string, tail: string)
    ensures Prefixed(written, Ok(tail)) == Ok(written + tail)
  {
  }

  lemma RemainingNone(s: string, from: nat, host: Host, ctx: Option<Context>)
    requires from <= |s|
    ensures Remaining(s, from, [], host, ctx) == Ok(s[from..])
  {
  }

  /** The spans found come one after the other. */
  lemma InOrder(s: string, from: nat)
    ensures forall i, j :: 0 <= i < j < |FindAll(s, from)| ==> FindAll(s, from)[i].end <= FindAll(s, from)[j].start
  {
    FindAllIsLeftmost(s, from, FindAll(s, from));
    hide TemplateAt, FindAll, NoneOutside;
  }

  /** A string with no template is returned as it is; with templates, replacing each value by the text
      it came from gives the input back, so everything between the templates is copied unchanged and
      no value is scanned again. */
  lemma ResolvedKeepsGaps(s: string, host: Host, ctx: Option<Context>)
    ensures FindAll(s, 0) == [] ==> Resolved(s, host, ctx) == Ok(Str(s))
    ensures SpansOk(s, FindAll(s, 0)) && Interleave(s, 0, FindAll(s, 0), Raw(s, FindAll(s, 0))) == s
    ensures Values(s, FindAll(s, 0), host, ctx).Ok? && FindAll(s, 0) != [Span(0, |s|)] ==>
      Resolved(s, host, ctx) == Ok(Str(Interleave(s, 0, FindAll(s, 0), Values(s, FindAll(s, 0), host, ctx).value)))
  {
    FoundSpansOk(s, 0);
    InOrder(s, 0);
    hide FindAll, Evaluate, TemplateAt;
    RawRebuilds(s, 0, FindAll(s, 0));
    assert s[0..] == s;
    if FindAll(s, 0) == [] {
      assert Values(s, [], host, ctx) == Ok([]);
      assert Interleave(s, 0, [], []) == s;
    }
  }

  // ---- Whole trees ----

  /** The tree with every string resolved, or None when some string fails. No order of visiting the
      keys of an object appears here. */
  function Tree(v: Value, host: Host, ctx: Option<Context>): Option<Value> {
    match v
    case Str(text) => Leaf(text, host, ctx)
    case Strs(texts) =>
      if forall i :: 0 <= i < |texts| ==> TextLeaf(texts[i], host, ctx).Ok? then
        Some(Strs(seq(|texts|, i requires 0 <= i < |texts| => TextLeaf(texts[i], host, ctx).value)))
      else None
    case List(items) =>
      if forall i :: 0 <= i < |items| ==> Tree(items[i], host, ctx).Some? then
        Some(List(seq(|items|, i requires 0 <= i < |items| => Tree(items[i], host, ctx).value)))
      else None
    case Obj(fields) =>
      if forall k | k in fields :: Tree(fields[k], host, ctx).Some? then
        Some(Obj(map k | k in fields :: Tree(fields[k], host, ctx).value))
      else None
    case Other(_) => Some(v)
  }

  function Leaf(text: string, host: Host, ctx: Option<Context>): Option<Value> {
    var r := Resolved(text, host, ctx);
    if r.Ok? then Some(r.value) else None
  }

  /** An element of a string list must resolve to a string. */
  function TextLeaf(text: string, host: Host, ctx: Option<Context>): Result<string, Failure> {
    var r := Resolved(text, host, ctx);
    if r.Err? then Err(r.error) else if r.value.Str? then Ok(r.value.text) else Err(NotAString)
  }

  /** `e` is the failure of some string of the tree, under the keys that lead to it. */
  ghost predicate FailsWith(v: Value, e: Failure, host: Host, ctx: Option<Context>) {
    match v
    case Str(text) => Resolved(text, host, ctx) == Err(e)
    case Strs(texts) => exists i :: 0 <= i < |texts| && TextLeaf(texts[i], host, ctx) == Err(e)
    case List(items) => exists i :: 0 <= i < |items| && FailsWith(items[i], e, host, ctx)
    case Obj(fields) => e.InParam? && e.key in fields && FailsWith(fields[e.key], e.inner, host, ctx)
    case Other(_) => false
  }

  /** Resolution fails exactly when some string in the tree does. */
  lemma {:induction false} FailsIffALeafFails(v: Value, host: Host, ctx: Option<Context>)
    ensures Tree(v, host, ctx).None? <==> exists e :: FailsWith(v, e, host, ctx)
    decreases v
  {
    hide Resolved;
    match v
    case Str(text) =>
      if Resolved(text, host, ctx).Err? {
        assert FailsWith(v, Resolved(text, host, ctx).error, host, ctx);
      }
    case Strs(texts) =>
      if Tree(v, host, ctx).None? {
        var i :| 0 <= i < |texts| && TextLeaf(texts[i], host, ctx).Err?;
        assert FailsWith(v, TextLeaf(texts[i], host, ctx).error, host, ctx);
      }
    case List(items) =>
      forall i | 0 <= i < |items|
        ensures Tree(items[i], host, ctx).None? <==> exists e :: FailsWith(items[i], e, host, ctx)
      {
        FailsIffALeafFails(items[i], host, ctx);
      }
      if Tree(v, host, ctx).None? {
        var i :| 0 <= i < |items| && Tree(items[i], host, ctx).None?;
        var e :| FailsWith(items[i], e, host, ctx);
        assert FailsWith(v, e, host, ctx);
      }
    case Obj(fields) =>
      forall k | k in fields
        ensures Tree(fields[k], host, ctx).None? <==> exists e :: FailsWith(fields[k], e, host, ctx)
      {
        FailsIffALeafFails(fields[k], host, ctx);
      }
      if Tree(v, host, ctx).None? {
        var k :| k in fields && Tree(fields[k], host, ctx).None?;
        var e :| FailsWith(fields[k], e, host, ctx);
        assert FailsWith(v, InParam(k, e), host, ctx);
      }
    case Other(_) =>
  }

  /** Same constructors, lengths and keys everywhere above the strings. */
  ghost predicate SameShape(v: Value, r: Value) {
    match v
    case Str(_) => true
    case Strs(texts) => r.Strs? && |r.texts| == |texts|
    case List(items) =>
      r.List? && |r.items| == |items| && forall i :: 0 <= i < |items| ==> SameShape(items[i], r.items[i])
    case Obj(fields) =>
      r.Obj? && r.fields.Keys == fields.Keys && forall k | k in fields :: SameShape(fields[k], r.fields[k])
    case Other(_) => r == v
  }

  lemma {:induction false} TreeKeepsShape(v: Value, host: Host, ctx: Option<Context>)
    requires Tree(v, host, ctx).Some?
    ensures SameShape(v, Tree(v, host, ctx).value)
    decreases v
  {
    hide Resolved;
    match v
    case Str(_) =>
    case Strs(_) =>
    case List(items) =>
      forall i | 0 <= i < |items|
        ensures SameShape(items[i], Tree(v, host, ctx).value.items[i])
      {
        TreeKeepsShape(items[i], host, ctx);
      }
    case Obj(fields) =>
      forall k | k in fields
        ensures SameShape(fields[k], Tree(v, host, ctx).value.fields[k])
      {
        TreeKeepsShape(fields[k], host, ctx);
      }
    case Other(_) =>
  }

  ghost predicate NoTemplates(v: Value) {
    match v
    case Str(text) => FindAll(text, 0) == []
    case Strs(texts) => forall i :: 0 <= i < |texts| ==> FindAll(texts[i], 0) == []
    case List(items) => forall i :: 0 <= i < |items| ==> NoTemplates(items[i])
    case Obj(fields) => forall k | k in fields :: NoTemplates(fields[k])
    case Other(_) => true
  }

  /** A tree without templates resolves to itself, in any context. */
  lemma {:induction false} PlainTreeFixed(v: Value, host: Host, ctx: Option<Context>)
    requires NoTemplates(v)
    ensures Tree(v, host, ctx) == Some(v)
    decreases v
  {
    hide FindAll;
    match v
    case Str(_) =>
    case Strs(texts) =>
      assert seq(|texts|, i requires 0 <= i < |texts| => texts[i]) == texts;
      assert forall i :: 0 <= i < |texts| ==> TextLeaf(texts[i], host, ctx) == Ok(texts[i]);
      assert Tree(v, host, ctx).value.texts == texts;
    case List(items) =>
      forall i | 0 <= i < |items|
        ensures Tree(items[i], host, ctx) == Some(items[i])
      {
        PlainTreeFixed(items[i], host, ctx);
      }
      assert Tree(v, host, ctx).value.items == items;
    case Obj(fields) =>
      forall k | k in fields
        ensures Tree(fields[k], host, ctx) == Some(fields[k])
      {
        PlainTreeFixed(fields[k], host, ctx);
      }
      assert Tree(v, host, ctx).value.fields == fields;
    case Other(_) =>
  }

  /** Resolve: lists are walked in order and stop at the first failure, objects in whatever order the
      map yields its keys. The result never depends on that order; the failure reported is always
      that of some string of the tree. */
  method Resolve(v: Value, host: Host, ctx: Option<Context>) returns (r: Result<Value, Failure>)
    ensures r.Ok? ==> Tree(v, host, ctx) == Some(r.value)
    ensures r.Err? ==> Tree(v, host, ctx).None? && FailsWith(v, r.error, host, ctx)
    decreases v
  {
    hide Resolved;
    match v
    case Str(text) =>
      r := ResolveString(text, host, ctx);
    case Strs(texts) =>
      r := ResolveTexts(texts, host, ctx);
    case List(items) =>
      var out := [];
      for i := 0 to |items|
        invariant |out| == i
        invariant forall k :: 0 <= k < i ==> Tree(items[k], host, ctx) == Some(out[k])
      {
        var resolved := Resolve(items[i], host, ctx);
        if resolved.Err? {
          return Err(resolved.error);
        }
        out := out + [resolved.value];
      }
      assert Tree(v, host, ctx).value.items == out;
      r := Ok(List(out));
    case Obj(fields) =>
      var out, todo := map[], fields.Keys;
      while todo != {}
        invariant todo <= fields.Keys && out.Keys == fields.Keys - todo
        invariant forall k | k in out :: Tree(fields[k], host, ctx) == Some(out[k])
        decreases todo
      {
        var key :| key in todo;
        var resolved := Resolve(fields[key], host, ctx);
        if resolved.Err? {
          return Err(InParam(key, resolved.error));
        }
        out := out[key := resolved.value];
        todo := todo - {key};
      }
      assert Tree(v, host, ctx).value.fields == out;
      r := Ok(Obj(out));
    case Other(_) =>
      r := Ok(v);
  }

  method ResolveTexts(texts: seq<string>, host: Host, ctx: Option<Context>) returns (r: Result<Value, Failure>)
    ensures r.Ok? ==> Tree(Strs(texts), host, ctx) == Some(r.value)
    ensures r.Err? ==> Tree(Strs(texts), host, ctx).None? && FailsWith(Strs(texts), r.error, host, ctx)
  {
    hide Resolved;
    var out: seq<string> := [];
    for i := 0 to |texts|
      invariant |out| == i
      invariant forall k :: 0 <= k < i ==> TextLeaf(texts[k], host, ctx) == Ok(out[k])
    {
      var resolved := ResolveString(texts[i], host, ctx);
      if resolved.Err? {
        assert TextLeaf(texts[i], host, ctx) == Err(resolved.error);
        return Err(resolved.error);
      }
      if !resolved.value.Str? {
        assert TextLeaf(texts[i], host, ctx) == Err(NotAString);
        return Err(NotAString);
      }
      out := out + [resolved.value.text];
    }
    assert Tree(Strs(texts), host, ctx).value.texts == out;
    r := Ok(Strs(out));
  }
}
