/** What a template written by a test author resolves to, for each kind of expression
    (internal/expr/expressions.go). */
module PrintedTemplates {
  import opened Wrappers
  import opened Text
  import opened Templates
  import opened Expressions

  /** An expression as it is usually written. */
  function Printed(x: string): string {
    "${{ " + x + " }}"
  }

  /** Nothing in the expression ends the template early or is trimmed away. */
  predicate Plain(x: string) {
    x != "" && '}' !in x && !IsSpace(x[0]) && !IsSpace(x[|x| - 1])
  }

  lemma {:induction false} RunEndAt(s: string, i: nat, q: nat)
    requires i <= q < |s| && s[q] == '}' && forall k :: i <= k < q ==> s[k] != '}'
    ensures RunEnd(s, i) == q
  {
    assert s[RunEnd(s, i)] == '}';
  }

  /** A template in the middle of a text. */
  lemma TemplateInside(a: string, inner: string, b: string)
    requires inner != "" && '}' !in inner
    ensures var t := a + ("${{" + inner + "}}") + b;
      TemplateAt(t, |a|) == Some(|a| + |inner| + 5) && t[|a| + 3..|a| + |inner| + 3] == inner
  {
    var p := "${{" + inner + "}}";
    var t := a + p + b;
    var q := |a| + |inner| + 3;
    assert t[|a|..|a| + |p|] == p;
    assert t[|a|..|a| + 3] == p[..3] == OPEN && t[q..q + 2] == p[|inner| + 3..] == CLOSE;
    assert t[|a| + 3..q] == p[3..|inner| + 3] == inner;
    forall k | |a| + 3 <= k < q
      ensures t[k] != '}'
    {
      assert t[k] == inner[k - |a| - 3];
    }
    assert t[q] == CLOSE[0];
    RunEndAt(t, |a| + 3, q);
  }

  lemma WholeTemplate(inner: string)
    requires inner != "" && '}' !in inner
    ensures var t := "${{" + inner + "}}";
      FindAll(t, 0) == [Span(0, |t|)] && t[3..|t| - 2] == inner
  {
    var t := "${{" + inner + "}}";
    TemplateInside("", inner, "");
    assert "" + t + "" == t;
    assert FindAll(t, |t|) == [];
  }

  lemma PrintedTrims(x: string)
    requires Plain(x)
    ensures Trim(" " + x + " ") == x
  {
    TrimAround(" ", x, " ");
    TrimTight(x);
  }

  /** A printed expression is one template, so it has the value of the expression, with its type. */
  lemma PrintedEvaluates(x: string, host: Host, ctx: Option<Context>)
    requires Plain(x)
    ensures Resolved(Printed(x), host, ctx) == Evaluate(x, host, ctx)
  {
    hide Evaluate, Trim, FindAll;
    var inner, t := " " + x + " ", Printed(x);
    assert t == "${{" + inner + "}}";
    WholeTemplate(inner);
    PrintedTrims(x);
    assert ExprOf(t, Span(0, |t|)) == x;
  }

  // ---- The kinds of expressions ----

  lemma TestDirResolves(host: Host, ctx: Option<Context>)
    ensures Resolved("${{ test.dir }}", host, ctx)
            == if ctx.Some? && ctx.value.testDir != "" then Ok(Str(ctx.value.testDir)) else Err(TestDirUnavailable)
  {
    hide Resolved;
    PrintedEvaluates("test.dir", host, ctx);
    assert Printed("test.dir") == "${{ test.dir }}";
  }

  lemma OutputDirResolves(host: Host, ctx: Option<Context>)
    ensures Resolved("${{ output.dir }}", host, ctx)
            == if ctx.Some? && ctx.value.outDir != "" then Ok(Str(ctx.value.outDir)) else Err(OutputDirUnavailable)
  {
    hide Resolved;
    PrintedEvaluates("output.dir", host, ctx);
    assert Printed("output.dir") == "${{ output.dir }}";
  }

  /** The variable is read with or without a context; a missing name fails. */
  lemma EnvResolves(name: string, host: Host, ctx: Option<Context>)
    requires '}' !in name && (name != "" ==> !IsSpace(name[|name| - 1]))
    ensures Resolved("${{ env." + name + " }}", host, ctx)
            == if name == "" then Err(EnvNameMissing) else Ok(Str(host.env(name)))
  {
    hide Resolved;
    var x := "env." + name;
    assert x[0] == 'e' && x[4..] == name;
    assert x[|x| - 1] == if name == "" then '.' else name[|name| - 1];
    PrintedEvaluates(x, host, ctx);
    assert Printed(x) == "${{ env." + name + " }}";
  }

  /** `trail` starts at v, goes down one key at a time through nested objects, and ends at r. */
  ghost predicate Trail(trail: seq<Value>, v: Value, keys: seq<string>, r: Value) {
    && |trail| == |keys| + 1 && trail[0] == v && trail[|keys|] == r
    && forall i :: 0 <= i < |keys| ==>
         trail[i].Obj? && keys[i] in trail[i].fields && trail[i].fields[keys[i]] == trail[i + 1]
  }

  lemma {:induction false} WalkFollowsTrail(trail: seq<Value>, v: Value, keys: seq<string>, path: string, r: Value)
    requires Trail(trail, v, keys, r)
    ensures Walk(v, keys, path) == Ok(r)
    decreases |keys|
  {
    if keys != [] {
      WalkFollowsTrail(trail[1..], trail[1], keys[1..], path, r);
    }
  }

  lemma {:induction false} WalkLeavesTrail(v: Value, keys: seq<string>, path: string, r: Value)
    returns (trail: seq<Value>)
    requires Walk(v, keys, path) == Ok(r)
    ensures Trail(trail, v, keys, r)
    decreases |keys|
  {
    if keys == [] {
      trail := [v];
    } else {
      var rest := WalkLeavesTrail(v.fields[keys[0]], keys[1..], path, r);
      trail := [v] + rest;
    }
  }

  /** The value at the end of the keys, with its type; the template fails without a configuration and when
      a key is missing or an object is expected and not found. */
  lemma VMConfigResolves(keys: seq<string>, host: Host, ctx: Option<Context>, r: Value)
    requires keys != [] && (forall k | k in keys :: '.' !in k && '}' !in k)
    requires var last := keys[|keys| - 1]; last != "" ==> !IsSpace(last[|last| - 1])
    ensures Resolved("${{ vmconfig." + Join(keys, '.') + " }}", host, ctx) == Ok(r)
            <==> && ctx.Some? && ctx.value.vmConfig.Some? && ctx.value.vmConfig.value.Ok?
                 && exists trail :: Trail(trail, Obj(ctx.value.vmConfig.value.value), keys, r)
  {
    hide Resolved, Walk, Trail;
    var path := Join(keys, '.');
    var x := "vmconfig." + path;
    JoinFree(keys, '}');
    JoinEnds(keys);
    assert Plain(x);
    PrintedEvaluates(x, host, ctx);
    assert Printed(x) == "${{ vmconfig." + path + " }}";
    if ctx.Some? && ctx.value.vmConfig.Some? && ctx.value.vmConfig.value.Ok? {
      var root := ctx.value.vmConfig.value.value;
      PathOfKeys(root, keys, host, ctx.value);
      if Walk(Obj(root), keys, path) == Ok(r) {
        var trail := WalkLeavesTrail(Obj(root), keys, path, r);
      }
      if exists trail :: Trail(trail, Obj(root), keys, r) {
        var trail :| Trail(trail, Obj(root), keys, r);
        WalkFollowsTrail(trail, Obj(root), keys, path, r);
      }
    } else {
      NoVMConfig(x, host, ctx);
    }
  }

  lemma NoVMConfig(x: string, host: Host, ctx: Option<Context>)
    requires "vmconfig." <= x && !(ctx.Some? && ctx.value.vmConfig.Some? && ctx.value.vmConfig.value.Ok?)
    ensures Evaluate(x, host, ctx).Err?
  {
    assert x[0] == 'v';
  }

  lemma {:induction false} JoinFree(parts: seq<string>, c: char)
    requires parts != [] && c != '.' && forall p | p in parts :: c !in p
    ensures c !in Join(parts, '.')
  {
    if |parts| > 1 {
      JoinFree(parts[1..], c);
    }
  }

  lemma {:induction false} JoinEnds(parts: seq<string>)
    requires parts != []
    ensures var s, last := Join(parts, '.'), parts[|parts| - 1];
      if last != "" then s != "" && s[|s| - 1] == last[|last| - 1] else s == "" || s[|s| - 1] == '.'
  {
    if |parts| > 1 {
      JoinEnds(parts[1..]);
    }
  }

  /** A template for the outputs of a step fails when no steps are known. */
  lemma StepsNeedContext(rest: string, host: Host, ctx: Option<Context>)
    requires Plain("steps." + rest) && (ctx.None? || ctx.value.steps.None?)
    ensures Resolved("${{ steps." + rest + " }}", host, ctx) == Err(StepsUnavailable)
  {
    hide Resolved, ReadSteps;
    var x := "steps." + rest;
    assert x[0] == 's';
    PrintedEvaluates(x, host, ctx);
    assert Printed(x) == "${{ steps." + rest + " }}";
  }

  /** Any other expression fails. */
  lemma OtherExpressionsFail(x: string, host: Host, ctx: Option<Context>)
    requires Plain(x) && x != "test.dir" && x != "output.dir"
    requires !("env." <= x) && !("vmconfig." <= x) && !("steps." <= x)
    ensures Resolved("${{ " + x + " }}", host, ctx) == Err(UnknownExpression(x))
  {
    hide Resolved, ReadSteps, Walk;
    PrintedEvaluates(x, host, ctx);
  }

  // ---- Inside a text ----

  predicate Opens(s: string, p: nat) {
    p + 3 <= |s| && s[p] == '$' && s[p + 1] == '{' && s[p + 2] == '{'
  }

  /** A printed expression between texts in which no template opens is the only template. */
  lemma OnlyTemplate(a: string, x: string, b: string)
    requires Plain(x) && (forall p :: !Opens(a, p)) && (forall p :: !Opens(b, p))
    ensures var t := a + Printed(x) + b;
      FindAll(t, 0) == [Span(|a|, |a| + |Printed(x)|)] && ExprOf(t, Span(|a|, |a| + |Printed(x)|)) == x
  {
    hide Trim, FindAll;
    var inner := " " + x + " ";
    var t, e := a + Printed(x) + b, |a| + |Printed(x)|;
    assert Printed(x) == "${{" + inner + "}}";
    TemplateInside(a, inner, b);
    PrintedTrims(x);
    var spans := [Span(|a|, e)];
    forall p: nat | 0 <= p < |t| && !InSome(spans, p)
      ensures TemplateAt(t, p).None?
    {
      hide TemplateAt, Opens, Printed;
      assert spans[0].start == |a| && spans[0].end == e;
      if p < |a| {
        PrintedOpens(x);
        NotOpenedBefore(a, Printed(x) + b, p);
        assert t == a + (Printed(x) + b);
      } else {
        assert p >= e;
        NotOpenedAfter(a + Printed(x), b, p);
      }
    }
    hide TemplateAt, FindAll, Trim;
    assert Leftmost(t, 0, spans);
    FindAllIsLeftmost(t, 0, spans);
  }

  lemma PrintedOpens(x: string)
    ensures Printed(x) != "" && Printed(x)[0] == '$'
  {
  }

  lemma TemplatesOpen(s: string, p: nat)
    ensures TemplateAt(s, p).Some? ==> Opens(s, p)
  {
    if TemplateAt(s, p).Some? {
      assert s[p] == OPEN[0] && s[p + 1] == OPEN[1] && s[p + 2] == OPEN[2];
    }
  }

  lemma NotOpenedBefore(a: string, rest: string, p: nat)
    requires p < |a| && rest != "" && rest[0] == '$' && !Opens(a, p)
    ensures TemplateAt(a + rest, p).None?
  {
    TemplatesOpen(a + rest, p);
    hide TemplateAt;
    assert (a + rest)[|a|] == '$';
  }

  lemma NotOpenedAfter(before: string, b: string, p: nat)
    requires |before| <= p && !Opens(b, p - |before|)
    ensures TemplateAt(before + b, p).None?
  {
    TemplatesOpen(before + b, p);
    hide TemplateAt;
  }

  /** The printed value takes the place of the template, and the text around it stays. */
  lemma Spliced(a: string, x: string, b: string, host: Host, ctx: Option<Context>)
    requires Plain(x) && (forall p :: !Opens(a, p)) && (forall p :: !Opens(b, p)) && a + b != ""
    ensures var v := Resolved(Printed(x), host, ctx);
      Resolved(a + Printed(x) + b, host, ctx)
        == if v.Ok? then Ok(Str(a + Show(host, v.value) + b)) else v
  {
    hide Evaluate, Resolved, FindAll, ExprOf, Show, Plain, Opens;
    PrintedEvaluates(x, host, ctx);
    OnlyTemplate(a, x, b);
    var t, span := a + Printed(x) + b, Span(|a|, |a| + |Printed(x)|);
    assert |Printed(x)| >= 6;
    assert t[0..|a|] == a && t[span.end..] == b;
    hide Printed;
    OneTemplate(t, span, host, ctx);
  }

  lemma OneTemplate(t: string, span: Span, host: Host, ctx: Option<Context>)
    requires FindAll(t, 0) == [span] && span != Span(0, |t|) && span.start + 6 <= span.end <= |t|
    ensures var v := Evaluate(ExprOf(t, span), host, ctx);
      Resolved(t, host, ctx) == if v.Ok? then Ok(Str(t[0..span.start] + Show(host, v.value) + t[span.end..])) else v
  {
    hide Evaluate, FindAll, Show, ExprOf;
    OneValue(t, span, host, ctx);
    var v := Evaluate(ExprOf(t, span), host, ctx);
    if v.Ok? {
      SplicedText(t, span, Show(host, v.value));
    }
    hide Values, Interleave;
  }

  lemma OneValue(t: string, span: Span, host: Host, ctx: Option<Context>)
    requires span.start + 6 <= span.end <= |t|
    ensures var v := Evaluate(ExprOf(t, span), host, ctx);
      Values(t, [span], host, ctx) == if v.Ok? then Ok([Show(host, v.value)]) else Err(v.error)
  {
    hide Evaluate, Show, ExprOf;
    assert [span][1..] == [];
    assert Values(t, [], host, ctx) == Ok([]);
    var v := Evaluate(ExprOf(t, span), host, ctx);
    if v.Ok? {
      assert [Show(host, v.value)] + [] == [Show(host, v.value)];
    }
  }

  lemma SplicedText(t: string, span: Span, piece: string)
    requires span.start <= span.end <= |t|
    ensures Interleave(t, 0, [span], [piece]) == t[0..span.start] + piece + t[span.end..]
  {
    assert [span][1..] == [] && [piece][1..] == [];
    assert Interleave(t, span.end, [], []) == t[span.end..];
  }

  lemma TestDirSplices(a: string, b: string, host: Host, ctx: Context)
    requires (forall p :: !Opens(a, p)) && (forall p :: !Opens(b, p)) && ctx.testDir != ""
    ensures Resolved(a + "${{ test.dir }}" + b, host, Some(ctx)) == Ok(Str(a + ctx.testDir + b))
  {
    hide Resolved, Opens;
    TestDirResolves(host, Some(ctx));
    assert Printed("test.dir") == "${{ test.dir }}";
    if a + b != "" {
      Spliced(a, "test.dir", b, host, Some(ctx));
    } else {
      assert a == "" && b == "";
      assert "" + "${{ test.dir }}" + "" == "${{ test.dir }}";
      assert "" + ctx.testDir + "" == ctx.testDir;
    }
  }

  /** A value that is not a string is spliced as it prints. */
  lemma VMConfigSplices(a: string, keys: seq<string>, b: string, host: Host, ctx: Option<Context>, shown: string)
    requires (forall p :: !Opens(a, p)) && (forall p :: !Opens(b, p)) && a + b != ""
    requires keys != [] && Plain("vmconfig." + Join(keys, '.'))
    requires Resolved("${{ vmconfig." + Join(keys, '.') + " }}", host, ctx) == Ok(Other(shown))
    ensures Resolved(a + ("${{ vmconfig." + Join(keys, '.') + " }}") + b, host, ctx) == Ok(Str(a + shown + b))
  {
    hide Resolved, Opens, Join;
    var x := "vmconfig." + Join(keys, '.');
    assert Printed(x) == "${{ vmconfig." + Join(keys, '.') + " }}";
    Spliced(a, x, b, host, ctx);
  }

  // ---- Inside a tree ----

  /** A string that is a whole template keeps the type of its value anywhere in a list or an object; in a
      string list its value must be a string. */
  lemma TypeIsKept(v: Value, host: Host, ctx: Option<Context>, text: string)
    requires Tree(v, host, ctx).Some?
    ensures v == Str(text) ==> Resolved(text, host, ctx) == Ok(Tree(v, host, ctx).value)
    ensures v.List? ==> forall i :: 0 <= i < |v.items| && v.items[i] == Str(text) ==>
              Tree(v, host, ctx).value.List? && |Tree(v, host, ctx).value.items| == |v.items|
              && Resolved(text, host, ctx) == Ok(Tree(v, host, ctx).value.items[i])
    ensures v.Strs? ==> forall i :: 0 <= i < |v.texts| && v.texts[i] == text ==>
              Tree(v, host, ctx).value.Strs? && |Tree(v, host, ctx).value.texts| == |v.texts|
              && Resolved(text, host, ctx) == Ok(Str(Tree(v, host, ctx).value.texts[i]))
    ensures v.Obj? ==> forall k :: k in v.fields && v.fields[k] == Str(text) ==>
              Tree(v, host, ctx).value.Obj? && k in Tree(v, host, ctx).value.fields
              && Resolved(text, host, ctx) == Ok(Tree(v, host, ctx).value.fields[k])
  {
    hide Resolved;
  }
}
