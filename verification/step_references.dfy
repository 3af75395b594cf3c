/** Reading the outputs of an earlier step: `${{ steps.<id>.outputs.<name> }}`
    (internal/expr/expressions.go, internal/executor/runner.go). */
module StepReferences {
  import opened Wrappers
  import opened Text
  import opened Templates
  import opened Expressions
  import opened PrintedTemplates
  import Runner

  function Body(id: string, name: string): string {
    "steps." + id + ".outputs." + name
  }

  /** The reference as a test author writes it. */
  function Reference(id: string, name: string): string {
    "${{ " + Body(id, name) + " }}"
  }

  predicate Printable(id: string, name: string) {
    '.' !in id && '}' !in id && '}' !in name && (name != "" ==> !IsSpace(name[|name| - 1]))
  }

  /** The reference resolves to the recorded output whatever was recorded. */
  ghost predicate Faithful(id: string, name: string) {
    forall host, ctx: Context | ctx.steps.Some? ::
      Resolved(Reference(id, name), host, Some(ctx)) == Ok(Str(StepOutput(ctx.steps.value, id, name)))
  }

  // ---- A printable reference is faithful ----

  lemma StepsExpression(x: string, host: Host, ctx: Context)
    requires "steps." <= x && ctx.steps.Some?
    ensures Evaluate(x, host, Some(ctx)) == ReadSteps(x, ctx.steps.value)
  {
    hide ReadSteps, Walk;
    assert x[0] == 's';
  }

  lemma BodyReads(id: string, name: string, steps: map<string, map<string, string>>)
    requires '.' !in id
    ensures "steps." <= Body(id, name) && ReadSteps(Body(id, name), steps) == Ok(Str(StepOutput(steps, id, name)))
  {
    hide SplitN, StepOutput;
    var x := Body(id, name);
    var rest := "outputs" + ['.'] + name;
    assert x[..6] == "steps." && x[6..] == id + ['.'] + rest;
    SplitHead(id, '.', rest, 3);
    SplitHead("outputs", '.', name, 2);
    SplitLast(name);
  }

  lemma SplitLast(name: string)
    ensures SplitN(name, '.', 1) == [name]
  {
  }

  lemma BodyEvaluates(id: string, name: string, host: Host, ctx: Context)
    requires '.' !in id && ctx.steps.Some?
    ensures Evaluate(Body(id, name), host, Some(ctx)) == Ok(Str(StepOutput(ctx.steps.value, id, name)))
  {
    hide Evaluate, ReadSteps, Body;
    BodyReads(id, name, ctx.steps.value);
    StepsExpression(Body(id, name), host, ctx);
  }

  lemma BodyIsTight(id: string, name: string)
    requires name != "" ==> !IsSpace(name[|name| - 1])
    ensures Trim(" " + Body(id, name) + " ") == Body(id, name)
  {
    var x := Body(id, name);
    assert x[0] == 's';
    assert x[|x| - 1] == if name != "" then name[|name| - 1] else '.';
    TrimAround(" ", x, " ");
    TrimTight(x);
  }

  lemma PrintableIsFaithful(id: string, name: string, host: Host, ctx: Context)
    requires Printable(id, name) && ctx.steps.Some?
    ensures Resolved(Reference(id, name), host, Some(ctx)) == Ok(Str(StepOutput(ctx.steps.value, id, name)))
  {
    hide FindAll, Evaluate, Trim;
    var inner, t := " " + Body(id, name) + " ", Reference(id, name);
    assert '}' !in inner;
    assert t == "${{" + inner + "}}";
    WholeTemplate(inner);
    BodyIsTight(id, name);
    BodyEvaluates(id, name, host, ctx);
    assert ExprOf(t, Span(0, |t|)) == Body(id, name);
  }

  // ---- Any other reference goes wrong for some record ----

  lemma {:induction false} JoinSplit(s: string, sep: char, n: nat)
    requires n > 0
    ensures Join(SplitN(s, sep, n), sep) == s
    ensures |SplitN(s, sep, n)| > 1 ==> sep !in SplitN(s, sep, n)[0]
    decreases n
  {
    if n > 1 && sep in s {
      var i := IndexOf(s, sep);
      JoinSplit(s[i + 1..], sep, n - 1);
      assert s == s[..i] + [sep] + s[i + 1..];
      assert SplitN(s, sep, n)[1..] == SplitN(s[i + 1..], sep, n - 1);
    }
  }

  /** Trimming cuts a piece out of the middle, and leaves no space at its end. */
  lemma {:induction false} TrimLeftPart(s: string)
    ensures |TrimLeft(s)| <= |s| && TrimLeft(s) == s[|s| - |TrimLeft(s)|..]
  {
    if s != [] && IsSpace(s[0]) {
      TrimLeftPart(s[1..]);
    }
  }

  lemma {:induction false} TrimRightPart(s: string)
    ensures TrimRight(s) <= s
    ensures TrimRight(s) != [] ==> !IsSpace(TrimRight(s)[|TrimRight(s)| - 1])
  {
    if s != [] && IsSpace(s[|s| - 1]) {
      TrimRightPart(s[..|s| - 1]);
    }
  }

  lemma TrimPart(s: string, c: char)
    ensures c !in s ==> c !in Trim(s)
    ensures Trim(s) != [] ==> !IsSpace(Trim(s)[|Trim(s)| - 1])
  {
    var l := TrimLeft(s);
    TrimLeftPart(s);
    TrimRightPart(l);
    hide TrimLeft, TrimRight;
    assert forall k :: 0 <= k < |l| ==> l[k] == s[|s| - |l| + k];
  }

  /** A record in which only one output is not empty. */
  function OnlyRecord(id: string, name: string, value: string): Context {
    Context("", "", None, Some(map[id := map[name := value]]))
  }

  const SILENT := Host(_ => "", _ => "")

  ghost predicate Silent(r: Result<Value, Failure>) {
    r.Err? || r.value == Str("")
  }

  lemma OtherKindsAreSilent(x: string, id: string, name: string, value: string)
    requires !("steps." <= x)
    ensures Silent(Evaluate(x, SILENT, Some(OnlyRecord(id, name, value))))
  {
    hide ReadSteps, Walk;
  }

  lemma PartsSpellBody(x: string, id: string, name: string)
    requires "steps." <= x && SplitN(x[6..], '.', 3) == [id, "outputs", name]
    ensures x == Body(id, name) && '.' !in id
  {
    var parts := [id, "outputs", name];
    JoinSplit(x[6..], '.', 3);
    hide SplitN, Body;
    JoinThree(parts);
    hide Join;
    BodyRest(id, name);
    assert x == x[..6] + x[6..];
  }

  lemma OtherReadsAreSilent(x: string, id: string, name: string, value: string)
    requires "steps." <= x && (x != Body(id, name) || '.' in id)
    ensures Silent(ReadSteps(x, map[id := map[name := value]]))
  {
    hide SplitN, Body;
    var parts := SplitN(x[6..], '.', 3);
    if parts == [id, "outputs", name] {
      PartsSpellBody(x, id, name);
    } else if |parts| == 3 && parts[1] == "outputs" {
      assert parts == [parts[0], parts[1], parts[2]];
      assert parts[0] != id || parts[2] != name;
    }
  }

  lemma BodyRest(id: string, name: string)
    ensures Body(id, name) == "steps." + (id + ['.'] + ("outputs" + ['.'] + name))
  {
  }

  lemma JoinThree(parts: seq<string>)
    requires |parts| == 3
    ensures Join(parts, '.') == parts[0] + ['.'] + (parts[1] + ['.'] + parts[2])
  {
    var two := parts[1..];
    assert two[0] == parts[1] && two[1..] == [parts[2]];
    assert Join(two, '.') == parts[1] + ['.'] + Join([parts[2]], '.');
  }

  lemma OtherExpressionsAreSilent(x: string, id: string, name: string, value: string)
    requires x != Body(id, name) || '.' in id
    ensures Silent(Evaluate(x, SILENT, Some(OnlyRecord(id, name, value))))
  {
    hide Evaluate, ReadSteps, Silent, Body;
    if "steps." <= x {
      OtherReadsAreSilent(x, id, name, value);
      StepsExpression(x, SILENT, OnlyRecord(id, name, value));
    } else {
      OtherKindsAreSilent(x, id, name, value);
    }
  }

  ghost predicate BraceFree(s: string, spans: seq<Span>) {
    SpansOk(s, spans) && forall i :: 0 <= i < |spans| ==> '}' !in s[spans[i].start + 3..spans[i].end - 2]
  }

  lemma BraceFreeAt(s: string, p: nat)
    requires TemplateAt(s, p).Some?
    ensures '}' !in s[p + 3..TemplateAt(s, p).value - 2]
  {
  }

  lemma {:induction false} FoundAreBraceFree(s: string, from: nat)
    ensures BraceFree(s, FindAll(s, from))
    decreases |s| - from
  {
    hide TemplateAt;
    if from < |s| {
      if TemplateAt(s, from).Some? {
        BraceFreeAt(s, from);
        FoundAreBraceFree(s, TemplateAt(s, from).value);
      } else {
        FoundAreBraceFree(s, from + 1);
      }
    }
  }

  /** No template inside a reference that is not printable spells the reference itself. */
  lemma SpanIsSilent(id: string, name: string, value: string, spans: seq<Span>, i: nat)
    requires !Printable(id, name) && BraceFree(Reference(id, name), spans) && i < |spans|
    ensures Silent(Evaluate(ExprOf(Reference(id, name), spans[i]), SILENT, Some(OnlyRecord(id, name, value))))
  {
    var t := Reference(id, name);
    TrimPart(t[spans[i].start + 3..spans[i].end - 2], '}');
    BodyParts(id, name);
    hide Evaluate, Trim, Body, Reference, Silent;
    OtherExpressionsAreSilent(ExprOf(t, spans[i]), id, name, value);
  }

  lemma BodyParts(id: string, name: string)
    ensures '}' in id || '}' in name ==> '}' in Body(id, name)
    ensures |Body(id, name)| > 0 && (name != "" ==> Body(id, name)[|Body(id, name)| - 1] == name[|name| - 1])
  {
    var x := Body(id, name);
    assert forall k :: 0 <= k < |id| ==> x[6 + k] == id[k];
    assert forall k :: 0 <= k < |name| ==> x[|x| - |name| + k] == name[k];
  }

  lemma {:induction false} SilentPieces(s: string, from: nat, spans: seq<Span>, host: Host, ctx: Option<Context>)
    requires from <= |s| && SpansOk(s, spans)
    requires forall i :: 0 <= i < |spans| ==> Silent(Evaluate(ExprOf(s, spans[i]), host, ctx))
    requires forall i :: 0 <= i < |spans| ==> from <= spans[i].start
    requires forall i, j :: 0 <= i < j < |spans| ==> spans[i].end <= spans[j].start
    ensures Values(s, spans, host, ctx).Ok? ==>
              |Interleave(s, from, spans, Values(s, spans, host, ctx).value)| <= |s| - from
    decreases |spans|
  {
    hide Evaluate, ExprOf;
    if spans != [] {
      assert Silent(Evaluate(ExprOf(s, spans[0]), host, ctx));
      SilentPieces(s, spans[0].end, spans[1..], host, ctx);
    }
  }

  lemma UnprintableIsUnfaithful(id: string, name: string)
    requires !Printable(id, name)
    ensures var t := Reference(id, name);
      Resolved(t, SILENT, Some(OnlyRecord(id, name, t + "!"))) != Ok(Str(t + "!"))
  {
    var t := Reference(id, name);
    var ctx := Some(OnlyRecord(id, name, t + "!"));
    var spans := FindAll(t, 0);
    FoundSpansOk(t, 0);
    FoundAreBraceFree(t, 0);
    InOrder(t, 0);
    hide FindAll, Evaluate, ExprOf, Reference, BraceFree;
    forall i | 0 <= i < |spans|
      ensures Silent(Evaluate(ExprOf(t, spans[i]), SILENT, ctx))
    {
      SpanIsSilent(id, name, t + "!", spans, i);
    }
    if spans != [] && spans != [Span(0, |t|)] {
      SilentPieces(t, 0, spans, SILENT, ctx);
    }
  }

  /** A reference is faithful exactly when the id has no dot and no closing brace, and the name has no
      closing brace and does not end in white space. */
  lemma FaithfulIffPrintable(id: string, name: string)
    ensures Faithful(id, name) <==> Printable(id, name)
  {
    hide Resolved;
    if Printable(id, name) {
      forall host, ctx: Context | ctx.steps.Some?
        ensures Resolved(Reference(id, name), host, Some(ctx)) == Ok(Str(StepOutput(ctx.steps.value, id, name)))
      {
        PrintableIsFaithful(id, name, host, ctx);
      }
    } else {
      var value := Reference(id, name) + "!";
      UnprintableIsUnfaithful(id, name);
      assert StepOutput(OnlyRecord(id, name, value).steps.value, id, name) == value;
    }
  }

  // ---- Through the runner ----

  /** The id given to a step without one can be used in references. */
  lemma GivenIdIsFaithful(step: Runner.Step, i: nat, name: string)
    requires step.id == "" && '}' !in name && (name != "" ==> !IsSpace(name[|name| - 1]))
    ensures Faithful(Runner.StepId(step, i), name)
  {
    hide Faithful, IsSpace;
    Runner.DecimalReads(i + 1);
    FaithfulIffPrintable(Runner.StepId(step, i), name);
    hide Runner.Decimal, Runner.DecimalValue;
  }

  /** A step that ran as number j, and whose id no later step before i reuses, is read by step i
      through a printed reference: the value is the one step j recorded. */
  lemma ReferenceReadsRecord(steps: seq<Runner.Step>, w: Runner.World, start: Runner.Outputs, j: nat, i: nat, name: string)
    requires j < i <= |steps| && Runner.Runs(steps[j], w, Runner.OutputsBefore(steps, w, start, j))
    requires Printable(Runner.StepId(steps[j], j), name)
    requires forall k :: j < k < i ==>
               Runner.Runs(steps[k], w, Runner.OutputsBefore(steps, w, start, k)) ==>
               Runner.StepId(steps[k], k) != Runner.StepId(steps[j], j)
    ensures var outputs := w.play(j, steps[j].action,
                Runner.ResolvedParams(steps[j].params, w, Runner.OutputsBefore(steps, w, start, j)).value).outputs;
      Tree(Str(Reference(Runner.StepId(steps[j], j), name)), w.host,
           Runner.ContextWith(w, Runner.OutputsBefore(steps, w, start, i)))
        == Some(Str(if name in outputs then outputs[name] else ""))
  {
    var id := Runner.StepId(steps[j], j);
    Runner.LatestRecordWins(steps, w, start, j, i);
    PrintableIsFaithful(id, name, w.host, Runner.ContextWith(w, Runner.OutputsBefore(steps, w, start, i)).value);
    hide Resolved, Runner.OutputsBefore, Runner.Runs, Runner.ResolvedParams, Runner.StepId;
  }

  /** And so it arrives in the parameters the step runs with, under whatever key it was written. */
  lemma ParamReadsRecord(steps: seq<Runner.Step>, w: Runner.World, start: Runner.Outputs, j: nat, i: nat, name: string,
                         key: string)
    requires j < i < |steps| && Runner.Runs(steps[j], w, Runner.OutputsBefore(steps, w, start, j))
    requires Printable(Runner.StepId(steps[j], j), name)
    requires forall k :: j < k < i ==>
               Runner.Runs(steps[k], w, Runner.OutputsBefore(steps, w, start, k)) ==>
               Runner.StepId(steps[k], k) != Runner.StepId(steps[j], j)
    requires steps[i].params.Some? && key in steps[i].params.value
    requires steps[i].params.value[key] == Str(Reference(Runner.StepId(steps[j], j), name))
    requires Runner.Runs(steps[i], w, Runner.OutputsBefore(steps, w, start, i))
    ensures var outputs := w.play(j, steps[j].action,
                Runner.ResolvedParams(steps[j].params, w, Runner.OutputsBefore(steps, w, start, j)).value).outputs;
      var p := Runner.ResolvedParams(steps[i].params, w, Runner.OutputsBefore(steps, w, start, i)).value;
      p.Some? && key in p.value && p.value[key] == Str(if name in outputs then outputs[name] else "")
  {
    ReferenceReadsRecord(steps, w, start, j, i, name);
    var ctx := Runner.ContextWith(w, Runner.OutputsBefore(steps, w, start, i));
    ParamIsResolved(steps[i].params.value, w, Runner.OutputsBefore(steps, w, start, i), key,
                    Reference(Runner.StepId(steps[j], j), name));
    hide Resolved, Tree, Runner.OutputsBefore, Runner.ResolvedParams, Runner.StepId, Reference, Printable;
    LeafOf(Reference(Runner.StepId(steps[j], j), name), w.host, ctx);
  }

  lemma LeafOf(text: string, host: Host, ctx: Option<Context>)
    ensures Resolved(text, host, ctx).Ok? ==> Tree(Str(text), host, ctx) == Some(Resolved(text, host, ctx).value)
  {
    hide Resolved;
  }

  lemma ParamIsResolved(params: map<string, Value>, w: Runner.World, outs: Runner.Outputs, key: string, text: string)
    requires key in params && params[key] == Str(text) && Runner.ResolvedParams(Some(params), w, outs).Some?
    ensures var p := Runner.ResolvedParams(Some(params), w, outs).value;
      p.Some? && key in p.value && Resolved(text, w.host, Runner.ContextWith(w, outs)) == Ok(p.value[key])
  {
    TypeIsKept(Obj(params), w.host, Runner.ContextWith(w, outs), text);
    hide Resolved;
  }

  /** Steps see the test's own directories. */
  lemma StepsSeeDirs(params: map<string, Value>, w: Runner.World, outs: Runner.Outputs, a: string, b: string)
    requires a in params && params[a] == Str("${{ test.dir }}") && b in params && params[b] == Str("${{ output.dir }}")
    requires Runner.ResolvedParams(Some(params), w, outs).Some?
    ensures var p := Runner.ResolvedParams(Some(params), w, outs).value;
      && p.Some? && a in p.value && b in p.value
      && w.testDir != "" && w.outDir != "" && p.value[a] == Str(w.testDir) && p.value[b] == Str(w.outDir)
  {
    ParamIsResolved(params, w, outs, a, "${{ test.dir }}");
    ParamIsResolved(params, w, outs, b, "${{ output.dir }}");
    TestDirResolves(w.host, Runner.ContextWith(w, outs));
    OutputDirResolves(w.host, Runner.ContextWith(w, outs));
    hide Resolved, Runner.ResolvedParams;
  }
}
