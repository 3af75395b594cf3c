/** The outputs an action records while it runs, and the copy the runner keeps
    (internal/action/step_context.go). The action may outlive its step: after a panic or a cancel the
    runner does not wait for it. */
module StepContexts {

  /** A Go map: a reference, so that sharing one would let a late writer change what was recorded. */
  class GoMap {
    var entries: map<string, string>

    constructor ()
      ensures entries == map[]
    {
      entries := map[];
    }
  }

  class StepContext {
    var outputs: GoMap?

    constructor ()
      ensures outputs == null
    {
      outputs := null;
    }

    function Recorded(): map<string, string>
      reads this, outputs
    {
      if outputs == null then map[] else outputs.entries
    }

    method SetOutput(name: string, value: string)
      modifies this, outputs
      ensures Recorded() == old(Recorded())[name := value]
      ensures outputs != null && (old(outputs) == null ==> fresh(outputs)) && (old(outputs) != null ==> outputs == old(outputs))
    {
      if outputs == null {
        outputs := new GoMap();
      }
      outputs.entries := outputs.entries[name := value];
    }

    /** A copy made entry by entry, in whatever order the map yields them. */
    method Outputs() returns (result: GoMap)
      ensures fresh(result) && result.entries == Recorded()
    {
      result := new GoMap();
      var todo := Recorded().Keys;
      while todo != {}
        invariant fresh(result)
        invariant todo <= Recorded().Keys && result.entries.Keys == Recorded().Keys - todo
        invariant forall k | k in result.entries :: result.entries[k] == Recorded()[k]
        decreases todo
      {
        var k :| k in todo;
        result.entries := result.entries[k := Recorded()[k]];
        todo := todo - {k};
      }
      assert result.entries == Recorded();
    }
  }

  /** Writes applied in order. */
  function Applied(m: map<string, string>, writes: seq<(string, string)>): map<string, string> {
    if writes == [] then m
    else Applied(m, writes[..|writes| - 1])[writes[|writes| - 1].0 := writes[|writes| - 1].1]
  }

  /** An action writes some outputs, the runner takes its snapshot, and the abandoned action goes on
      writing: the snapshot keeps exactly what was written before it was taken. */
  method SnapshotIsFinal(sctx: StepContext, early: seq<(string, string)>, late: seq<(string, string)>)
    returns (recorded: GoMap)
    requires sctx.outputs == null
    modifies sctx
    ensures recorded.entries == Applied(map[], early)
    ensures sctx.Recorded() == Applied(Applied(map[], early), late)
  {
    WriteAll(sctx, early);
    recorded := sctx.Outputs();
    WriteAll(sctx, late);
  }

  method WriteAll(sctx: StepContext, writes: seq<(string, string)>)
    modifies sctx, sctx.outputs
    ensures sctx.Recorded() == Applied(old(sctx.Recorded()), writes)
    ensures sctx.outputs != old(sctx.outputs) ==> old(sctx.outputs) == null && fresh(sctx.outputs)
  {
    for i := 0 to |writes|
      invariant sctx.Recorded() == Applied(old(sctx.Recorded()), writes[..i])
      invariant sctx.outputs != old(sctx.outputs) ==> old(sctx.outputs) == null && sctx.outputs != null && fresh(sctx.outputs)
    {
      assert writes[..i + 1][..i] == writes[..i];
      sctx.SetOutput(writes[i].0, writes[i].1);
    }
    assert writes[..|writes|] == writes;
  }
}
