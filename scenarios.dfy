/** The repository's own test scenarios, stated as proved facts, and the
    scenarios that exhibit the two defects of the patcher code beside their
    corrected counterparts. */
module Scenarios {
  import opened Errors
  import opened Optional
  import opened Patch
  import opened PatchSet

  /** The values the heterogeneous test map holds: Go stores string and int
      patchers side by side behind the `Patcher` interface. */
  datatype Scalar = Str(s: string) | Int(i: int)

  /** The no-op verdicts of the patch tests, on plain and optional fields. */
  lemma PatchNoopScenario()
    ensures var p1, p2, p3, p4 := NewNoop<string>(), NewReplace("original"), NewRemoval<string>(), NewReplace("changed");
      p1.IsNoop("original") && p2.IsNoop("original") && !p2.IsNoop("changed") &&
      p3.IsNoop("original") && !p4.IsNoop("original") &&
      p1.IsNoopOption(Some("original")) && p2.IsNoopOption(Some("original")) &&
      !p2.IsNoopOption(Some("changed")) && !p3.IsNoopOption(Some("original")) &&
      !p4.IsNoopOption(Some("original")) &&
      p1.IsNoopOption(None) && !p2.IsNoopOption(None) && p3.IsNoopOption(None)
  {
    RemovalSemantics<string>("original", Some("original"));
    RemovalSemantics<string>("original", None);
  }

  /** The apply test: a no-op leaves the field, a removal fails on it and leaves
      it, a replacement installs its value. */
  method PatchApplyScenario() returns (e1: Outcome, v1: string, e2: Outcome, v2: string, e3: Outcome, v3: string)
    ensures e1 == Pass && v1 == "original"
    ensures e2 == Fail(UnsupportedRemove) && v2 == "original"
    ensures e3 == Pass && v3 == "changed"
  {
    var tester := new Ref("original");
    e1 := NewNoop<string>().Apply(tester);
    v1 := tester.value;
    e2 := NewRemoval<string>().Apply(tester);
    v2 := tester.value;
    e3 := NewReplace("changed").Apply(tester);
    v3 := tester.value;
  }

  /** Diffing two different values yields a replacement that is not yet satisfied
      by the old value and turns it into the new one. */
  lemma FieldPatchDiffScenario()
    ensures var p := GetFieldPatch("original", "changed");
      p.Action() == Replace && p.Peek() == Some("changed") &&
      !p.IsNoop("original") && p.IsNoop("changed") &&
      p.ApplyTo("original") == Step("changed", Pass)
  {
    assert "original"[0] != "changed"[0];
  }

  /** The patch-set test: three patchers already satisfied by their targets are
      appended under distinct labels, and the map reports all of them as no-op. */
  method PatchSetScenario() returns (e1: Outcome, e2: Outcome, e3: Outcome, allNoop: bool)
    ensures e1 == Pass && e2 == Pass && e3 == Pass
    ensures allNoop
  {
    var thing1 := new Ref<Scalar>(Str("dog"));
    var thing2 := new OptionalCell<Scalar>(Some(Str("dog")));
    var thing3 := new OptionalCell<Scalar>(None);

    var pp1 := new ValuePatcher(thing1, NewReplace(Str("dog")));
    var pp2 := new OptionalPatcher(thing2, NewReplace(Str("dog")));
    var pp3 := new OptionalPatcher(thing3, NewRemoval<Scalar>());

    var pm := new PatchMap<Scalar>();
    e1 := pm.Append("dog", ValueP(pp1));
    e2 := pm.Append("dogopt", OptionalP(pp2));
    e3 := pm.Append("intNone", OptionalP(pp3));
    allNoop := pm.IsAllNoop();
  }

  /** As written, a patcher forgets that it has applied: after an outside write
      to its target, applying it again overwrites that write, and `applied`
      stays false throughout. */
  method ReapplyAfterExternalEdit() returns (final: string, applied: bool)
    ensures final == "changed" && !applied
  {
    var target := new Ref("original");
    var vp := new ValuePatcher(target, NewReplace("changed"));
    var _ := vp.Apply();
    target.value := "edited";
    var _ := vp.Apply();
    final, applied := target.value, vp.applied;
  }

  /** With the flag set on success, the second apply leaves the outside write alone. */
  method ApplyOnceKeepsExternalEdit() returns (final: string, applied: bool)
    ensures final == "edited" && applied
  {
    var target := new Ref("original");
    var vp := new ValuePatcher(target, NewReplace("changed"));
    var _ := vp.ApplyOnce();
    target.value := "edited";
    var _ := vp.ApplyOnce();
    final, applied := target.value, vp.applied;
  }

  /** The same for an optional field: as written the patch is re-applied over an
      outside edit; with the flag set it is not. */
  method OptionalReapplyScenario() returns (asWritten: Option<string>, corrected: Option<string>)
    ensures asWritten == Some("changed") && corrected == Some("edited")
  {
    var t1 := new OptionalCell<string>(None);
    var op1 := new OptionalPatcher(t1, NewReplace("changed"));
    var _ := op1.Apply();
    t1.Set("edited");
    var _ := op1.Apply();
    asWritten := t1.value;

    var t2 := new OptionalCell<string>(None);
    var op2 := new OptionalPatcher(t2, NewReplace("changed"));
    var _ := op2.ApplyOnce();
    t2.Set("edited");
    var _ := op2.ApplyOnce();
    corrected := t2.value;
  }

  /** As written, looking up a label that is present reports it as not found;
      the corrected lookups reach the stored patcher. */
  method LookupOfPresentLabel()
    returns (noop: bool, noopErr: Outcome, applyErr: Outcome,
             checkedNoop: bool, checkedNoopErr: Outcome, checkedApplyErr: Outcome)
    ensures !noop && noopErr == Fail(NotFound(StringLabel("dog")))
    ensures applyErr == Fail(NotFound(StringLabel("dog")))
    ensures checkedNoop && checkedNoopErr == Pass && checkedApplyErr == Pass
  {
    var thing := new Ref("dog");
    var pm := new PatchMap<string>();
    var vp := new ValuePatcher(thing, NewReplace("dog"));
    var _ := pm.Append("dog", ValueP(vp));
    noop, noopErr := pm.IsNoop(StringLabel("dog"));
    applyErr := pm.Apply(StringLabel("dog"));
    checkedNoop, checkedNoopErr := pm.CheckedIsNoop(StringLabel("dog"));
    checkedApplyErr := pm.CheckedApply(StringLabel("dog"));
  }

  /** As written, a label that is absent makes the lookups call a nil patcher;
      the corrected lookups report it as not found. */
  method LookupOfAbsentLabel()
    returns (noopErr: Outcome, applyErr: Outcome, checkedNoopErr: Outcome, checkedApplyErr: Outcome)
    ensures noopErr == Fail(NilPatcherCall) && applyErr == Fail(NilPatcherCall)
    ensures checkedNoopErr == Fail(NotFound(StringLabel("cat")))
    ensures checkedApplyErr == Fail(NotFound(OtherLabel))
  {
    var pm := new PatchMap<string>();
    var _, e := pm.IsNoop(StringLabel("cat"));
    noopErr := e;
    applyErr := pm.Apply(StringLabel("cat"));
    var _, e2 := pm.CheckedIsNoop(StringLabel("cat"));
    checkedNoopErr := e2;
    checkedApplyErr := pm.CheckedApply(OtherLabel);
  }
}
