/** Patchers bind a `PatchField` to a live target, and a `PatchMap` collects
    patchers under string labels and checks or applies them together. */
module PatchSet {
  import opened Errors
  import opened Optional
  import opened Patch

  /** A patcher bound to a plain field. `applied` is meant to memoise a successful
      apply, but no operation of the source ever sets it. */
  class ValuePatcher<T(==)> {
    var applied: bool
    const target: Ref<T>
    const patch: PatchField<T>

    constructor (target: Ref<T>, patch: PatchField<T>)
      ensures !applied && this.target == target && this.patch == patch
    {
      applied := false;
      this.target := target;
      this.patch := patch;
    }

    /** Reads the target afresh on every call and changes nothing. */
    function IsNoop(): (r: bool)
      reads this, target
      ensures applied ==> r
      // a patcher that reports no-op would leave its target as it is
      ensures r && !applied ==> patch.ApplyTo(target.value).after == target.value
      ensures !applied && KnownAction(patch.action) && patch.ApplyTo(target.value) == Step(target.value, Pass) ==> r
    {
      if applied then true else patch.IsNoop(target.value)
    }

    /** The source's Apply: delegates to the patch unless `applied`, and leaves the flag alone. */
    method Apply() returns (err: Outcome)
      modifies target
      ensures applied == old(applied)
      ensures old(applied) ==> err == Pass && target.value == old(target.value)
      ensures !old(applied) ==> Step(target.value, err) == patch.ApplyTo(old(target.value))
      ensures err.Pass? && KnownAction(patch.action) ==> IsNoop()
    {
      if applied {
        return Pass;
      } else {
        err := patch.Apply(target);
        ApplyIsIdempotent(patch, old(target.value));
      }
    }

    /** Apply as intended: a successful apply sets `applied`, so a later call
        neither touches the target nor fails. */
    method ApplyOnce() returns (err: Outcome)
      modifies this, target
      ensures old(applied) ==> err == Pass && applied && target.value == old(target.value)
      ensures !old(applied) ==> Step(target.value, err) == patch.ApplyTo(old(target.value))
      ensures !old(applied) ==> applied == err.Pass?
    {
      if applied {
        return Pass;
      } else {
        err := patch.Apply(target);
        applied := err.Pass?;
      }
    }
  }

  /** A patcher bound to an optional field. */
  class OptionalPatcher<T(==)> {
    var applied: bool
    const target: OptionalCell<T>
    const patch: PatchField<T>

    constructor (target: OptionalCell<T>, patch: PatchField<T>)
      ensures !applied && this.target == target && this.patch == patch
    {
      applied := false;
      this.target := target;
      this.patch := patch;
    }

    /** Reads the target afresh on every call and changes nothing. */
    function IsNoop(): (r: bool)
      reads this, target
      ensures applied ==> r
      // for the known actions: no-op exactly when applying would change nothing
      ensures !applied && KnownAction(patch.action) ==> (r <==> patch.ApplyOptionTo(target.value) == target.value)
      ensures !KnownAction(patch.action) ==> (r <==> applied)
    {
      if applied then true else patch.IsNoopOption(target.value)
    }

    /** The source's Apply: delegates to the patch unless `applied`, and leaves the flag alone. */
    method Apply() returns (err: Outcome)
      modifies target
      ensures applied == old(applied)
      ensures err == Pass
      ensures old(applied) ==> target.value == old(target.value)
      ensures !old(applied) ==> target.value == patch.ApplyOptionTo(old(target.value))
      ensures KnownAction(patch.action) ==> IsNoop()
    {
      if applied {
        return Pass;
      } else {
        err := patch.ApplyOption(target);
        ApplyOptionIsIdempotent(patch, old(target.value));
      }
    }

    /** Apply as intended: the first call sets `applied`, so a later call leaves the target alone. */
    method ApplyOnce() returns (err: Outcome)
      modifies this, target
      ensures err == Pass && applied
      ensures old(applied) ==> target.value == old(target.value)
      ensures !old(applied) ==> target.value == patch.ApplyOptionTo(old(target.value))
    {
      if applied {
        return Pass;
      } else {
        err := patch.ApplyOption(target);
        applied := true;
      }
    }
  }

  /** The value a patcher's target holds. */
  datatype Snapshot<T(==)> = PlainValue(v: T) | OptionalValue(o: Option<T>)

  /** The Go `Patcher` interface, closed over its two implementations. */
  datatype Patcher<T(==)> = ValueP(vp: ValuePatcher<T>) | OptionalP(op: OptionalPatcher<T>) {

    function Handle(): object {
      match this
      case ValueP(vp) => vp
      case OptionalP(op) => op
    }

    function Target(): object {
      match this
      case ValueP(vp) => vp.target
      case OptionalP(op) => op.target
    }

    function Footprint(): set<object> {
      {Handle(), Target()}
    }

    function Field(): PatchField<T> {
      match this
      case ValueP(vp) => vp.patch
      case OptionalP(op) => op.patch
    }

    function Applied(): bool
      reads Handle()
    {
      match this
      case ValueP(vp) => vp.applied
      case OptionalP(op) => op.applied
    }

    ghost function State(): Snapshot<T>
      reads Target()
    {
      match this
      case ValueP(vp) => PlainValue(vp.target.value)
      case OptionalP(op) => OptionalValue(op.target.value)
    }

    /** What `Apply` does to a target holding `s` when the flag is `applied`: the
        target's new value and the result. */
    ghost function StepFrom(applied: bool, s: Snapshot<T>): Step<Snapshot<T>>
    {
      if applied then Step(s, Pass)
      else if ValueP? && s.PlainValue? then
        var r := vp.patch.ApplyTo(s.v); Step(PlainValue(r.after), r.err)
      else if OptionalP? && s.OptionalValue? then
        Step(OptionalValue(op.patch.ApplyOptionTo(s.o)), Pass)
      else Step(s, Pass) // a snapshot of the other kind is never this patcher's
    }

    /** A patcher object is never a target: the two have different classes. */
    lemma HandleIsNotTarget(other: Patcher<T>)
      ensures Handle() != other.Target()
    {
    }

    function IsNoop(): (r: bool)
      reads Footprint()
      // a patcher that reports no-op would leave its target as it is (a removal on
      // a plain field fails without changing it)
      ensures r ==> StepFrom(Applied(), State()).after == State()
    {
      match this
      case ValueP(vp) => vp.IsNoop()
      case OptionalP(op) => op.IsNoop()
    }

    method Apply() returns (err: Outcome)
      modifies Target()
      ensures Step(State(), err) == StepFrom(Applied(), old(State()))
      ensures err.Pass? && KnownAction(Field().action) ==> IsNoop()
    {
      match this
      case ValueP(vp) => err := vp.Apply();
      case OptionalP(op) => err := op.Apply();
    }
  }

  /** A patcher whose target has taken a successful step from `before` reports
      no-op afterwards, when its patch carries a known action. */
  lemma NoopAfterStep<T>(p: Patcher<T>, before: Snapshot<T>)
    requires p.StepFrom(p.Applied(), before) == Step(p.State(), Pass)
    requires KnownAction(p.Field().action)
    ensures p.IsNoop()
  {
    match p
    case ValueP(vp) =>
      if !vp.applied {
        ApplyIsIdempotent(vp.patch, before.v);
      }
    case OptionalP(op) =>
      if !op.applied {
        ApplyOptionIsIdempotent(op.patch, before.o);
      }
  }

  /** A label-keyed collection of patchers. Iterating over it visits the labels in
      no particular order. */
  class PatchMap<T(==)> {
    var patchMap: map<string, Patcher<T>>

    constructor ()
      ensures patchMap == map[]
    {
      patchMap := map[];
    }

    ghost function Targets(): set<object>
      reads this
    {
      set l | l in patchMap :: patchMap[l].Target()
    }

    ghost function Handles(): set<object>
      reads this
    {
      set l | l in patchMap :: patchMap[l].Handle()
    }

    /** No two labels share a target: then the patchers cannot interfere. */
    ghost predicate Separated()
      reads this
    {
      forall l, m :: l in patchMap && m in patchMap && l != m ==> patchMap[l].Target() != patchMap[m].Target()
    }

    /** Every stored patch carries one of the three known actions. */
    ghost predicate WellFormed()
      reads this
    {
      forall l :: l in patchMap ==> KnownAction(patchMap[l].Field().action)
    }

    ghost predicate AllNoop()
      reads this, Handles(), Targets()
    {
      forall l :: l in patchMap ==> patchMap[l].IsNoop()
    }

    method Append(key: string, patch: Patcher<T>) returns (err: Outcome)
      modifies this
      ensures key in old(patchMap) ==> err == Fail(DuplicateLabel(key)) && patchMap == old(patchMap)
      ensures key !in old(patchMap) ==> err == Pass && patchMap == old(patchMap)[key := patch]
    {
      if key in patchMap {
        return Fail(DuplicateLabel(key));
      }
      patchMap := patchMap[key := patch];
      return Pass;
    }

    function GetPatchPair(key: AnyLabel): (r: Option<Patcher<T>>)
      reads this
      ensures r.Some? <==> key.StringLabel? && key.s in patchMap
      ensures r.Some? ==> r.value == patchMap[key.s]
    {
      match key
      case OtherLabel => None
      case StringLabel(s) => if s in patchMap then Some(patchMap[s]) else None
    }

    /** The source's IsNoop(key): the test of the lookup's error is inverted, so a
        present label reports "not found", and an absent one calls a method on a
        nil Patcher (a Go panic, here the NilPatcherCall failure). */
    method IsNoop(key: AnyLabel) returns (noop: bool, err: Outcome)
      ensures GetPatchPair(key).Some? ==> !noop && err == Fail(NotFound(key))
      ensures GetPatchPair(key).None? ==> err == Fail(NilPatcherCall)
    {
      var opt := GetPatchPair(key);
      var p := opt.Unwrap();
      if p.Err? {
        return false, Fail(NilPatcherCall);
      }
      return false, Fail(NotFound(key));
    }

    /** The source's Apply(key), with the same inverted test as IsNoop(key):
        it never reaches a patcher. */
    method Apply(key: AnyLabel) returns (err: Outcome)
      ensures GetPatchPair(key).Some? ==> err == Fail(NotFound(key))
      ensures GetPatchPair(key).None? ==> err == Fail(NilPatcherCall)
    {
      var opt := GetPatchPair(key);
      var p := opt.Unwrap();
      if p.Err? {
        return Fail(NilPatcherCall);
      }
      return Fail(NotFound(key));
    }

    /** IsNoop(key) as intended: asks the stored patcher, or reports a missing label. */
    method CheckedIsNoop(key: AnyLabel) returns (noop: bool, err: Outcome)
      ensures GetPatchPair(key).None? ==> !noop && err == Fail(NotFound(key))
      ensures GetPatchPair(key).Some? ==> err == Pass && noop == GetPatchPair(key).value.IsNoop()
    {
      var opt := GetPatchPair(key);
      var p := opt.Unwrap();
      if p.Err? {
        return false, Fail(NotFound(key));
      }
      return p.value.IsNoop(), Pass;
    }

    /** Apply(key) as intended: applies the stored patcher, or reports a missing label. */
    method CheckedApply(key: AnyLabel) returns (err: Outcome)
      modifies Targets()
      ensures GetPatchPair(key).None? ==> err == Fail(NotFound(key)) && unchanged(Targets())
      ensures GetPatchPair(key).Some? ==>
        var p := GetPatchPair(key).value;
        Step(p.State(), err) == p.StepFrom(p.Applied(), old(p.State())) &&
        forall o :: o in Targets() && o != p.Target() ==> unchanged(o)
    {
      var opt := GetPatchPair(key);
      var p := opt.Unwrap();
      if p.Err? {
        return Fail(NotFound(key));
      }
      err := p.value.Apply();
    }

    /** True exactly when every stored patcher reports no-op; stops at the first that does not. */
    method IsAllNoop() returns (r: bool)
      ensures r == AllNoop()
    {
      var remaining := patchMap.Keys;
      while remaining != {}
        invariant remaining <= patchMap.Keys
        invariant forall l :: l in patchMap && l !in remaining ==> patchMap[l].IsNoop()
        decreases remaining
      {
        var l :| l in remaining;
        if !patchMap[l].IsNoop() {
          return false;
        }
        remaining := remaining - {l};
      }
      return true;
    }

    /** One step of ApplyAll: applies one stored patcher, touching only its target.
        It exposes only the step `Patcher.Apply` takes and not its no-op clause,
        which keeps the proof obligation of each loop iteration of ApplyAll small;
        the no-op facts are established once, after the loop, by NoopAfterStep. */
    static method ApplyEntry(p: Patcher<T>) returns (e: Outcome)
      modifies p.Target()
      ensures Step(p.State(), e) == p.StepFrom(p.Applied(), old(p.State()))
    {
      e := p.Apply();
    }

    /** Applies every stored patcher, in no particular order, and stops at the first
        failure, reporting its label; earlier applications are not undone. `done`
        holds the labels applied successfully. */
    method ApplyAll() returns (err: Outcome, ghost done: set<string>)
      modifies Targets()
      ensures done <= patchMap.Keys
      ensures err.Pass? ==> done == patchMap.Keys
      ensures err.Fail? ==> err.error.FailedEntry? && err.error.entry in patchMap && err.error.entry !in done
      ensures Separated() ==> forall l :: l in patchMap ==>
        var p := patchMap[l];
        if l in done then p.StepFrom(p.Applied(), old(p.State())) == Step(p.State(), Pass)
        else p.State() == old(p.State())
      ensures Separated() && err.Fail? ==>
        var p := patchMap[err.error.entry]; p.StepFrom(p.Applied(), old(p.State())).err.Fail?
      ensures Separated() && WellFormed() && err.Pass? ==> AllNoop()
    {
      done := {};
      var remaining := patchMap.Keys;
      var failed: Option<string> := None;
      while remaining != {} && failed.None?
        invariant done <= patchMap.Keys && remaining == patchMap.Keys - done
        invariant failed.Some? ==> failed.value in remaining
        invariant Separated() ==> forall l :: l in patchMap ==>
          var p := patchMap[l];
          if l in done then p.StepFrom(p.Applied(), old(p.State())) == Step(p.State(), Pass)
          else p.State() == old(p.State())
        invariant Separated() && failed.Some? ==>
          var p := patchMap[failed.value]; p.StepFrom(p.Applied(), old(p.State())).err.Fail?
        decreases remaining, failed.None?
      {
        var key :| key in remaining;
        var p := patchMap[key];
        label Before:
        var e := ApplyEntry(p);
        if Separated() {
          forall l | l in patchMap && l != key
            ensures unchanged@Before(patchMap[l].Footprint())
          {
            assert patchMap[l].Target() != p.Target();
            patchMap[l].HandleIsNotTarget(p);
          }
        }
        if e.Fail? {
          failed := Some(key);
        } else {
          done := done + {key};
          remaining := remaining - {key};
        }
      }
      if failed.Some? {
        return Fail(FailedEntry(failed.value)), done;
      }
      if Separated() && WellFormed() {
        forall l | l in patchMap
          ensures patchMap[l].IsNoop()
        {
          NoopAfterStep(patchMap[l], old(patchMap[l].State()));
        }
      }
      return Pass, done;
    }
  }
}
