/** Field-level patches: a `PatchField` pairs an action with an optional carried
    value and knows whether it would change a plain or an optional field, and how
    to apply itself to one. */
module Patch {
  import opened Errors
  import opened Optional

  /** Go declares `PatchAction` as an `int` enumerated with `iota`; any other
      integer is a value the type admits and the code treats as unknown. */
  type PatchAction = int

  const Noop: PatchAction := 0
  const Remove: PatchAction := 1
  const Replace: PatchAction := 2

  predicate KnownAction(a: PatchAction) {
    a == Noop || a == Remove || a == Replace
  }

  /** A Go pointer `*T` to a plain field. */
  class Ref<T> {
    var value: T

    constructor (init: T)
      ensures value == init
    {
      value := init;
    }
  }

  /** What applying a patch does to a target: its new value and the error result. */
  datatype Step<S> = Step(after: S, err: Outcome)

  datatype PatchField<T(==)> = PatchField(action: PatchAction, value: Option<T>) {

    /** The patch's action; with `Peek` it determines the patch. */
    function Action(): (r: PatchAction)
      ensures PatchField(r, Peek()) == this
    {
      action
    }

    /** A copy of the carried option (Go returns a pointer to the receiver's copy,
        so the caller cannot alter the patch through it); with `Action` it
        determines the patch. */
    function Peek(): (r: Option<T>)
      ensures PatchField(action, r) == this
    {
      value
    }

    /** The effect of `Apply` on a plain field holding `current`. */
    function ApplyTo(current: T): (r: Step<T>)
      // a failed apply leaves the field as it was
      ensures r.err.Fail? ==> r.after == current
      ensures r.err == Fail(UnsupportedRemove) <==> action == Remove
      ensures r.err == Fail(NilReplace) <==> action == Replace && value.None?
      ensures r.err.Pass? <==> action != Remove && !(action == Replace && value.None?)
      // a successful Replace leaves the carried value; anything else leaves the field alone
      ensures r.err.Pass? && action == Replace ==> value == Some(r.after)
      ensures action != Replace ==> r.after == current
    {
      if action == Remove then
        Step(current, Fail(UnsupportedRemove))
      else if action == Replace then
        if value.Matches(current) then Step(current, Pass)
        else if value.IsSome() then Step(value.value, Pass)
        else Step(current, Fail(NilReplace))
      else
        Step(current, Pass)
    }

    /** The effect of `ApplyOption` on an optional field holding `current`. */
    function ApplyOptionTo(current: Option<T>): (r: Option<T>)
      ensures action == Remove ==> r == None
      ensures action == Replace ==> r == value
      ensures !KnownAction(action) || action == Noop ==> r == current
    {
      if current.IsNone() && action == Remove then
        current
      else if current.IsNone() && action == Replace then
        if value.IsNone() then current else Some(value.value)
      else if action == Remove then
        None
      else if action == Replace then
        match value.Unwrap()
        case Err(_) => None
        case Ok(v) => Some(v)
      else
        current
    }

    /** Whether the patch is already satisfied by a plain field holding `current`:
        applying it would succeed and change nothing, except that a removal,
        meaningless on a plain field, counts as satisfied; unknown actions never do. */
    function IsNoop(current: T): (r: bool)
      ensures r <==> KnownAction(action) && (action == Remove || ApplyTo(current) == Step(current, Pass))
      ensures r ==> ApplyTo(current).after == current
    {
      if action == Remove then true
      else if action == Replace then value.Matches(current)
      else if action == Noop then true
      else false
    }

    /** Whether the patch is already satisfied by an optional field holding
        `current`: for the three known actions, exactly when applying it changes nothing. */
    function IsNoopOption(current: Option<T>): (r: bool)
      ensures r <==> KnownAction(action) && ApplyOptionTo(current) == current
    {
      if action == Remove then
        if current.IsSome() then false else true
      else if action == Replace then
        value.Eq(current)
      else if action == Noop then
        true
      else
        false
    }

    /** Applies the patch to the plain field `operand` points to. */
    method Apply(operand: Ref<T>) returns (err: Outcome)
      modifies operand
      ensures Step(operand.value, err) == ApplyTo(old(operand.value))
    {
      if action == Remove {
        return Fail(UnsupportedRemove);
      } else if action == Replace {
        if value.Matches(operand.value) {
          return Pass;
        } else if value.IsSome() {
          operand.value := value.value;
          return Pass;
        } else {
          return Fail(NilReplace);
        }
      }
      return Pass;
    }

    /** Applies the patch to the optional field `current` points to; it never fails. */
    method ApplyOption(current: OptionalCell<T>) returns (err: Outcome)
      modifies current
      ensures err == Pass
      ensures current.value == ApplyOptionTo(old(current.value))
    {
      if current.value.IsNone() {
        if action == Remove {
          return Pass;
        } else if action == Replace {
          if value.IsNone() {
            return Pass;
          } else {
            current.Set(value.value);
            return Pass;
          }
        }
      }
      if action == Remove {
        current.Clear();
        return Pass;
      } else if action == Replace {
        var tmp := value.Unwrap();
        if tmp.Err? {
          current.Clear();
          return Pass;
        } else {
          current.Set(tmp.value);
          return Pass;
        }
      }
      return Pass;
    }
  }

  function NewNoop<T(==)>(): (p: PatchField<T>)
    ensures p.Action() == Noop && p.Peek() == None
  {
    PatchField(Noop, None)
  }

  function NewRemoval<T(==)>(): (p: PatchField<T>)
    ensures p.Action() == Remove && p.Peek() == None
  {
    PatchField(Remove, None)
  }

  function NewReplace<T(==)>(v: T): (p: PatchField<T>)
    ensures p.Action() == Replace && p.Peek() == Some(v)
  {
    PatchField(Replace, Some(v))
  }

  /** A no-op patch is satisfied by every field and applying it changes nothing. */
  lemma NoopChangesNothing<T>(x: T, o: Option<T>)
    ensures NewNoop<T>().IsNoop(x) && NewNoop<T>().ApplyTo(x) == Step(x, Pass)
    ensures NewNoop<T>().IsNoopOption(o) && NewNoop<T>().ApplyOptionTo(o) == o
  {
  }

  /** A removal is vacuously satisfied by a plain field yet applying it there fails;
      on an optional field it clears, and is satisfied exactly by an empty field. */
  lemma RemovalSemantics<T>(x: T, o: Option<T>)
    ensures NewRemoval<T>().IsNoop(x)
    ensures NewRemoval<T>().ApplyTo(x) == Step(x, Fail(UnsupportedRemove))
    ensures NewRemoval<T>().ApplyOptionTo(o) == None
    ensures NewRemoval<T>().IsNoopOption(o) <==> o == None
  {
  }

  /** A replacement by `v` is satisfied exactly by a field already holding `v`,
      and applying it always succeeds and leaves `v`. */
  lemma ReplaceSemantics<T>(v: T, x: T, o: Option<T>)
    ensures NewReplace(v).IsNoop(x) <==> x == v
    ensures NewReplace(v).ApplyTo(x) == Step(v, Pass)
    ensures NewReplace(v).IsNoopOption(o) <==> o == Some(v)
    ensures NewReplace(v).ApplyOptionTo(o) == Some(v)
  {
  }

  /** The patch that turns a plain field holding `original` into one holding `updated`. */
  function GetFieldPatch<T(==)>(original: T, updated: T): (p: PatchField<T>)
    ensures p.Action() == (if original == updated then Noop else Replace)
    ensures p.ApplyTo(original) == Step(updated, Pass)
    ensures p.IsNoop(original) <==> original == updated
    ensures p.IsNoop(updated)
  {
    if original == updated then NewNoop() else NewReplace(updated)
  }

  /** A successful apply to a plain field reaches a state the patch reports as
      satisfied (for the three known actions), and applying again changes nothing. */
  lemma ApplyIsIdempotent<T>(p: PatchField<T>, x: T)
    ensures var s := p.ApplyTo(x);
      s.err.Pass? ==> p.ApplyTo(s.after) == s && (KnownAction(p.action) ==> p.IsNoop(s.after))
  {
  }

  /** Applying to an optional field reaches a state the patch reports as satisfied
      (for the three known actions), and applying again changes nothing. */
  lemma ApplyOptionIsIdempotent<T>(p: PatchField<T>, o: Option<T>)
    ensures p.ApplyOptionTo(p.ApplyOptionTo(o)) == p.ApplyOptionTo(o)
    ensures KnownAction(p.action) ==> p.IsNoopOption(p.ApplyOptionTo(o))
  {
  }
}
