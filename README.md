# smartpatch, modelled in Dafny

smartpatch is a small Go library for describing changes to struct fields as
values and applying them later. A `PatchField` pairs an action (`Noop`,
`Remove`, `Replace`) with an optional carried value. It can say whether it is
already satisfied by a field ("is a no-op"), and it can apply itself to a plain
field through a pointer or to an optional field in place. A `ValuePatcher` or
`OptionalPatcher` binds a patch to one live target. A `PatchMap` collects
patchers under string labels and checks or applies all of them.

The model has five modules:

- `Errors`: the failures as tags.
- `Optional`: the optional-value library the code uses. It has an `Option`
  datatype and an `OptionalCell` class whose `Set` and `Clear` update in place.
- `Patch` (patch.go): `PatchField` as a datatype. The pure functions
  `ApplyTo`/`ApplyOptionTo` specify the imperative methods `Apply`/`ApplyOption`.
- `PatchSet` (set.go): the two patcher classes. There is a `Patcher` datatype
  for Go's `Patcher` interface, and a `PatchMap` class whose map field the
  methods reassign.
- `Scenarios`: the repository's tests as proved facts, and the exhibits for the
  findings below.

A Go pointer `*T` is a `Ref<T>` object. The loops of `IsAllNoop` and
`ApplyAll` pick the next label nondeterministically, so every property of `IsAllNoop` and `ApplyAll` holds for
any map iteration order.

The patchers assume that nothing else writes to their targets (set.go:33).
`ApplyAll`'s per-label results are therefore stated
under `Separated()`: no two labels share a target. Without that, aliased targets
make the outcome depend on the order.

## Model

| member | source | states |
|---|---|---|
| `Patch.NewNoop` | patch.go:83-85 | the result carries action `Noop` and no value |
| `Patch.NewRemoval` | patch.go:87-89 | the result carries action `Remove` and no value |
| `Patch.NewReplace` | patch.go:91-93 | the result carries action `Replace` and the given value |
| `Patch.PatchField.Action` | patch.go:101-103 | the action the patch carries; together with `Peek` it recovers the whole patch |
| `Patch.PatchField.Peek` | patch.go:95-99 | the option the patch carries, as a copy the caller cannot use to alter the patch; together with `Action` it recovers the whole patch |
| `Patch.PatchField.ApplyTo` | patch.go:134-153 | applying to a plain field fails with `UnsupportedRemove` exactly for `Remove`, and with `NilReplace` exactly for `Replace` without a value; a failure leaves the field alone; a successful `Replace` leaves the carried value; every other action leaves the field as it was |
| `Patch.PatchField.ApplyOptionTo` | patch.go:155-189 | applying to an optional field: `Remove` leaves it empty, `Replace` leaves exactly the carried option, `Noop` and unknown actions leave it alone |
| `Patch.PatchField.IsNoop` | patch.go:105-115 | a plain field satisfies the patch exactly when the action is known and is either `Remove` or applying would succeed without changing the field; a satisfied patch never changes the field |
| `Patch.PatchField.IsNoopOption` | patch.go:117-132 | an optional field satisfies the patch exactly when the action is known and applying would leave the field as it is |
| `Patch.PatchField.Apply` | patch.go:134-153 | the new field value and the error are exactly those `ApplyTo` predicts from the old value |
| `Patch.PatchField.ApplyOption` | patch.go:155-189 | never fails, and leaves the optional field holding what `ApplyOptionTo` predicts from the old value |
| `Patch.GetFieldPatch` | patch.go:42-48 | the diff of two values is `Noop` when they are equal and `Replace` otherwise; applying it to the old value succeeds and yields the new one; it is satisfied by the old value exactly when the two are equal, and always by the new value |
| `Patch.NoopChangesNothing` | patch.go:83-85 | a no-op patch is satisfied by every plain and optional field, and applying it changes nothing |
| `Patch.RemovalSemantics` | patch.go:105-107 | a removal is reported satisfied on any plain field, yet applying it there fails; on an optional field it clears, and is satisfied exactly by an empty field |
| `Patch.ReplaceSemantics` | patch.go:108-109 | a replacement by `v` is satisfied exactly by a field holding `v`, and applying it always succeeds and leaves `v`, on plain and optional fields |
| `Patch.ApplyIsIdempotent` | patch.go:134-153 | a successful apply to a plain field is idempotent, and for a known action the result satisfies the patch |
| `Patch.ApplyOptionIsIdempotent` | patch.go:155-189 | applying to an optional field is idempotent, and for a known action the result satisfies the patch |
| `PatchSet.ValuePatcher.constructor` | set.go:27-29 | a new patcher has not applied and holds the given target and patch |
| `PatchSet.ValuePatcher.IsNoop` | set.go:31-38 | an applied patcher is always a no-op; otherwise a no-op patcher would leave its target alone, and a known patch whose apply changes nothing makes it a no-op |
| `PatchSet.ValuePatcher.Apply` | set.go:40-46 | when applied, succeeds and changes nothing; otherwise the target takes the step `ApplyTo` predicts; the flag never changes; a successful known patch leaves the patcher a no-op |
| `PatchSet.ValuePatcher.ApplyOnce` | set.go:40-46 | the corrected apply: a successful first apply sets the flag, and once set, further calls succeed without touching the target |
| `PatchSet.OptionalPatcher.constructor` | set.go:54-56 | a new patcher has not applied and holds the given target and patch |
| `PatchSet.OptionalPatcher.IsNoop` | set.go:58-65 | an applied patcher is always a no-op; otherwise, for a known action, it is a no-op exactly when applying would change nothing; an unknown action is a no-op only once applied |
| `PatchSet.OptionalPatcher.Apply` | set.go:67-73 | never fails; when applied, changes nothing; otherwise the target takes the value `ApplyOptionTo` predicts; the flag never changes; a known patch leaves the patcher a no-op |
| `PatchSet.OptionalPatcher.ApplyOnce` | set.go:67-73 | the corrected apply: the first call sets the flag, and later calls leave the target alone |
| `PatchSet.Patcher.IsNoop` | set.go:16-19 | a patcher that reports no-op would leave its target as it is |
| `PatchSet.Patcher.Apply` | set.go:16-19 | the target's new value and the error are the step the patcher's kind predicts; a successful known patch leaves the patcher a no-op |
| `PatchSet.NoopAfterStep` | set.go:31-38 | a patcher whose target has taken a successful step reports no-op afterwards, when its action is known |
| `PatchSet.PatchMap.constructor` | set.go:79-82 | a new map is empty |
| `PatchSet.PatchMap.Append` | set.go:84-92 | a used label fails with `DuplicateLabel` and leaves the map unchanged; a fresh label is added with its patcher and nothing else changes |
| `PatchSet.PatchMap.GetPatchPair` | set.go:94-106 | a patcher is found exactly when the label is a string present in the map, and it is that label's patcher |
| `PatchSet.PatchMap.IsNoop` | set.go:108-115 | as written: a present label reports `NotFound` and not no-op; an absent one reaches a nil patcher (`NilPatcherCall`) |
| `PatchSet.PatchMap.Apply` | set.go:117-124 | as written: a present label reports `NotFound` without applying; an absent one reaches a nil patcher (`NilPatcherCall`) |
| `PatchSet.PatchMap.CheckedIsNoop` | set.go:108-115 | the corrected lookup: a present label answers with its patcher's verdict; a missing label reports `NotFound` |
| `PatchSet.PatchMap.CheckedApply` | set.go:117-124 | the corrected lookup: a present label's target takes its patcher's step and no other target changes; a missing label reports `NotFound` and changes nothing |
| `PatchSet.PatchMap.IsAllNoop` | set.go:126-133 | true exactly when every stored patcher reports no-op, whatever the iteration order |
| `PatchSet.PatchMap.ApplyAll` | set.go:135-143 | success means every label was applied; a failure names a stored label that was not applied; with distinct targets, each applied label's target took its patcher's successful step, every other target is unchanged, the named label's step fails, and after a full success with known actions every patcher reports no-op |
| `Scenarios.PatchNoopScenario` | patch_test.go:11-38 | the no-op verdicts the patch test asserts, on plain and optional fields |
| `Scenarios.PatchApplyScenario` | patch_test.go:40-54 | `Noop` leaves the field, `Remove` fails with `UnsupportedRemove` and leaves it, `Replace` installs `"changed"` |
| `Scenarios.FieldPatchDiffScenario` | patch.go:42-48 | diffing `"original"` against `"changed"` yields a `Replace` that turns one into the other |
| `Scenarios.PatchSetScenario` | set_test.go:10-36 | three appends under distinct labels succeed, and the map reports all three satisfied patchers as no-op |
| `Scenarios.ReapplyAfterExternalEdit` | set.go:40-46 | as written, a second apply overwrites an outside edit of the target, and the flag stays false |
| `Scenarios.ApplyOnceKeepsExternalEdit` | set.go:40-46 | with the corrected apply, the outside edit survives the second apply, and the flag is set |
| `Scenarios.OptionalReapplyScenario` | set.go:67-73 | the same two outcomes for an optional target |
| `Scenarios.LookupOfPresentLabel` | set.go:108-124 | as written, both lookups of a present label report `NotFound`; the corrected lookups answer no-op and apply successfully |
| `Scenarios.LookupOfAbsentLabel` | set.go:108-124 | as written, both lookups of an absent label reach a nil patcher; the corrected lookups report `NotFound` |

## Left out

- The optional-value library is not part of this model. Its `Option` is
  assumed to be empty-or-one-value. `Match`, `Matches` and `Eq` are assumed to
  be structural equality, and `Get`/`Unwrap` to fail exactly on an empty option.
- `GetOptionFieldPatch` (patch.go:50-81) is left out. Its intended logic is
  commented out, and the live code is a placeholder that depends on what the
  library's `Get` returns on failure.
- `Patchable` (an interface for structs that accept patches) and `PatchFunc`
  (a function type) have no implementation in the core and are not modelled.
  `PrimativePatch` is the `Patch` interface plus `Action` and `Peek`, all of
  which `PatchField` provides; the model gives those methods to `PatchField`
  directly.
- The Go source does not type-check as written. The `Patch` interface declares
  `IsNoopOption` and `ApplyOption` over `optional.Option[T]`, and
  `PrimativePatch.Peek` returns `Option[T]` (patch.go:26, 28, 34). `PatchField`'s
  own methods use the interface `optional.Optional[T]`, which `*Option[T]`
  satisfies (patch.go:95-98, 117, 155). So set.go:63 and set.go:71 pass an
  `Optional[T]` where the interface expects an `Option[T]`. The model follows
  `PatchField`'s own signatures: an optional target is a cell updated in place.
  set_test.go also refers to `smartpatch.` without importing it. Its scenario is
  modelled as evidently meant.
- Go's `==` on a `comparable` type is assumed to be an equivalence. Dafny
  equality is always reflexive. In Go, a float NaN is not equal to itself, and
  comparing interface values whose dynamic types are not comparable panics. So
  `GetFieldPatch(NaN, NaN)` is a `Replace` that never reports no-op. The
  model's no-op-after-apply properties (`GetFieldPatch`, `ApplyIsIdempotent`,
  `ValuePatcher.Apply`, `ApplyAll`) are not claimed for such values.
- Nil references are not representable. Go accepts a nil patcher in
  `Append(label, nil)` (set.go:84-92), and `IsAllNoop`/`ApplyAll` then panic at
  set.go:128/137. Go also accepts a nil target or patch in the patcher
  constructors, and the patcher panics when it dereferences them (set.go:36).
  In the model, `Patcher`, `Ref` and `OptionalCell` values are never null, so
  these panics are not modelled.
- The patchers hold a `PatchField` rather than any value of the `Patch`
  interface. Other implementations of that interface are not modelled.
- `Patcher` is a closed datatype over the two patcher classes, not an open
  interface. A heterogeneous map, such as the test's string and int patchers,
  is modelled by instantiating the value type with a sum type (`Scenarios.Scalar`).
- Error messages from `fmt.Errorf` are not modelled. Each failure is a tag in
  `Errors.Error`.
- Go's unspecified map iteration order is modelled by choosing the next label
  nondeterministically. The concrete order is not modelled.
- A nil `Patcher` method call panics in Go. It is modelled as the failure
  `NilPatcherCall`, not as a crash.
- PatchSet.PatchMap.ApplyAll: the per-label effect on targets is stated only
  when no two labels share a target. With shared targets, the outcome depends on
  the iteration order, and only the label bookkeeping is stated.

## Findings

| source | as written | input that shows it | evidently intended | confidence | as-written member | corrected member |
|---|---|---|---|---|---|---|
| set.go:40-46 | `ValuePatcher.Apply` never sets `applied`, so the flag that `IsNoop` and `Apply` consult is always false | apply `Replace("changed")` to `"original"`, write `"edited"` to the target, apply again: the target is `"changed"` and `applied` is false | a successful apply sets `applied`, so a later apply leaves the target alone | high (not executed) | `PatchSet.ValuePatcher.Apply`, exhibited by `Scenarios.ReapplyAfterExternalEdit` | `PatchSet.ValuePatcher.ApplyOnce`, exhibited by `Scenarios.ApplyOnceKeepsExternalEdit` |
| set.go:67-73 | `OptionalPatcher.Apply` never sets `applied` | the same sequence on an empty optional target ends holding `"changed"` | the first apply sets `applied` | high (not executed) | `PatchSet.OptionalPatcher.Apply`, exhibited by `Scenarios.OptionalReapplyScenario` | `PatchSet.OptionalPatcher.ApplyOnce`, exhibited by `Scenarios.OptionalReapplyScenario` |
| set.go:108-115 | `PatchMap.IsNoop` tests `err != nil` where `err == nil` is meant | a map with label `"dog"`: `IsNoop("dog")` reports "not found"; `IsNoop("cat")` calls a method on a nil patcher | a present label answers with its patcher's verdict; a missing one reports not found | high (not executed) | `PatchSet.PatchMap.IsNoop`, exhibited by `Scenarios.LookupOfPresentLabel` | `PatchSet.PatchMap.CheckedIsNoop` |
| set.go:117-124 | `PatchMap.Apply` has the same inverted test | `Apply("dog")` on the same map reports "not found" and applies nothing | a present label's patcher is applied | high (not executed) | `PatchSet.PatchMap.Apply`, exhibited by `Scenarios.LookupOfPresentLabel` | `PatchSet.PatchMap.CheckedApply` |
