/**
 * `applyTo(value, path)`: walking a concrete value against a definition and
 * collecting one flat, ordered list of faults, plus the result object and
 * its `success`/`fail` continuations and the `validate` entry point.
 */
module Evaluator {
  import opened Options
  import opened Decimal
  import opened Values
  import opened Definition

  /** One violated constraint: where, what was required, and the offending value. */
  datatype Fault = Fault(path: string, description: string, value: Val)

  /** The value that was validated together with every fault found in it. */
  datatype ValidationResult = ValidationResult(value: Val, faults: seq<Fault>)

  function PropertyPath(path: string, name: string): string {
    path + "." + name
  }

  function IndexPath(path: string, i: nat): string {
    path + "[" + NatToString(i) + "]"
  }

  function EntryPath(path: string, i: nat): string {
    path + ".entries[" + NatToString(i) + "]"
  }

  function KeyPath(path: string, i: nat): string {
    path + ".keys[" + NatToString(i) + "]"
  }

  function ValueByKeyPath(path: string, key: Val): string {
    path + "[" + Show(key) + "]"
  }

  /** The elements of an iterable, each with its path. */
  function ElementItems(xs: seq<Val>, path: string): seq<(Val, string)> {
    seq(|xs|, i requires 0 <= i < |xs| => (xs[i], IndexPath(path, i)))
  }

  /** The entries of a map, each with its path. */
  function EntryItems(pairs: seq<(Val, Val)>, path: string): seq<(Val, string)> {
    seq(|pairs|, i requires 0 <= i < |pairs| => (Entry(pairs[i].0, pairs[i].1), EntryPath(path, i)))
  }

  /** The keys of a map, each with its path. */
  function KeyItems(pairs: seq<(Val, Val)>, path: string): seq<(Val, string)> {
    seq(|pairs|, i requires 0 <= i < |pairs| => (pairs[i].0, KeyPath(path, i)))
  }

  /** The values of a map, each at the path of its key. */
  function ValueItems(pairs: seq<(Val, Val)>, path: string): seq<(Val, string)> {
    seq(|pairs|, i requires 0 <= i < |pairs| => (pairs[i].1, ValueByKeyPath(path, pairs[i].0)))
  }

  /**
   * The value scope applied to `v`: every constraint is tried, in
   * registration order, and each one whose predicate is false contributes
   * a fault at `path` carrying its description and `v`.
   */
  function ConstraintFaults(cs: seq<Constraint>, v: Val, path: string): (r: seq<Fault>)
    ensures |r| <= |cs|
    ensures forall k :: 0 <= k < |r| ==> r[k].path == path && r[k].value == v
    ensures r == [] <==> forall i :: 0 <= i < |cs| ==> cs[i].test(v)
  {
    if |cs| == 0 then []
    else
      var rest := ConstraintFaults(cs[1..], v, path);
      assert (forall i :: 0 <= i < |cs| ==> cs[i].test(v)) <==>
        cs[0].test(v) && forall i :: 0 <= i < |cs[1..]| ==> cs[1..][i].test(v) by {
        if forall i :: 0 <= i < |cs[1..]| ==> cs[1..][i].test(v) {
          forall i | 1 <= i < |cs| ensures cs[i].test(v) {
            assert cs[i] == cs[1..][i - 1];
          }
        }
      }
      (if cs[0].test(v) then [] else [Fault(path, cs[0].descriptor.description, v)]) + rest
  }

  /** The definition `d` evaluated at `path`; the result carries `v` unchanged. */
  function ApplyTo(d: Def, v: Val, path: string): (r: ValidationResult)
    decreases d, 1, 0
    ensures r.value == v
  {
    ValidationResult(v, Faults(d, v, path))
  }

  /**
   * The faults of `applyTo`, in the source's fixed order: properties, then
   * the value's own constraints, then elements of an iterable, then entries,
   * keys and values-by-key of a map. A nested scope never declared holds
   * nothing, so it contributes nothing.
   */
  function Faults(d: Def, v: Val, path: string): seq<Fault>
    decreases d, 0, 0
  {
    PropertyFaults(d.properties.validations, v, path)
    + ConstraintFaults(d.value.constraints, v, path)
    + (if v.L? && d.elements.Some? then EachFaults(d.elements.value, ElementItems(v.elems, path)) else [])
    + (if v.M? && d.entries.Some? then EachFaults(d.entries.value, EntryItems(v.pairs, path)) else [])
    + (if v.M? && d.keys.Some? then EachFaults(d.keys.value, KeyItems(v.pairs, path)) else [])
    + (if v.M? && d.values.Some? then EachFaults(d.values.value, ValueItems(v.pairs, path)) else [])
  }

  /** One nested definition applied to each item at its own path, in order. */
  function EachFaults(e: Def, items: seq<(Val, string)>): seq<Fault>
    decreases e, 2, |items|
  {
    if |items| == 0 then []
    else Faults(e, items[0].0, items[0].1) + EachFaults(e, items[1..])
  }

  /**
   * The properties scope applied to `owner`: properties in first-declaration
   * order, each one's nested definitions in declaration order, each applied
   * to the property's value (`null` when the owner is `null`) at `path.name`.
   */
  function PropertyFaults(ps: seq<PropertyValidations>, owner: Val, path: string): seq<Fault>
    decreases ps, 0, 0
  {
    if |ps| == 0 then []
    else
      DefsFaults(ps[0].defs, Property(owner, ps[0].name), PropertyPath(path, ps[0].name))
      + PropertyFaults(ps[1..], owner, path)
  }

  /** Several definitions applied to the same value at the same path, in order. */
  function DefsFaults(ds: seq<Def>, v: Val, path: string): seq<Fault>
    decreases ds, 0, 0
  {
    if |ds| == 0 then []
    else Faults(ds[0], v, path) + DefsFaults(ds[1..], v, path)
  }

  /**
   * `validate(value, type) { ... }`: build the definition once and apply it
   * with the type's simple name as the root path.
   */
  function Validate(v: Val, rootName: string, block: Def -> Def): (r: ValidationResult)
    ensures r.value == v
  {
    ApplyTo(Validation(block), v, rootName)
  }

  /**
   * `success { ... }`: the caller's block, seen here as the observation it
   * produces from the value, runs iff there are no faults; the same result
   * comes back for chaining.
   */
  function Success<E>(r: ValidationResult, block: Val -> E): (out: (ValidationResult, seq<E>))
    ensures out.0 == r
    ensures |out.1| <= 1
    ensures |out.1| == 1 <==> r.faults == []
    ensures |out.1| == 1 ==> out.1[0] == block(r.value)
  {
    (r, if r.faults == [] then [block(r.value)] else [])
  }

  /** `fail { ... }`: the block sees the value and the faults, and runs iff there are faults. */
  function Fail<E>(r: ValidationResult, block: (Val, seq<Fault>) -> E): (out: (ValidationResult, seq<E>))
    ensures out.0 == r
    ensures |out.1| <= 1
    ensures |out.1| == 1 <==> r.faults != []
    ensures |out.1| == 1 ==> out.1[0] == block(r.value, r.faults)
  {
    (r, if r.faults != [] then [block(r.value, r.faults)] else [])
  }

  /** `result success { a } fail { b }` runs exactly one of the two blocks. */
  lemma SuccessThenFailRunsExactlyOne<E>(r: ValidationResult, onSuccess: Val -> E, onFail: (Val, seq<Fault>) -> E)
    ensures var (r1, ran1) := Success(r, onSuccess);
            var (r2, ran2) := Fail(r1, onFail);
            r2 == r && |ran1 + ran2| == 1 &&
            (ran1 + ran2)[0] == if r.faults == [] then onSuccess(r.value) else onFail(r.value, r.faults)
  {
  }
}
