/**
 * What `applyTo` guarantees, stated against independent descriptions: a
 * recursive "the value satisfies the definition" predicate, the indices of
 * the failing constraints, the path each nested evaluation happens at, and
 * the decomposition of a definition into its separate declarations.
 */
module EvaluatorLaws {
  import opened Options
  import opened Decimal
  import opened Values
  import opened Definition
  import opened Evaluator

  // ---------------------------------------------------------------------
  // Value scope: one fault per failing predicate, in registration order
  // ---------------------------------------------------------------------

  /** Positions `lo..` of the constraints whose predicate rejects `v`, ascending. */
  ghost function FailingFrom(cs: seq<Constraint>, v: Val, lo: nat): (r: seq<nat>)
    requires lo <= |cs|
    decreases |cs| - lo
    ensures forall k :: 0 <= k < |r| ==> lo <= r[k] < |cs| && !cs[r[k]].test(v)
    ensures forall i :: lo <= i < |cs| && !cs[i].test(v) ==> i in r
    ensures forall a, b :: 0 <= a < b < |r| ==> r[a] < r[b]
  {
    if lo == |cs| then []
    else (if cs[lo].test(v) then [] else [lo]) + FailingFrom(cs, v, lo + 1)
  }

  ghost function Failing(cs: seq<Constraint>, v: Val): seq<nat> {
    FailingFrom(cs, v, 0)
  }

  /** Fault `k` of `r` is the fault of constraint `f[k]`: at `path`, with its description and `v`. */
  ghost predicate FaultsMatch(r: seq<Fault>, f: seq<nat>, cs: seq<Constraint>, v: Val, path: string) {
    |r| == |f| &&
    forall k :: 0 <= k < |f| ==> f[k] < |cs| && r[k] == Fault(path, cs[f[k]].descriptor.description, v)
  }

  lemma {:induction false} ConstraintFaultsFrom(cs: seq<Constraint>, v: Val, path: string, lo: nat)
    requires lo <= |cs|
    decreases |cs| - lo
    ensures FaultsMatch(ConstraintFaults(cs[lo..], v, path), FailingFrom(cs, v, lo), cs, v, path)
  {
    if lo < |cs| {
      var r := ConstraintFaults(cs[lo..], v, path);
      var rest := ConstraintFaults(cs[lo + 1..], v, path);
      var f := FailingFrom(cs, v, lo);
      var g := FailingFrom(cs, v, lo + 1);
      ConstraintFaultsFrom(cs, v, path, lo + 1);
      ConstraintFaultsStep(cs, v, path, lo);
      if cs[lo].test(v) {
        assert r == rest && f == g;
      } else {
        PrependFailing(cs, v, path, lo, r, rest, f, g);
      }
    }
  }

  /** A failing constraint in front: its fault and its position head the two lists, which still correspond. */
  lemma PrependFailing(cs: seq<Constraint>, v: Val, path: string, lo: nat,
                       r: seq<Fault>, rest: seq<Fault>, f: seq<nat>, g: seq<nat>)
    requires lo < |cs| && r == [Fault(path, cs[lo].descriptor.description, v)] + rest && f == [lo] + g
    requires FaultsMatch(rest, g, cs, v, path)
    ensures FaultsMatch(r, f, cs, v, path)
  {
    forall k | 0 <= k < |f| ensures f[k] < |cs| && r[k] == Fault(path, cs[f[k]].descriptor.description, v) {
      if k > 0 {
        assert r[k] == rest[k - 1] && f[k] == g[k - 1];
      }
    }
  }

  /** One step of the value scope: the constraint at `lo`, then the ones after it. */
  lemma ConstraintFaultsStep(cs: seq<Constraint>, v: Val, path: string, lo: nat)
    requires lo < |cs|
    ensures ConstraintFaults(cs[lo..], v, path) ==
      (if cs[lo].test(v) then [] else [Fault(path, cs[lo].descriptor.description, v)])
      + ConstraintFaults(cs[lo + 1..], v, path)
    ensures FailingFrom(cs, v, lo) == (if cs[lo].test(v) then [] else [lo]) + FailingFrom(cs, v, lo + 1)
  {
    assert cs[lo..][1..] == cs[lo + 1..];
    assert cs[lo..][0] == cs[lo];
  }

  /**
   * The value scope reports exactly one fault per constraint whose predicate
   * is false, in registration order, each at the given path with that
   * constraint's description and the evaluated value; passing constraints
   * contribute nothing, and no failure stops the later ones from running.
   */
  lemma OneFaultPerFailingConstraint(cs: seq<Constraint>, v: Val, path: string)
    ensures |ConstraintFaults(cs, v, path)| == |Failing(cs, v)|
    ensures forall k :: 0 <= k < |Failing(cs, v)| ==>
              ConstraintFaults(cs, v, path)[k]
                == Fault(path, cs[Failing(cs, v)[k]].descriptor.description, v)
  {
    ConstraintFaultsFrom(cs, v, path, 0);
    assert cs[0..] == cs;
    assert FaultsMatch(ConstraintFaults(cs, v, path), Failing(cs, v), cs, v, path);
  }

  // ---------------------------------------------------------------------
  // Empty fault list <==> the value satisfies the definition
  // ---------------------------------------------------------------------

  /**
   * Every predicate reachable from `d` for the parts of `v` it is applied to
   * holds: the value's own constraints, every nested definition of every
   * property on the property's value, and, when `v` has the matching shape,
   * every element, entry, key and value.
   */
  ghost predicate Satisfies(d: Def, v: Val)
    decreases d, 1
  {
    && PropertiesSatisfied(d.properties.validations, v)
    && (forall i :: 0 <= i < |d.value.constraints| ==> d.value.constraints[i].test(v))
    && (v.L? && d.elements.Some? ==> AllSatisfy(d.elements.value, ElementItems(v.elems, "")))
    && (v.M? && d.entries.Some? ==> AllSatisfy(d.entries.value, EntryItems(v.pairs, "")))
    && (v.M? && d.keys.Some? ==> AllSatisfy(d.keys.value, KeyItems(v.pairs, "")))
    && (v.M? && d.values.Some? ==> AllSatisfy(d.values.value, ValueItems(v.pairs, "")))
  }

  ghost predicate AllSatisfy(e: Def, items: seq<(Val, string)>)
    decreases e, 2, |items|
  {
    |items| == 0 || (Satisfies(e, items[0].0) && AllSatisfy(e, items[1..]))
  }

  ghost predicate PropertiesSatisfied(ps: seq<PropertyValidations>, owner: Val)
    decreases ps, 0
  {
    |ps| == 0 ||
    (DefsSatisfied(ps[0].defs, Property(owner, ps[0].name)) && PropertiesSatisfied(ps[1..], owner))
  }

  ghost predicate DefsSatisfied(ds: seq<Def>, v: Val)
    decreases ds, 0
  {
    |ds| == 0 || (Satisfies(ds[0], v) && DefsSatisfied(ds[1..], v))
  }

  /** Only the values of the items matter to satisfaction, not their paths. */
  lemma {:induction false} AllSatisfyIgnoresPaths(e: Def, a: seq<(Val, string)>, b: seq<(Val, string)>)
    requires |a| == |b| && forall i :: 0 <= i < |a| ==> a[i].0 == b[i].0
    ensures AllSatisfy(e, a) <==> AllSatisfy(e, b)
    decreases |a|
  {
    if |a| > 0 {
      AllSatisfyIgnoresPaths(e, a[1..], b[1..]);
    }
  }

  lemma {:induction false} FaultsEmptyIff(d: Def, v: Val, path: string)
    ensures Faults(d, v, path) == [] <==> Satisfies(d, v)
    decreases d, 1, 0
  {
    PropertyFaultsEmptyIff(d.properties.validations, v, path);
    ElementsEmptyIff(d, v, path);
    EntriesEmptyIff(d, v, path);
    KeysEmptyIff(d, v, path);
    ValuesEmptyIff(d, v, path);
  }

  lemma {:induction false} ElementsEmptyIff(d: Def, v: Val, path: string)
    ensures (if v.L? && d.elements.Some? then EachFaults(d.elements.value, ElementItems(v.elems, path)) else []) == []
      <==> (v.L? && d.elements.Some? ==> AllSatisfy(d.elements.value, ElementItems(v.elems, "")))
    decreases d, 0, 0
  {
    if v.L? && d.elements.Some? {
      EachFaultsEmptyIff(d.elements.value, ElementItems(v.elems, path));
      AllSatisfyIgnoresPaths(d.elements.value, ElementItems(v.elems, path), ElementItems(v.elems, ""));
    }
  }

  lemma {:induction false} EntriesEmptyIff(d: Def, v: Val, path: string)
    ensures (if v.M? && d.entries.Some? then EachFaults(d.entries.value, EntryItems(v.pairs, path)) else []) == []
      <==> (v.M? && d.entries.Some? ==> AllSatisfy(d.entries.value, EntryItems(v.pairs, "")))
    decreases d, 0, 0
  {
    if v.M? && d.entries.Some? {
      EachFaultsEmptyIff(d.entries.value, EntryItems(v.pairs, path));
      AllSatisfyIgnoresPaths(d.entries.value, EntryItems(v.pairs, path), EntryItems(v.pairs, ""));
    }
  }

  lemma {:induction false} KeysEmptyIff(d: Def, v: Val, path: string)
    ensures (if v.M? && d.keys.Some? then EachFaults(d.keys.value, KeyItems(v.pairs, path)) else []) == []
      <==> (v.M? && d.keys.Some? ==> AllSatisfy(d.keys.value, KeyItems(v.pairs, "")))
    decreases d, 0, 0
  {
    if v.M? && d.keys.Some? {
      EachFaultsEmptyIff(d.keys.value, KeyItems(v.pairs, path));
      AllSatisfyIgnoresPaths(d.keys.value, KeyItems(v.pairs, path), KeyItems(v.pairs, ""));
    }
  }

  lemma {:induction false} ValuesEmptyIff(d: Def, v: Val, path: string)
    ensures (if v.M? && d.values.Some? then EachFaults(d.values.value, ValueItems(v.pairs, path)) else []) == []
      <==> (v.M? && d.values.Some? ==> AllSatisfy(d.values.value, ValueItems(v.pairs, "")))
    decreases d, 0, 0
  {
    if v.M? && d.values.Some? {
      EachFaultsEmptyIff(d.values.value, ValueItems(v.pairs, path));
      AllSatisfyIgnoresPaths(d.values.value, ValueItems(v.pairs, path), ValueItems(v.pairs, ""));
    }
  }

  lemma {:induction false} EachFaultsEmptyIff(e: Def, items: seq<(Val, string)>)
    ensures EachFaults(e, items) == [] <==> AllSatisfy(e, items)
    decreases e, 2, |items|
  {
    if |items| > 0 {
      FaultsEmptyIff(e, items[0].0, items[0].1);
      EachFaultsEmptyIff(e, items[1..]);
    }
  }

  lemma {:induction false} PropertyFaultsEmptyIff(ps: seq<PropertyValidations>, owner: Val, path: string)
    ensures PropertyFaults(ps, owner, path) == [] <==> PropertiesSatisfied(ps, owner)
    decreases ps, 0, 0
  {
    if |ps| > 0 {
      DefsFaultsEmptyIff(ps[0].defs, Property(owner, ps[0].name), PropertyPath(path, ps[0].name));
      PropertyFaultsEmptyIff(ps[1..], owner, path);
    }
  }

  lemma {:induction false} DefsFaultsEmptyIff(ds: seq<Def>, v: Val, path: string)
    ensures DefsFaults(ds, v, path) == [] <==> DefsSatisfied(ds, v)
    decreases ds, 0, 0
  {
    if |ds| > 0 {
      FaultsEmptyIff(ds[0], v, path);
      DefsFaultsEmptyIff(ds[1..], v, path);
    }
  }

  /**
   * A validation succeeds (no faults) exactly when the value satisfies every
   * constraint the definition applies to it; the root path plays no part.
   */
  lemma NoFaultsIffSatisfied(d: Def, v: Val, path: string)
    ensures ApplyTo(d, v, path).faults == [] <==> Satisfies(d, v)
  {
    FaultsEmptyIff(d, v, path);
  }

  // ---------------------------------------------------------------------
  // The map scopes and the map's own properties
  // ---------------------------------------------------------------------

  /**
   * The keys, values-by-key and entries scopes of a map walk over the same
   * values as an elements scope on the map's `keys`, `values` and `entries`
   * properties: a nested definition accepts all of one exactly when it
   * accepts all of the other.
   */
  lemma MapScopesAgreeWithMapProperties(e: Def, pairs: seq<(Val, Val)>, path: string)
    ensures AllSatisfy(e, KeyItems(pairs, path)) <==>
      AllSatisfy(e, ElementItems(Property(M(pairs), "keys").elems, path))
    ensures AllSatisfy(e, ValueItems(pairs, path)) <==>
      AllSatisfy(e, ElementItems(Property(M(pairs), "values").elems, path))
    ensures AllSatisfy(e, EntryItems(pairs, path)) <==>
      AllSatisfy(e, ElementItems(Property(M(pairs), "entries").elems, path))
  {
    AllSatisfyIgnoresPaths(e, KeyItems(pairs, path), ElementItems(Property(M(pairs), "keys").elems, path));
    AllSatisfyIgnoresPaths(e, ValueItems(pairs, path), ElementItems(Property(M(pairs), "values").elems, path));
    AllSatisfyIgnoresPaths(e, EntryItems(pairs, path), ElementItems(Property(M(pairs), "entries").elems, path));
  }

  /**
   * The `key` and `value` properties of the entry the entries scope visits
   * at position `i` are the key and the value the keys and values scopes
   * visit at the same position.
   */
  lemma EntryComponentsMatchMapScopes(pairs: seq<(Val, Val)>, path: string)
    ensures forall i :: 0 <= i < |pairs| ==>
      Property(EntryItems(pairs, path)[i].0, "key") == KeyItems(pairs, path)[i].0 &&
      Property(EntryItems(pairs, path)[i].0, "value") == ValueItems(pairs, path)[i].0
  {
  }

  // ---------------------------------------------------------------------
  // Definitions without constraints never fault
  // ---------------------------------------------------------------------

  /** No constraint is registered anywhere in `d`. */
  ghost predicate NoConstraints(d: Def)
    decreases d, 1
  {
    && |d.value.constraints| == 0
    && PropertiesUnconstrained(d.properties.validations)
    && (d.elements.Some? ==> NoConstraints(d.elements.value))
    && (d.entries.Some? ==> NoConstraints(d.entries.value))
    && (d.keys.Some? ==> NoConstraints(d.keys.value))
    && (d.values.Some? ==> NoConstraints(d.values.value))
  }

  ghost predicate PropertiesUnconstrained(ps: seq<PropertyValidations>)
    decreases ps, 0
  {
    |ps| == 0 || (DefsUnconstrained(ps[0].defs) && PropertiesUnconstrained(ps[1..]))
  }

  ghost predicate DefsUnconstrained(ds: seq<Def>)
    decreases ds, 0
  {
    |ds| == 0 || (NoConstraints(ds[0]) && DefsUnconstrained(ds[1..]))
  }

  lemma {:induction false} UnconstrainedSatisfied(d: Def, v: Val)
    requires NoConstraints(d)
    ensures Satisfies(d, v)
    decreases d, 1, 0
  {
    PropertiesUnconstrainedSatisfied(d.properties.validations, v);
    if v.L? && d.elements.Some? { EachUnconstrainedSatisfied(d.elements.value, ElementItems(v.elems, "")); }
    if v.M? && d.entries.Some? { EachUnconstrainedSatisfied(d.entries.value, EntryItems(v.pairs, "")); }
    if v.M? && d.keys.Some? { EachUnconstrainedSatisfied(d.keys.value, KeyItems(v.pairs, "")); }
    if v.M? && d.values.Some? { EachUnconstrainedSatisfied(d.values.value, ValueItems(v.pairs, "")); }
  }

  lemma {:induction false} EachUnconstrainedSatisfied(e: Def, items: seq<(Val, string)>)
    requires NoConstraints(e)
    ensures AllSatisfy(e, items)
    decreases e, 2, |items|
  {
    if |items| > 0 {
      UnconstrainedSatisfied(e, items[0].0);
      EachUnconstrainedSatisfied(e, items[1..]);
    }
  }

  lemma {:induction false} PropertiesUnconstrainedSatisfied(ps: seq<PropertyValidations>, owner: Val)
    requires PropertiesUnconstrained(ps)
    ensures PropertiesSatisfied(ps, owner)
    decreases ps, 0, 0
  {
    if |ps| > 0 {
      DefsUnconstrainedSatisfied(ps[0].defs, Property(owner, ps[0].name));
      PropertiesUnconstrainedSatisfied(ps[1..], owner);
    }
  }

  lemma {:induction false} DefsUnconstrainedSatisfied(ds: seq<Def>, v: Val)
    requires DefsUnconstrained(ds)
    ensures DefsSatisfied(ds, v)
    decreases ds, 0, 0
  {
    if |ds| > 0 {
      UnconstrainedSatisfied(ds[0], v);
      DefsUnconstrainedSatisfied(ds[1..], v);
    }
  }

  /** A definition with no constraint anywhere in it yields no faults on any value. */
  lemma NoConstraintsNoFaults(d: Def, v: Val, path: string)
    requires NoConstraints(d)
    ensures ApplyTo(d, v, path).faults == []
  {
    UnconstrainedSatisfied(d, v);
    NoFaultsIffSatisfied(d, v, path);
  }

  /** A freshly created definition, with nothing declared, yields no faults. */
  lemma EmptyDefinitionNoFaults(v: Val, path: string)
    ensures ApplyTo(EmptyDef(), v, path).faults == []
  {
  }

  // ---------------------------------------------------------------------
  // Paths: every fault is located below the path the evaluation started at
  // ---------------------------------------------------------------------

  /** Faults found under `path` sit at paths extending it, and so extend anything `path` extends. */
  lemma {:induction false} FaultPathsExtendFrom(d: Def, v: Val, path: string, root: string)
    requires root <= path
    ensures forall f :: f in Faults(d, v, path) ==> root <= f.path
    decreases d, 1, 0
  {
    PropertyPathsExtend(d.properties.validations, v, path, root);
    if v.L? && d.elements.Some? { EachPathsExtend(d.elements.value, ElementItems(v.elems, path), root); }
    if v.M? && d.entries.Some? { EachPathsExtend(d.entries.value, EntryItems(v.pairs, path), root); }
    if v.M? && d.keys.Some? { EachPathsExtend(d.keys.value, KeyItems(v.pairs, path), root); }
    if v.M? && d.values.Some? { EachPathsExtend(d.values.value, ValueItems(v.pairs, path), root); }
  }

  lemma {:induction false} EachPathsExtend(e: Def, items: seq<(Val, string)>, root: string)
    requires forall i :: 0 <= i < |items| ==> root <= items[i].1
    ensures forall f :: f in EachFaults(e, items) ==> root <= f.path
    decreases e, 2, |items|
  {
    if |items| > 0 {
      FaultPathsExtendFrom(e, items[0].0, items[0].1, root);
      EachPathsExtend(e, items[1..], root);
    }
  }

  lemma {:induction false} PropertyPathsExtend(ps: seq<PropertyValidations>, owner: Val, path: string, root: string)
    requires root <= path
    ensures forall f :: f in PropertyFaults(ps, owner, path) ==> root <= f.path
    decreases ps, 0, 0
  {
    if |ps| > 0 {
      DefsPathsExtend(ps[0].defs, Property(owner, ps[0].name), PropertyPath(path, ps[0].name), root);
      PropertyPathsExtend(ps[1..], owner, path, root);
    }
  }

  lemma {:induction false} DefsPathsExtend(ds: seq<Def>, v: Val, path: string, root: string)
    requires root <= path
    ensures forall f :: f in DefsFaults(ds, v, path) ==> root <= f.path
    decreases ds, 0, 0
  {
    if |ds| > 0 {
      FaultPathsExtendFrom(ds[0], v, path, root);
      DefsPathsExtend(ds[1..], v, path, root);
    }
  }

  /** Every fault's path starts with the path the evaluation was started at. */
  lemma FaultPathsExtendRoot(d: Def, v: Val, path: string)
    ensures forall f :: f in ApplyTo(d, v, path).faults ==> path <= f.path
  {
    FaultPathsExtendFrom(d, v, path, path);
  }

  // ---------------------------------------------------------------------
  // Where nested evaluations happen
  // ---------------------------------------------------------------------

  lemma {:induction false} EachReports(e: Def, items: seq<(Val, string)>, i: nat, f: Fault)
    requires i < |items| && f in Faults(e, items[i].0, items[i].1)
    ensures f in EachFaults(e, items)
    decreases i
  {
    if i > 0 {
      EachReports(e, items[1..], i - 1, f);
    }
  }

  lemma {:induction false} DefsReport(ds: seq<Def>, v: Val, path: string, j: nat, f: Fault)
    requires j < |ds| && f in Faults(ds[j], v, path)
    ensures f in DefsFaults(ds, v, path)
    decreases j
  {
    if j > 0 {
      DefsReport(ds[1..], v, path, j - 1, f);
    }
  }

  lemma {:induction false} PropertiesReport(ps: seq<PropertyValidations>, owner: Val, path: string, i: nat, j: nat, f: Fault)
    requires i < |ps| && j < |ps[i].defs|
    requires f in Faults(ps[i].defs[j], Property(owner, ps[i].name), PropertyPath(path, ps[i].name))
    ensures f in PropertyFaults(ps, owner, path)
    decreases i
  {
    if i > 0 {
      PropertiesReport(ps[1..], owner, path, i - 1, j, f);
    } else {
      DefsReport(ps[0].defs, Property(owner, ps[0].name), PropertyPath(path, ps[0].name), j, f);
    }
  }

  /** A failing constraint of the value scope is reported at the path itself. */
  lemma ValueFaultReported(d: Def, v: Val, path: string, i: nat)
    requires i < |d.value.constraints| && !d.value.constraints[i].test(v)
    ensures Fault(path, d.value.constraints[i].descriptor.description, v) in ApplyTo(d, v, path).faults
  {
    var cs := d.value.constraints;
    OneFaultPerFailingConstraint(cs, v, path);
    var r := ConstraintFaults(cs, v, path);
    var k :| 0 <= k < |Failing(cs, v)| && Failing(cs, v)[k] == i;
    assert r[k] == Fault(path, cs[i].descriptor.description, v);
  }

  /**
   * Every nested definition declared for a property is evaluated on the
   * property's value at `path.name`, and its faults are reported; a `null`
   * owner passes `null` to each of them rather than skipping them.
   */
  lemma PropertyFaultReported(d: Def, v: Val, path: string, i: nat, j: nat, f: Fault)
    requires i < |d.properties.validations| && j < |d.properties.validations[i].defs|
    requires var p := d.properties.validations[i];
             f in Faults(p.defs[j], Property(v, p.name), PropertyPath(path, p.name))
    ensures f in ApplyTo(d, v, path).faults
    ensures v.Null? ==> Property(v, d.properties.validations[i].name) == Null
  {
    PropertiesReport(d.properties.validations, v, path, i, j, f);
  }

  /** The elements definition is applied to element `i` of an iterable at `path[i]`. */
  lemma ElementFaultReported(d: Def, xs: seq<Val>, path: string, i: nat, f: Fault)
    requires d.elements.Some? && i < |xs|
    requires f in Faults(d.elements.value, xs[i], path + "[" + NatToString(i) + "]")
    ensures f in ApplyTo(d, L(xs), path).faults
  {
    EachReports(d.elements.value, ElementItems(xs, path), i, f);
  }

  /** The entries definition is applied to entry `i` of a map at `path.entries[i]`. */
  lemma EntryFaultReported(d: Def, pairs: seq<(Val, Val)>, path: string, i: nat, f: Fault)
    requires d.entries.Some? && i < |pairs|
    requires f in Faults(d.entries.value, Entry(pairs[i].0, pairs[i].1), path + ".entries[" + NatToString(i) + "]")
    ensures f in ApplyTo(d, M(pairs), path).faults
  {
    EachReports(d.entries.value, EntryItems(pairs, path), i, f);
  }

  /** The keys definition is applied to key `i` of a map at `path.keys[i]`. */
  lemma KeyFaultReported(d: Def, pairs: seq<(Val, Val)>, path: string, i: nat, f: Fault)
    requires d.keys.Some? && i < |pairs|
    requires f in Faults(d.keys.value, pairs[i].0, path + ".keys[" + NatToString(i) + "]")
    ensures f in ApplyTo(d, M(pairs), path).faults
  {
    EachReports(d.keys.value, KeyItems(pairs, path), i, f);
  }

  /** The values definition is applied to the value of key `k` at `path[k]`. */
  lemma ValueByKeyFaultReported(d: Def, pairs: seq<(Val, Val)>, path: string, i: nat, f: Fault)
    requires d.values.Some? && i < |pairs|
    requires f in Faults(d.values.value, pairs[i].1, path + "[" + Show(pairs[i].0) + "]")
    ensures f in ApplyTo(d, M(pairs), path).faults
  {
    EachReports(d.values.value, ValueItems(pairs, path), i, f);
  }

  /** Element definitions fire only on iterables: on any other value they change nothing. */
  lemma ElementsOnlyForIterables(d: Def, slot: Option<Def>, v: Val, path: string)
    requires !v.L?
    ensures ApplyTo(d.(elements := slot), v, path) == ApplyTo(d, v, path)
  {
  }

  /** Entry, key and value definitions fire only on maps. */
  lemma MapScopesOnlyForMaps(d: Def, entries: Option<Def>, keys: Option<Def>, values: Option<Def>, v: Val, path: string)
    requires !v.M?
    ensures ApplyTo(d.(entries := entries, keys := keys, values := values), v, path) == ApplyTo(d, v, path)
  {
  }

  // ---------------------------------------------------------------------
  // Fault order: one declaration at a time
  // ---------------------------------------------------------------------

  function OnlyProperties(d: Def): Def { EmptyDef().(properties := d.properties) }
  function OnlyValue(d: Def): Def { EmptyDef().(value := d.value) }
  function OnlyElements(d: Def): Def { EmptyDef().(elements := d.elements) }
  function OnlyEntries(d: Def): Def { EmptyDef().(entries := d.entries) }
  function OnlyKeys(d: Def): Def { EmptyDef().(keys := d.keys) }
  function OnlyValues(d: Def): Def { EmptyDef().(values := d.values) }

  /**
   * Evaluating a definition is evaluating each of its declarations on its
   * own and concatenating the faults in the fixed order: properties, value,
   * elements, entries, keys, values by key.
   */
  lemma DeclarationOrder(d: Def, v: Val, path: string)
    ensures ApplyTo(d, v, path).faults ==
      ApplyTo(OnlyProperties(d), v, path).faults
      + ApplyTo(OnlyValue(d), v, path).faults
      + ApplyTo(OnlyElements(d), v, path).faults
      + ApplyTo(OnlyEntries(d), v, path).faults
      + ApplyTo(OnlyKeys(d), v, path).faults
      + ApplyTo(OnlyValues(d), v, path).faults
  {
    OnlyOwnFaults(d, v, path);
    OnlyNestedFaults(d, v, path);
  }

  /** The properties and the value scope, each evaluated alone. */
  lemma OnlyOwnFaults(d: Def, v: Val, path: string)
    ensures Faults(OnlyProperties(d), v, path) == PropertyFaults(d.properties.validations, v, path)
    ensures Faults(OnlyValue(d), v, path) == ConstraintFaults(d.value.constraints, v, path)
  {
    OnlyPropertiesFaults(d, v, path);
    OnlyValueFaults(d, v, path);
  }

  lemma OnlyPropertiesFaults(d: Def, v: Val, path: string)
    ensures Faults(OnlyProperties(d), v, path) == PropertyFaults(d.properties.validations, v, path)
  {
    assert ConstraintFaults([], v, path) == [];
  }

  lemma OnlyValueFaults(d: Def, v: Val, path: string)
    ensures Faults(OnlyValue(d), v, path) == ConstraintFaults(d.value.constraints, v, path)
  {
    assert PropertyFaults([], v, path) == [];
  }

  /** Each nested scope, evaluated alone. */
  lemma OnlyNestedFaults(d: Def, v: Val, path: string)
    ensures Faults(OnlyElements(d), v, path)
      == if v.L? && d.elements.Some? then EachFaults(d.elements.value, ElementItems(v.elems, path)) else []
    ensures Faults(OnlyEntries(d), v, path)
      == if v.M? && d.entries.Some? then EachFaults(d.entries.value, EntryItems(v.pairs, path)) else []
    ensures Faults(OnlyKeys(d), v, path)
      == if v.M? && d.keys.Some? then EachFaults(d.keys.value, KeyItems(v.pairs, path)) else []
    ensures Faults(OnlyValues(d), v, path)
      == if v.M? && d.values.Some? then EachFaults(d.values.value, ValueItems(v.pairs, path)) else []
  {
    assert PropertyFaults([], v, path) == [];
    assert ConstraintFaults([], v, path) == [];
  }

  /** An undeclared nested scope and an empty declared one behave the same. */
  lemma UndeclaredScopeIsEmpty(d: Def, v: Val, path: string)
    ensures ApplyTo(d.(elements := Some(EmptyDef())), v, path) == ApplyTo(d.(elements := None), v, path)
    ensures ApplyTo(d.(entries := Some(EmptyDef())), v, path) == ApplyTo(d.(entries := None), v, path)
    ensures ApplyTo(d.(keys := Some(EmptyDef())), v, path) == ApplyTo(d.(keys := None), v, path)
    ensures ApplyTo(d.(values := Some(EmptyDef())), v, path) == ApplyTo(d.(values := None), v, path)
  {
    if v.L? { EachEmpty(ElementItems(v.elems, path)); }
    if v.M? {
      EachEmpty(EntryItems(v.pairs, path));
      EachEmpty(KeyItems(v.pairs, path));
      EachEmpty(ValueItems(v.pairs, path));
    }
  }

  lemma {:induction false} EachEmpty(items: seq<(Val, string)>)
    ensures EachFaults(EmptyDef(), items) == []
    decreases |items|
  {
    if |items| > 0 {
      EachEmpty(items[1..]);
    }
  }
}
