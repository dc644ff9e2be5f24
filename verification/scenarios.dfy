/**
 * Whole validations built through the builder operations and evaluated:
 * the path shapes the repository's tests expect, and properties of common
 * definitions written with aliases.
 */
module Scenarios {
  import opened Options
  import opened Decimal
  import opened Values
  import opened Definition
  import opened Evaluator
  import opened EvaluatorLaws
  import opened MatchAliases

  /**
   * The definition `value { match(test) description text }` builds on a
   * fresh definition (`OneConstraintIsBuilt`).
   */
  function OneConstraint(id: PredId, test: Val -> bool, text: string): Def {
    EmptyDef().(value := ValueScope([Constraint(id, test, Descriptor(0, text))]))
  }

  /** Running `value { match(test) description text }` through the builder operations yields `OneConstraint`. */
  lemma OneConstraintIsBuilt(id: PredId, test: Val -> bool, text: string)
    ensures WithValue(EmptyDef(), vs => MatchDescribed(vs, id, test, text)) == OneConstraint(id, test, text)
  {
    assert !HasId([], id);
  }

  /** A definition with one constraint faults exactly when the constraint's test fails. */
  lemma OneConstraintFaults(id: PredId, test: Val -> bool, text: string, v: Val, path: string)
    ensures Faults(OneConstraint(id, test, text), v, path) == if test(v) then [] else [Fault(path, text, v)]
  {
    SingleConstraintFaults(OneConstraint(id, test, text), v, path);
  }

  /** A definition declaring nothing but one value constraint faults exactly when that constraint fails. */
  lemma SingleConstraintFaults(d: Def, v: Val, path: string)
    requires d == OnlyValue(d) && |d.value.constraints| == 1
    ensures var c := d.value.constraints[0];
            Faults(d, v, path) == if c.test(v) then [] else [Fault(path, c.descriptor.description, v)]
  {
    OnlyOwnFaults(d, v, path);
    assert d.value.constraints[1..] == [];
  }

  /**
   * The definition `value { alias }` builds: one constraint, testing the
   * alias's predicate and carrying its description (`AliasOnlyIsBuilt`).
   */
  function AliasOnly(id: PredId, a: Alias): Def {
    EmptyDef().(value := ValueScope([Constraint(id, v => Passes(a, v), Descriptor(0, Description(a)))]))
  }

  /** `value { alias }` run on a fresh definition, through the builder operations. */
  function BuiltAliasOnly(id: PredId, a: Alias): Def {
    WithValue(EmptyDef(), vs => Apply(vs, id, a).0)
  }

  /** The constraint's test agrees with the alias on every value. */
  ghost predicate TestsAlias(c: Constraint, a: Alias) {
    forall v :: c.test(v) == Passes(a, v)
  }

  /**
   * `d` declares nothing but one constraint, registered under `id` with a
   * first-generation descriptor holding the alias's description, whose
   * test agrees with the alias everywhere.
   */
  ghost predicate IsAliasOnly(d: Def, id: PredId, a: Alias) {
    d == OnlyValue(d) && |d.value.constraints| == 1 && d.value.constraints[0].id == id &&
    d.value.constraints[0].descriptor == Descriptor(0, Description(a)) &&
    TestsAlias(d.value.constraints[0], a)
  }

  /**
   * Running `value { alias }` on a fresh definition yields `AliasOnly`: the
   * same shape, identity and description, and a test that agrees with the
   * alias on every value.
   */
  lemma AliasOnlyShape(id: PredId, a: Alias)
    ensures IsAliasOnly(BuiltAliasOnly(id, a), id, a)
    ensures IsAliasOnly(AliasOnly(id, a), id, a)
  {
    AliasOnEmptyScope(id, a);
    BuiltIsValueOnly(id, a);
    ValueOnlyIsAliasOnly(Apply(ValueScope([]), id, a).0, id, a);
  }

  /** A value-only definition whose scope holds just the alias's constraint holds only the alias. */
  lemma ValueOnlyIsAliasOnly(vs: ValueScope, id: PredId, a: Alias)
    requires |vs.constraints| == 1 && vs.constraints[0].id == id
    requires vs.constraints[0].descriptor == Descriptor(0, Description(a)) && TestsAlias(vs.constraints[0], a)
    ensures IsAliasOnly(EmptyDef().(value := vs), id, a)
  {
  }

  /** Building `value { alias }` touches nothing but the value scope. */
  lemma BuiltIsValueOnly(id: PredId, a: Alias)
    ensures BuiltAliasOnly(id, a) == EmptyDef().(value := Apply(ValueScope([]), id, a).0)
  {
  }

  /** On an empty value scope an alias leaves exactly its own constraint, with a first-generation descriptor. */
  lemma AliasOnEmptyScope(id: PredId, a: Alias)
    ensures var c := Apply(ValueScope([]), id, a).0.constraints;
            |c| == 1 && c[0].id == id && c[0].descriptor == Descriptor(0, Description(a)) &&
            TestsAlias(c[0], a)
  {
    AliasRegistersOneConstraint(ValueScope([]), id, a);
  }

  /** The built `value { alias }` and `AliasOnly` report the same faults on every value. */
  lemma AliasOnlyIsBuilt(id: PredId, a: Alias, v: Val, path: string)
    ensures Faults(BuiltAliasOnly(id, a), v, path) == Faults(AliasOnly(id, a), v, path)
  {
    AliasOnlyShape(id, a);
    AliasOnlyFaultsAlike(BuiltAliasOnly(id, a), AliasOnly(id, a), id, a, v, path);
  }

  /** Two definitions that each hold only the alias fault alike. */
  lemma AliasOnlyFaultsAlike(d1: Def, d2: Def, id: PredId, a: Alias, v: Val, path: string)
    requires IsAliasOnly(d1, id, a) && IsAliasOnly(d2, id, a)
    ensures Faults(d1, v, path) == Faults(d2, v, path)
  {
    SingleConstraintFaults(d1, v, path);
    SingleConstraintFaults(d2, v, path);
  }

  /** A definition holding one alias faults, with the alias's description, exactly when the alias fails. */
  lemma AliasOnlyFaults(id: PredId, a: Alias, v: Val, path: string)
    ensures Faults(AliasOnly(id, a), v, path) == if Passes(a, v) then [] else [Fault(path, Description(a), v)]
  {
    SingleConstraintFaults(AliasOnly(id, a), v, path);
  }

  predicate IsAnotherValue(v: Val) { v == S("anotherValue") }
  predicate IsValue2(v: Val) { v == S("value2") }
  predicate IsKey1(v: Val) { v == S("key1") }

  /** What the sample predicates say about the sample values. */
  lemma SampleTests()
    ensures !IsValue2(S("value1")) && IsValue2(S("value2"))
    ensures IsKey1(S("key1")) && !IsKey1(S("key2"))
  {
    assert S("value1").s[5] != S("value2").s[5];
    assert S("key1").s[3] != S("key2").s[3];
  }

  /** The other sample predicate: neither sample value is `anotherValue`. */
  lemma AnotherValueTests()
    ensures !IsAnotherValue(S("someValue")) && !IsAnotherValue(S("propertyValue"))
  {
    assert S("someValue").s[0] != S("anotherValue").s[0];
    assert S("propertyValue").s[0] != S("anotherValue").s[0];
  }

  /** A failing value constraint is reported at the root path (`value`). */
  lemma ValueAtRoot()
    ensures ApplyTo(OneConstraint(0, IsAnotherValue, ""), S("someValue"), "value").faults
      == [Fault("value", "", S("someValue"))]
  {
    OneConstraintFaults(0, IsAnotherValue, "", S("someValue"), "value");
    AnotherValueTests();
  }

  /** `properties { validate(Sample::property) { value { match(...) } } }` */
  function PropertySample(): Def {
    WithProperties(EmptyDef(), ps => ValidateProperty(ps, "property", _ => OneConstraint(0, IsAnotherValue, "")))
  }

  /** A property's faults are reported at `value.property`. */
  lemma PropertyPathScenario()
    ensures ApplyTo(PropertySample(), Obj("Sample", [("property", S("propertyValue"))]), "value").faults
      == [Fault("value.property", "", S("propertyValue"))]
  {
    var nested := OneConstraint(0, IsAnotherValue, "");
    var ps := [PropertyValidations("property", [nested])];
    var sample := Obj("Sample", [("property", S("propertyValue"))]);
    PropertySampleShape();
    PropertiesOnlyFaults(ps, sample, "value");
    SinglePropertyFaults("property", [nested], sample, "value");
    assert Property(sample, "property") == S("propertyValue");
    assert PropertyPath("value", "property") == "value.property";
    OneConstraintFaults(0, IsAnotherValue, "", S("propertyValue"), "value.property");
    AnotherValueTests();
    assert DefsFaults([nested], S("propertyValue"), "value.property")
      == Faults(nested, S("propertyValue"), "value.property") + DefsFaults([], S("propertyValue"), "value.property");
  }

  lemma PropertySampleShape()
    ensures PropertySample()
      == EmptyDef().(properties := PropertiesScope([PropertyValidations("property", [OneConstraint(0, IsAnotherValue, "")])]))
  {
  }

  /** A nested definition applied to two items reports the first item's faults, then the second's. */
  lemma TwoItemsFaults(e: Def, items: seq<(Val, string)>)
    requires |items| == 2
    ensures EachFaults(e, items) == Faults(e, items[0].0, items[0].1) + Faults(e, items[1].0, items[1].1)
  {
    assert items[1..][1..] == [];
    assert items[1..][0] == items[1];
    assert EachFaults(e, items[1..][1..]) == [];
    assert EachFaults(e, items[1..]) == Faults(e, items[1].0, items[1].1);
  }

  /** One constraint applied to two items: each item that fails it is reported at its own path, in order. */
  lemma OneConstraintOnTwo(id: PredId, test: Val -> bool, text: string, items: seq<(Val, string)>)
    requires |items| == 2
    ensures EachFaults(OneConstraint(id, test, text), items)
      == (if test(items[0].0) then [] else [Fault(items[0].1, text, items[0].0)])
       + (if test(items[1].0) then [] else [Fault(items[1].1, text, items[1].0)])
  {
    TwoItemsFaults(OneConstraint(id, test, text), items);
    OneConstraintFaults(id, test, text, items[0].0, items[0].1);
    OneConstraintFaults(id, test, text, items[1].0, items[1].1);
  }

  /** `elements { value { match(...) } }` */
  function ElementSample(): Def {
    WithElements(EmptyDef(), _ => OneConstraint(0, IsValue2, ""))
  }

  lemma ElementSampleItems()
    ensures ElementItems([S("value1"), S("value2")], "value") == [(S("value1"), "value[0]"), (S("value2"), "value[1]")]
  {
    assert NatToString(0) == "0" && NatToString(1) == "1";
    assert IndexPath("value", 0) == "value[0]" && IndexPath("value", 1) == "value[1]";
  }

  /** Element `0` of a list is reported at `value[0]`. */
  lemma ElementPathScenario()
    ensures ApplyTo(ElementSample(), L([S("value1"), S("value2")]), "value").faults
      == [Fault("value[0]", "", S("value1"))]
  {
    var items := [(S("value1"), "value[0]"), (S("value2"), "value[1]")];
    ElementSampleShape(L([S("value1"), S("value2")]));
    ElementSampleItems();
    OneConstraintOnTwo(0, IsValue2, "", items);
    SampleTests();
    assert EachFaults(OneConstraint(0, IsValue2, ""), items) == [Fault("value[0]", "", S("value1"))];
  }

  lemma ElementSampleShape(v: Val)
    ensures Faults(ElementSample(), v, "value")
      == if v.L? then EachFaults(OneConstraint(0, IsValue2, ""), ElementItems(v.elems, "value")) else []
  {
    var d := ElementSample();
    assert d == OnlyElements(d) && d.elements == Some(OneConstraint(0, IsValue2, ""));
    OnlyNestedFaults(d, v, "value");
  }

  /** `keys { value { match(...) } }` */
  function KeySample(): Def {
    WithKeys(EmptyDef(), _ => OneConstraint(0, IsKey1, ""))
  }

  lemma KeySampleItems()
    ensures KeyItems([(S("key1"), S("value")), (S("key2"), S("value"))], "value")
      == [(S("key1"), "value.keys[0]"), (S("key2"), "value.keys[1]")]
  {
    assert NatToString(0) == "0" && NatToString(1) == "1";
    assert KeyPath("value", 0) == "value.keys[0]" && KeyPath("value", 1) == "value.keys[1]";
  }

  /** Key `1` of a map is reported at `value.keys[1]`. */
  lemma KeyPathScenario()
    ensures ApplyTo(KeySample(), M([(S("key1"), S("value")), (S("key2"), S("value"))]), "value").faults
      == [Fault("value.keys[1]", "", S("key2"))]
  {
    var items := [(S("key1"), "value.keys[0]"), (S("key2"), "value.keys[1]")];
    KeySampleShape(M([(S("key1"), S("value")), (S("key2"), S("value"))]));
    KeySampleItems();
    OneConstraintOnTwo(0, IsKey1, "", items);
    SampleTests();
    assert EachFaults(OneConstraint(0, IsKey1, ""), items) == [Fault("value.keys[1]", "", S("key2"))];
  }

  lemma KeySampleShape(v: Val)
    ensures Faults(KeySample(), v, "value")
      == if v.M? then EachFaults(OneConstraint(0, IsKey1, ""), KeyItems(v.pairs, "value")) else []
  {
    var d := KeySample();
    assert d == OnlyKeys(d) && d.keys == Some(OneConstraint(0, IsKey1, ""));
    OnlyNestedFaults(d, v, "value");
  }

  /** `values { value { match(...) } }` */
  function ValueByKeySample(): Def {
    WithValues(EmptyDef(), _ => OneConstraint(0, IsValue2, ""))
  }

  lemma ValueByKeySampleItems()
    ensures ValueItems([(S("key1"), S("value1")), (S("key2"), S("value2"))], "value")
      == [(S("value1"), "value[key1]"), (S("value2"), "value[key2]")]
  {
    ShowString("key1");
    ShowString("key2");
    assert ValueByKeyPath("value", S("key1")) == "value[key1]";
    assert ValueByKeyPath("value", S("key2")) == "value[key2]";
  }

  /** The value of key `key1` is reported at `value[key1]`. */
  lemma ValueByKeyPathScenario()
    ensures ApplyTo(ValueByKeySample(), M([(S("key1"), S("value1")), (S("key2"), S("value2"))]), "value").faults
      == [Fault("value[key1]", "", S("value1"))]
  {
    var items := [(S("value1"), "value[key1]"), (S("value2"), "value[key2]")];
    ValueByKeySampleShape(M([(S("key1"), S("value1")), (S("key2"), S("value2"))]));
    ValueByKeySampleItems();
    OneConstraintOnTwo(0, IsValue2, "", items);
    SampleTests();
    assert EachFaults(OneConstraint(0, IsValue2, ""), items) == [Fault("value[key1]", "", S("value1"))];
  }

  lemma ValueByKeySampleShape(v: Val)
    ensures Faults(ValueByKeySample(), v, "value")
      == if v.M? then EachFaults(OneConstraint(0, IsValue2, ""), ValueItems(v.pairs, "value")) else []
  {
    var d := ValueByKeySample();
    assert d == OnlyValues(d) && d.values == Some(OneConstraint(0, IsValue2, ""));
    OnlyNestedFaults(d, v, "value");
  }

  /** `properties { validate(Owner::name) { value { isNotNull() } } }` */
  function NameNotNull(name: string): Def {
    WithProperties(EmptyDef(), ps => ValidateProperty(ps, name, _ => AliasOnly(0, IsNotNull)))
  }

  /**
   * A `null` owner does not skip its properties: each nested definition sees
   * `null`, so `isNotNull` on a property of a `null` owner is reported at
   * `path.name`.
   */
  lemma NullOwnerStillValidatesProperties(name: string, path: string)
    ensures ApplyTo(NameNotNull(name), Null, path).faults
      == [Fault(PropertyPath(path, name), "Must not be null", Null)]
  {
    var nested := AliasOnly(0, IsNotNull);
    var ps := [PropertyValidations(name, [nested])];
    var at := PropertyPath(path, name);
    var expected := [Fault(at, "Must not be null", Null)];
    NameNotNullShape(name);
    NotNullFaultsOnNull(at);
    assert DefsFaults([nested], Null, at) == expected by {
      assert DefsFaults([nested][1..], Null, at) == [];
    }
    SinglePropertyFaults(name, [nested], Null, path);
    PropertiesOnlyFaults(ps, Null, path);
  }

  /** The definition built by `NameNotNull` declares one property holding one `isNotNull` definition. */
  lemma NameNotNullShape(name: string)
    ensures NameNotNull(name)
      == EmptyDef().(properties := PropertiesScope([PropertyValidations(name, [AliasOnly(0, IsNotNull)])]))
  {
  }

  /** `isNotNull` alone, given `null`, reports one fault with its description. */
  lemma NotNullFaultsOnNull(at: string)
    ensures Faults(AliasOnly(0, IsNotNull), Null, at) == [Fault(at, "Must not be null", Null)]
  {
    AliasOnlyFaults(0, IsNotNull, Null, at);
    assert !Passes(IsNotNull, Null);
    assert Description(IsNotNull) == "Must not be null";
  }

  /** One validated property contributes the faults of its definitions at `path.name`. */
  lemma SinglePropertyFaults(name: string, defs: seq<Def>, owner: Val, path: string)
    ensures PropertyFaults([PropertyValidations(name, defs)], owner, path)
      == DefsFaults(defs, Property(owner, name), PropertyPath(path, name))
  {
    var ps := [PropertyValidations(name, defs)];
    assert ps[1..] == [];
  }

  /** A definition that declares only properties faults exactly as its properties scope does. */
  lemma PropertiesOnlyFaults(ps: seq<PropertyValidations>, v: Val, path: string)
    ensures Faults(EmptyDef().(properties := PropertiesScope(ps)), v, path) == PropertyFaults(ps, v, path)
  {
    OnlyOwnFaults(EmptyDef().(properties := PropertiesScope(ps)), v, path);
  }

  /** `entries { value { mapsKey(k to x) } }` */
  function MapsKeyOnEntries(id: PredId, k: Val, x: Val): Def {
    WithEntries(EmptyDef(), _ => AliasOnly(id, MapsKey((k, x))))
  }

  /** One entry satisfies `mapsKey(k to x)` exactly when its key is not `k` or its value is `x`. */
  lemma EntrySatisfiesMapsKey(id: PredId, k: Val, x: Val, key: Val, value: Val)
    ensures Satisfies(AliasOnly(id, MapsKey((k, x))), Entry(key, value)) <==> (key == k ==> value == x)
  {
    AliasOnlySatisfies(id, MapsKey((k, x)), Entry(key, value));
  }

  /** A definition holding one alias is satisfied exactly by the values the alias accepts. */
  lemma AliasOnlySatisfies(id: PredId, a: Alias, v: Val)
    ensures Satisfies(AliasOnly(id, a), v) <==> Passes(a, v)
  {
    NoFaultsIffSatisfied(AliasOnly(id, a), v, "");
    AliasOnlyFaults(id, a, v, "");
  }

  lemma {:induction false} EntriesSatisfyMapsKey(id: PredId, k: Val, x: Val, pairs: seq<(Val, Val)>, path: string)
    ensures AllSatisfy(AliasOnly(id, MapsKey((k, x))), EntryItems(pairs, path)) <==>
      forall i :: 0 <= i < |pairs| && pairs[i].0 == k ==> pairs[i].1 == x
    decreases |pairs|
  {
    var e := AliasOnly(id, MapsKey((k, x)));
    if |pairs| > 0 {
      var items := EntryItems(pairs, path);
      assert items[0].0 == Entry(pairs[0].0, pairs[0].1);
      EntrySatisfiesMapsKey(id, k, x, pairs[0].0, pairs[0].1);
      EntryItemsTail(pairs, path);
      EntriesSatisfyMapsKey(id, k, x, pairs[1..], path);
      AllSatisfyIgnoresPaths(e, items[1..], EntryItems(pairs[1..], path));
      assert (forall i :: 0 <= i < |pairs| && pairs[i].0 == k ==> pairs[i].1 == x) <==>
        (pairs[0].0 == k ==> pairs[0].1 == x) &&
        (forall i :: 0 <= i < |pairs[1..]| && pairs[1..][i].0 == k ==> pairs[1..][i].1 == x) by {
        forall i | 1 <= i < |pairs| ensures pairs[i] == pairs[1..][i - 1] { }
      }
    }
  }

  /** The entries of a map after the first carry the same values as those of the map's tail. */
  lemma EntryItemsTail(pairs: seq<(Val, Val)>, path: string)
    requires |pairs| > 0
    ensures |EntryItems(pairs, path)[1..]| == |EntryItems(pairs[1..], path)|
    ensures forall i :: 0 <= i < |pairs| - 1 ==>
      EntryItems(pairs, path)[1..][i].0 == EntryItems(pairs[1..], path)[i].0
  {
  }

  /**
   * A map passes `entries { mapsKey(k to x) }` exactly when every entry with
   * key `k` maps to `x`.
   */
  lemma MapsKeyValidation(id: PredId, k: Val, x: Val, pairs: seq<(Val, Val)>, path: string)
    ensures ApplyTo(MapsKeyOnEntries(id, k, x), M(pairs), path).faults == [] <==>
      forall i :: 0 <= i < |pairs| && pairs[i].0 == k ==> pairs[i].1 == x
  {
    NoFaultsIffSatisfied(MapsKeyOnEntries(id, k, x), M(pairs), path);
    EntriesSatisfyMapsKey(id, k, x, pairs, "");
  }
}
