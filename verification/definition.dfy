/**
 * The validation definition tree that a builder block fills in: a value
 * scope of (predicate, description) constraints, a properties scope mapping
 * property names to nested definitions, and four lazily created nested
 * definitions for elements, entries, keys and values.
 */
module Definition {
  import opened Options
  import opened Values

  /** Identity of a predicate object (a Kotlin lambda); constraints are keyed by it. */
  type PredId = nat

  /**
   * The description holder `match` returns, starting out empty. Every
   * `match` call makes a fresh holder: `gen` numbers the registrations of
   * the constraint's predicate, so the holders of one predicate differ.
   */
  datatype Descriptor = Descriptor(gen: nat, description: string)

  /** A registered predicate and the descriptor holding its description. */
  datatype Constraint = Constraint(id: PredId, test: Val -> bool, descriptor: Descriptor)

  /** What the caller keeps after `match`: the holder of the `gen`-th registration of predicate `id`. */
  datatype Handle = Handle(id: PredId, gen: nat)

  /** Whether `h` is the descriptor currently stored for constraint `c`. */
  predicate Holds(c: Constraint, h: Handle) {
    c.id == h.id && c.descriptor.gen == h.gen
  }

  predicate UniqueIds(cs: seq<Constraint>) {
    forall i, j :: 0 <= i < j < |cs| ==> cs[i].id != cs[j].id
  }

  /** An insertion-ordered map from predicate identity to descriptor. */
  type ConstraintMap = cs: seq<Constraint> | UniqueIds(cs)

  predicate HasId(cs: seq<Constraint>, id: PredId) {
    exists k :: 0 <= k < |cs| && cs[k].id == id
  }

  /** The value scope: constraints in registration order. */
  datatype ValueScope = ValueScope(constraints: ConstraintMap)

  /**
   * The generation of the next descriptor made for `id`: one past the one
   * stored for it, or the first when `id` is not registered.
   */
  function NextGen(cs: ConstraintMap, id: PredId): (g: nat)
    ensures !HasId(cs, id) ==> g == 0
    ensures forall k :: 0 <= k < |cs| && cs[k].id == id ==> g == cs[k].descriptor.gen + 1
  {
    if |cs| == 0 then 0
    else if cs[0].id == id then cs[0].descriptor.gen + 1
    else
      HasIdTail(cs, id);
      var g := NextGen(cs[1..], id);
      assert forall k :: 1 <= k < |cs| ==> cs[k] == cs[1..][k - 1];
      g
  }

  /**
   * `match(test)`: the map assignment `m[test] = Descriptor()`. A new
   * predicate is appended; a predicate already present keeps its position
   * and its original key, and gets a fresh, empty descriptor.
   */
  function Put(cs: ConstraintMap, id: PredId, test: Val -> bool): (r: ConstraintMap)
    ensures !HasId(cs, id) ==> r == cs + [Constraint(id, test, Descriptor(0, ""))]
    ensures HasId(cs, id) ==> |r| == |cs| && forall k :: 0 <= k < |cs| ==>
      r[k] == if cs[k].id == id then cs[k].(descriptor := Descriptor(cs[k].descriptor.gen + 1, "")) else cs[k]
    ensures HasId(r, id)
  {
    if |cs| == 0 then
      var r := [Constraint(id, test, Descriptor(0, ""))];
      assert r[0].id == id;
      r
    else if cs[0].id == id then
      [cs[0].(descriptor := Descriptor(cs[0].descriptor.gen + 1, ""))] + cs[1..]
    else
      var rest := Put(cs[1..], id, test);
      PutCons(cs, id, test, rest);
      [cs[0]] + rest
  }

  /** `Put` past a head with another identity: the head stays in front of what `Put` makes of the tail. */
  lemma PutCons(cs: ConstraintMap, id: PredId, test: Val -> bool, rest: ConstraintMap)
    requires |cs| > 0 && cs[0].id != id && HasId(rest, id)
    requires !HasId(cs[1..], id) ==> rest == cs[1..] + [Constraint(id, test, Descriptor(0, ""))]
    requires HasId(cs[1..], id) ==> |rest| == |cs[1..]| && forall k :: 0 <= k < |cs[1..]| ==>
      rest[k] == if cs[1..][k].id == id then cs[1..][k].(descriptor := Descriptor(cs[1..][k].descriptor.gen + 1, "")) else cs[1..][k]
    ensures UniqueIds([cs[0]] + rest) && HasId([cs[0]] + rest, id)
    ensures !HasId(cs, id) ==> [cs[0]] + rest == cs + [Constraint(id, test, Descriptor(0, ""))]
    ensures HasId(cs, id) ==> |[cs[0]] + rest| == |cs| && forall k :: 0 <= k < |cs| ==>
      ([cs[0]] + rest)[k] == if cs[k].id == id then cs[k].(descriptor := Descriptor(cs[k].descriptor.gen + 1, "")) else cs[k]
  {
    HasIdTail(cs, id);
    PutTailAvoidsHead(cs, id, test, rest);
    var r := [cs[0]] + rest;
    assert r[1..] == rest;
    assert HasId(r, id) by {
      var k :| 0 <= k < |rest| && rest[k].id == id;
      assert r[k + 1].id == id;
    }
    if HasId(cs, id) {
      forall k | 1 <= k < |cs| ensures r[k] == rest[k - 1] && cs[k] == cs[1..][k - 1] { }
    } else {
      assert cs == [cs[0]] + cs[1..];
    }
  }

  /** Past a head with another identity, `id` is present exactly when it is present in the tail. */
  lemma HasIdTail(cs: seq<Constraint>, id: PredId)
    requires |cs| > 0 && cs[0].id != id
    ensures HasId(cs, id) <==> HasId(cs[1..], id)
  {
    if HasId(cs, id) {
      var k :| 0 <= k < |cs| && cs[k].id == id;
      assert cs[1..][k - 1].id == id;
    }
    if HasId(cs[1..], id) {
      var k :| 0 <= k < |cs[1..]| && cs[1..][k].id == id;
      assert cs[k + 1].id == id;
    }
  }

  /**
   * What `Put` makes of the tail of a map whose head has another identity
   * still avoids the head's identity, so the head can be put back in front.
   */
  lemma PutTailAvoidsHead(cs: ConstraintMap, id: PredId, test: Val -> bool, rest: seq<Constraint>)
    requires |cs| > 0 && cs[0].id != id
    requires !HasId(cs[1..], id) ==> rest == cs[1..] + [Constraint(id, test, Descriptor(0, ""))]
    requires HasId(cs[1..], id) ==> |rest| == |cs[1..]| && forall k :: 0 <= k < |cs[1..]| ==>
      rest[k] == if cs[1..][k].id == id then cs[1..][k].(descriptor := Descriptor(cs[1..][k].descriptor.gen + 1, "")) else cs[1..][k]
    ensures forall k :: 0 <= k < |rest| ==> rest[k].id != cs[0].id
  {
    forall k | 0 <= k < |rest| ensures rest[k].id != cs[0].id {
      if !HasId(cs[1..], id) && k == |cs| - 1 {
      } else {
        assert cs[1..][k].id == rest[k].id;
        assert cs[1..][k] == cs[k + 1];
      }
    }
  }

  /**
   * `description(text)` on the descriptor `h`: the description of the
   * constraint that still stores `h` changes, and nothing else does. A
   * handle whose predicate was registered again since stores nowhere.
   */
  function SetDescription(cs: ConstraintMap, h: Handle, text: string): (r: ConstraintMap)
    ensures |r| == |cs|
    ensures forall k :: 0 <= k < |cs| ==>
      r[k] == if Holds(cs[k], h) then cs[k].(descriptor := cs[k].descriptor.(description := text)) else cs[k]
  {
    if |cs| == 0 then []
    else
      var head := if Holds(cs[0], h) then cs[0].(descriptor := cs[0].descriptor.(description := text)) else cs[0];
      var rest := SetDescription(cs[1..], h, text);
      var r := [head] + rest;
      assert forall k :: 1 <= k < |r| ==> r[k] == rest[k - 1];
      r
  }

  /**
   * `match(test)` on a value scope: the scope after the registration made by
   * `Put`, and the handle of the fresh descriptor, which is newer than every
   * descriptor the predicate had and which only the constraint for `test`
   * stores.
   */
  function Match(vs: ValueScope, id: PredId, test: Val -> bool): (r: (ValueScope, Handle))
    ensures r.1.id == id
    ensures HasId(r.0.constraints, id)
    ensures forall k :: 0 <= k < |r.0.constraints| ==>
      (Holds(r.0.constraints[k], r.1) <==> r.0.constraints[k].id == id)
    ensures forall k :: 0 <= k < |vs.constraints| && vs.constraints[k].id == id ==>
      r.1.gen > vs.constraints[k].descriptor.gen
    ensures r.0.constraints == Put(vs.constraints, id, test)
  {
    var cs := Put(vs.constraints, id, test);
    var h := Handle(id, NextGen(vs.constraints, id));
    assert forall k :: 0 <= k < |cs| && cs[k].id == id ==> cs[k].descriptor.gen == h.gen by {
      if !HasId(vs.constraints, id) {
        assert forall k :: 0 <= k < |vs.constraints| ==> vs.constraints[k].id != id;
      }
    }
    (ValueScope(cs), h)
  }

  /** `description(text)` on the handle `h` in a value scope. */
  function Describe(vs: ValueScope, h: Handle, text: string): (r: ValueScope)
    ensures |r.constraints| == |vs.constraints|
    ensures forall k :: 0 <= k < |vs.constraints| ==>
      r.constraints[k] ==
        if Holds(vs.constraints[k], h)
        then vs.constraints[k].(descriptor := vs.constraints[k].descriptor.(description := text))
        else vs.constraints[k]
  {
    ValueScope(SetDescription(vs.constraints, h, text))
  }

  /** The value scope after `description(t)` has been called on the handle `h` with each text of `texts` in turn. */
  function DescribeAll(vs: ValueScope, h: Handle, texts: seq<string>): ValueScope
    decreases texts
  {
    if |texts| == 0 then vs else DescribeAll(Describe(vs, h, texts[0]), h, texts[1..])
  }

  /**
   * Describing through one handle several times leaves the last text on
   * the constraint storing it and nothing else changed: positions,
   * identities, tests and every other constraint's description stay as
   * they were.
   */
  lemma {:induction false} DescriptionIsLastText(vs: ValueScope, h: Handle, texts: seq<string>)
    ensures var r := DescribeAll(vs, h, texts).constraints;
            |r| == |vs.constraints| &&
            forall k :: 0 <= k < |r| ==>
              r[k] == if Holds(vs.constraints[k], h) && |texts| > 0
                      then vs.constraints[k].(descriptor := vs.constraints[k].descriptor.(description := texts[|texts| - 1]))
                      else vs.constraints[k]
    decreases texts
  {
    if |texts| > 0 {
      var vs1 := Describe(vs, h, texts[0]);
      DescriptionIsLastText(vs1, h, texts[1..]);
      if |texts| > 1 {
        assert texts[1..][|texts[1..]| - 1] == texts[|texts| - 1];
      }
    }
  }

  /**
   * The fluent `match(test) description text`. A new predicate is appended
   * with that description; a predicate already registered stays where it
   * was, keeps its original test and takes a fresh descriptor holding the
   * new description.
   */
  function MatchDescribed(vs: ValueScope, id: PredId, test: Val -> bool, text: string): (r: ValueScope)
    ensures !HasId(vs.constraints, id) ==>
      r.constraints == vs.constraints + [Constraint(id, test, Descriptor(0, text))]
    ensures HasId(vs.constraints, id) ==>
      |r.constraints| == |vs.constraints| &&
      forall k :: 0 <= k < |vs.constraints| ==>
        r.constraints[k] ==
          if vs.constraints[k].id == id
          then vs.constraints[k].(descriptor := Descriptor(vs.constraints[k].descriptor.gen + 1, text))
          else vs.constraints[k]
  {
    MatchThenDescribe(vs, id, test, text);
    var (s, h) := Match(vs, id, test);
    Describe(s, h, text)
  }

  /** What `match(test)` followed by `description(text)` on the returned handle makes of a scope. */
  lemma MatchThenDescribe(vs: ValueScope, id: PredId, test: Val -> bool, text: string)
    ensures var (s, h) := Match(vs, id, test);
            var r := Describe(s, h, text);
            (!HasId(vs.constraints, id) ==>
               r.constraints == vs.constraints + [Constraint(id, test, Descriptor(0, text))]) &&
            (HasId(vs.constraints, id) ==>
               |r.constraints| == |vs.constraints| &&
               forall k :: 0 <= k < |vs.constraints| ==>
                 r.constraints[k] ==
                   if vs.constraints[k].id == id
                   then vs.constraints[k].(descriptor := Descriptor(vs.constraints[k].descriptor.gen + 1, text))
                   else vs.constraints[k])
  {
    var (s, h) := Match(vs, id, test);
    var r := Describe(s, h, text);
    var cs := vs.constraints;
    if !HasId(cs, id) {
      assert forall k :: 0 <= k < |cs| ==> cs[k].id != id;
      assert r.constraints == cs + [Constraint(id, test, Descriptor(0, text))];
    }
  }

  /**
   * Registering a predicate again makes the handle of its earlier `match`
   * stale: `description` called on that handle afterwards changes nothing,
   * whatever was described through it before.
   */
  lemma StaleHandleIsInert(vs: ValueScope, id: PredId, test1: Val -> bool, test2: Val -> bool, first: string, later: string)
    ensures var (s1, h1) := Match(vs, id, test1);
            var (s2, h2) := Match(Describe(s1, h1, first), id, test2);
            h2 != h1 && Describe(s2, h1, later) == s2
  {
    var (s1, h1) := Match(vs, id, test1);
    var d1 := Describe(s1, h1, first);
    var (s2, h2) := Match(d1, id, test2);
    DescribedStillHolds(vs, id, test1, first);
    NoHolderNoChange(s2, h1, later);
  }

  /** After `match(test) description text` the predicate is registered and its constraint stores the handle. */
  lemma DescribedStillHolds(vs: ValueScope, id: PredId, test: Val -> bool, text: string)
    ensures var (s1, h1) := Match(vs, id, test);
            var d1 := Describe(s1, h1, text).constraints;
            HasId(d1, id) && forall k :: 0 <= k < |d1| && d1[k].id == id ==> d1[k].descriptor.gen == h1.gen
  {
    var (s1, h1) := Match(vs, id, test);
    DescribeKeepsHolder(s1, h1, text);
  }

  /** `description` changes no identity or generation, so a registered holder of `h` still holds it. */
  lemma DescribeKeepsHolder(vs: ValueScope, h: Handle, text: string)
    requires HasId(vs.constraints, h.id)
    requires forall k :: 0 <= k < |vs.constraints| && vs.constraints[k].id == h.id ==> Holds(vs.constraints[k], h)
    ensures var d := Describe(vs, h, text).constraints;
            HasId(d, h.id) && forall k :: 0 <= k < |d| && d[k].id == h.id ==> d[k].descriptor.gen == h.gen
  {
    var d := Describe(vs, h, text).constraints;
    var k :| 0 <= k < |vs.constraints| && vs.constraints[k].id == h.id;
    assert d[k].id == h.id;
  }

  /** `description` on a handle no constraint stores leaves the scope as it was. */
  lemma NoHolderNoChange(vs: ValueScope, h: Handle, text: string)
    requires forall k :: 0 <= k < |vs.constraints| ==> !Holds(vs.constraints[k], h)
    ensures Describe(vs, h, text) == vs
  {
    assert Describe(vs, h, text).constraints == vs.constraints;
  }

  /** The nested definitions registered for one property, in declaration order. */
  datatype PropertyValidations = PropertyValidations(name: string, defs: seq<Def>)

  predicate UniqueNames(ps: seq<PropertyValidations>) {
    forall i, j :: 0 <= i < j < |ps| ==> ps[i].name != ps[j].name
  }

  predicate HasName(ps: seq<PropertyValidations>, name: string) {
    exists k :: 0 <= k < |ps| && ps[k].name == name
  }

  /** Past a head with another name, `name` is present exactly when it is present in the tail. */
  lemma HasNameTail(ps: seq<PropertyValidations>, name: string)
    requires |ps| > 0 && ps[0].name != name
    ensures HasName(ps, name) <==> HasName(ps[1..], name)
  {
    if HasName(ps, name) {
      var k :| 0 <= k < |ps| && ps[k].name == name;
      assert ps[1..][k - 1].name == name;
    }
    if HasName(ps[1..], name) {
      var k :| 0 <= k < |ps[1..]| && ps[1..][k].name == name;
      assert ps[k + 1].name == name;
    }
  }

  /** The properties scope: an insertion-ordered map from property name to its validations. */
  datatype PropertiesScope = PropertiesScope(validations: seq<PropertyValidations>)

  /**
   * A definition node. The nested element, entry, key and value definitions
   * are created on first use; `None` means the block was never declared.
   */
  datatype Def = Def(
    value: ValueScope,
    properties: PropertiesScope,
    elements: Option<Def>,
    entries: Option<Def>,
    keys: Option<Def>,
    values: Option<Def>)

  /** A freshly created definition, before any block has run on it. */
  function EmptyDef(): Def {
    Def(ValueScope([]), PropertiesScope([]), None, None, None, None)
  }

  /** The nested definition behind a lazy slot; a slot never declared is an empty definition. */
  function Nested(slot: Option<Def>): Def {
    slot.GetOr(EmptyDef())
  }

  /**
   * `validate(property) { ... }` on a properties scope: runs `block` on a
   * fresh definition and appends the result to the property's list, adding
   * the property at the end when it is new.
   */
  function AddValidation(ps: seq<PropertyValidations>, name: string, nested: Def): (r: seq<PropertyValidations>)
    ensures UniqueNames(ps) ==> UniqueNames(r)
    ensures !HasName(ps, name) ==> r == ps + [PropertyValidations(name, [nested])]
    ensures UniqueNames(ps) && HasName(ps, name) ==> |r| == |ps| && forall k :: 0 <= k < |ps| ==>
      r[k] == if ps[k].name == name then ps[k].(defs := ps[k].defs + [nested]) else ps[k]
  {
    if |ps| == 0 then
      [PropertyValidations(name, [nested])]
    else if ps[0].name == name then
      var r := [ps[0].(defs := ps[0].defs + [nested])] + ps[1..];
      assert HasName(ps, name);
      r
    else
      var rest := AddValidation(ps[1..], name, nested);
      HasNameTail(ps, name);
      assert UniqueNames(ps) ==> forall k :: 0 <= k < |rest| ==> rest[k].name != ps[0].name by {
        if UniqueNames(ps) {
          AddValidationTailAvoidsHead(ps, name, nested, rest);
        }
      }
      var r := [ps[0]] + rest;
      assert r[1..] == rest;
      r
  }

  /**
   * What `AddValidation` makes of the tail of a name-unique list whose head
   * has another name still avoids the head's name.
   */
  lemma AddValidationTailAvoidsHead(ps: seq<PropertyValidations>, name: string, nested: Def, rest: seq<PropertyValidations>)
    requires |ps| > 0 && ps[0].name != name && UniqueNames(ps)
    requires !HasName(ps[1..], name) ==> rest == ps[1..] + [PropertyValidations(name, [nested])]
    requires HasName(ps[1..], name) ==> |rest| == |ps[1..]| && forall k :: 0 <= k < |ps[1..]| ==>
      rest[k] == if ps[1..][k].name == name then ps[1..][k].(defs := ps[1..][k].defs + [nested]) else ps[1..][k]
    ensures forall k :: 0 <= k < |rest| ==> rest[k].name != ps[0].name
  {
    forall k | 0 <= k < |rest| ensures rest[k].name != ps[0].name {
      if !HasName(ps[1..], name) && k == |ps| - 1 {
      } else {
        assert ps[1..][k].name == rest[k].name;
        assert ps[1..][k] == ps[k + 1];
      }
    }
  }

  function ValidateProperty(ps: PropertiesScope, name: string, block: Def -> Def): (r: PropertiesScope)
    ensures UniqueNames(ps.validations) ==> UniqueNames(r.validations)
    ensures !HasName(ps.validations, name) ==>
      r.validations == ps.validations + [PropertyValidations(name, [Validation(block)])]
    ensures UniqueNames(ps.validations) && HasName(ps.validations, name) ==>
      |r.validations| == |ps.validations| &&
      forall k :: 0 <= k < |ps.validations| ==>
        r.validations[k] ==
          if ps.validations[k].name == name
          then ps.validations[k].(defs := ps.validations[k].defs + [Validation(block)])
          else ps.validations[k]
  {
    PropertiesScope(AddValidation(ps.validations, name, block(EmptyDef())))
  }

  /** `value { ... }`: the block runs on the definition's one value scope; nothing else changes. */
  function WithValue(d: Def, block: ValueScope -> ValueScope): (r: Def)
    ensures r.value == block(d.value)
    ensures r.(value := d.value) == d
  {
    d.(value := block(d.value))
  }

  /** `properties { ... }`: the block runs on the definition's one properties scope; nothing else changes. */
  function WithProperties(d: Def, block: PropertiesScope -> PropertiesScope): (r: Def)
    ensures r.properties == block(d.properties)
    ensures r.(properties := d.properties) == d
  {
    d.(properties := block(d.properties))
  }

  /**
   * `elements { ... }`: the block runs on the element definition, created
   * on first use and the same one on every later use; nothing else changes.
   */
  function WithElements(d: Def, block: Def -> Def): (r: Def)
    ensures r.elements == Some(block(Nested(d.elements)))
    ensures r.(elements := d.elements) == d
  {
    d.(elements := Some(block(Nested(d.elements))))
  }

  /** `entries { ... }`, like `elements` on the entry definition. */
  function WithEntries(d: Def, block: Def -> Def): (r: Def)
    ensures r.entries == Some(block(Nested(d.entries)))
    ensures r.(entries := d.entries) == d
  {
    d.(entries := Some(block(Nested(d.entries))))
  }

  /** `keys { ... }`, like `elements` on the key definition. */
  function WithKeys(d: Def, block: Def -> Def): (r: Def)
    ensures r.keys == Some(block(Nested(d.keys)))
    ensures r.(keys := d.keys) == d
  {
    d.(keys := Some(block(Nested(d.keys))))
  }

  /** `values { ... }`, like `elements` on the value-by-key definition. */
  function WithValues(d: Def, block: Def -> Def): (r: Def)
    ensures r.values == Some(block(Nested(d.values)))
    ensures r.(values := d.values) == d
  {
    d.(values := Some(block(Nested(d.values))))
  }

  /**
   * Because each scope is created once and reused, declaring a scope twice
   * runs the second block on what the first one built: the two blocks
   * accumulate into one scope rather than the second replacing the first.
   */
  lemma RepeatedBlocksAccumulate(d: Def, v1: ValueScope -> ValueScope, v2: ValueScope -> ValueScope,
                                 p1: PropertiesScope -> PropertiesScope, p2: PropertiesScope -> PropertiesScope,
                                 b1: Def -> Def, b2: Def -> Def)
    ensures WithValue(WithValue(d, v1), v2).value == v2(v1(d.value))
    ensures WithProperties(WithProperties(d, p1), p2).properties == p2(p1(d.properties))
    ensures WithElements(WithElements(d, b1), b2).elements == Some(b2(b1(Nested(d.elements))))
    ensures WithEntries(WithEntries(d, b1), b2).entries == Some(b2(b1(Nested(d.entries))))
    ensures WithKeys(WithKeys(d, b1), b2).keys == Some(b2(b1(Nested(d.keys))))
    ensures WithValues(WithValues(d, b1), b2).values == Some(b2(b1(Nested(d.values))))
  {
  }

  /** `validation(block)`: the block run once on a fresh definition, in which nothing is declared yet. */
  function Validation(block: Def -> Def): (r: Def)
    ensures r == block(Def(ValueScope([]), PropertiesScope([]), None, None, None, None))
  {
    block(EmptyDef())
  }
}
