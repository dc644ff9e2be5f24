/**
 * The match aliases: ready-made constraints, each registered through
 * `matchAlias { match(p) description text }`. Convention: an alias whose
 * name starts with `is` rejects `null` (except `isNull`); every other alias
 * accepts `null`.
 */
module MatchAliases {
  import opened Options
  import opened Decimal
  import opened Values
  import opened Definition
  import opened Evaluator

  /** The token every alias returns so that aliases can be chained with `and`. */
  datatype MatchAlias = MatchAlias

  /** `a and b`: both aliases have already registered their constraints; the right one is returned. */
  function And(left: MatchAlias, right: MatchAlias): MatchAlias {
    right
  }

  /** `matchAlias { ... }`: runs the block once on the value scope. */
  function RunAlias(vs: ValueScope, block: ValueScope -> ValueScope): (r: (ValueScope, MatchAlias))
    ensures r.0 == block(vs)
  {
    (block(vs), MatchAlias)
  }

  /** The aliases and their arguments; comparable bounds are specialised to integers. */
  datatype Alias =
    | IsNull
    | IsNotNull
    | IsEqualTo(expected: Val)
    | IsOneOf(options: seq<Val>, optionsText: string)
    | IsTrue
    | IsFalse
    | IsBlankCharSequence
    | IsNotBlankCharSequence
    | IsEmptyCharSequence
    | IsNotEmptyCharSequence
    | IsEmptyCollection
    | IsNotEmptyCollection
    | IsEmptyMap
    | IsNotEmptyMap
    | HasLength(length: int)
    | HasLengthIn(lo: int, hi: int)
    | GreaterThan(bound: int)
    | LessThan(bound: int)
    | Maximum(bound: int)
    | Minimum(bound: int)
    | InRange(lo: int, hi: int)
    | HasSize(size: int)
    | HasSizeIn(lo: int, hi: int)
    | MapsKey(mapping: (Val, Val))
    | MapsValue(mapping: (Val, Val))
    | MapsFirst(mapping: (Val, Val))
    | MapsSecond(mapping: (Val, Val))

  /** The alias's Kotlin function name. */
  function Name(a: Alias): string {
    match a
    case IsNull => "isNull"
    case IsNotNull => "isNotNull"
    case IsEqualTo(_) => "isEqualTo"
    case IsOneOf(_, _) => "isOneOf"
    case IsTrue => "isTrue"
    case IsFalse => "isFalse"
    case IsBlankCharSequence => "isBlankCharSequence"
    case IsNotBlankCharSequence => "isNotBlankCharSequence"
    case IsEmptyCharSequence => "isEmptyCharSequence"
    case IsNotEmptyCharSequence => "isNotEmptyCharSequence"
    case IsEmptyCollection => "isEmptyCollection"
    case IsNotEmptyCollection => "isNotEmptyCollection"
    case IsEmptyMap => "isEmptyMap"
    case IsNotEmptyMap => "isNotEmptyMap"
    case HasLength(_) => "hasLength"
    case HasLengthIn(_, _) => "hasLengthIn"
    case GreaterThan(_) => "greaterThan"
    case LessThan(_) => "lessThan"
    case Maximum(_) => "maximum"
    case Minimum(_) => "minimum"
    case InRange(_, _) => "inRange"
    case HasSize(_) => "hasSize"
    case HasSizeIn(_, _) => "hasSizeIn"
    case MapsKey(_) => "mapsKey"
    case MapsValue(_) => "mapsValue"
    case MapsFirst(_) => "mapsFirst"
    case MapsSecond(_) => "mapsSecond"
  }

  /** `isEqualTo` and `isOneOf` take non-null arguments (`T & Any`). */
  predicate ArgumentsNonNull(a: Alias) {
    match a
    case IsEqualTo(x) => x != Null
    case IsOneOf(xs, _) => Null !in xs
    case _ => true
  }

  /**
   * Kotlin's `Char.isWhitespace()` on the JVM: the control characters
   * U+0009..U+000D and U+001C..U+001F, and the space, line and paragraph
   * separators of Unicode (categories Zs, Zl, Zp).
   */
  predicate IsWhitespace(c: char) {
    var n := c as int;
    (0x09 <= n <= 0x0D) || (0x1C <= n <= 0x20) || n == 0xA0 || n == 0x1680
    || (0x2000 <= n <= 0x200A) || n == 0x2028 || n == 0x2029 || n == 0x202F
    || n == 0x205F || n == 0x3000
  }

  /** `CharSequence.isBlank()`: empty or whitespace only. */
  predicate IsBlank(s: string) {
    forall k :: 0 <= k < |s| ==> IsWhitespace(s[k])
  }

  /** `range.contains(x)` for a closed range `lo..hi`. */
  predicate InClosedRange(x: int, lo: int, hi: int) {
    lo <= x <= hi
  }

  /** The non-null values the alias's Kotlin receiver type admits. */
  predicate Receives(a: Alias, v: Val) {
    match a
    case IsTrue | IsFalse => v.B?
    case IsBlankCharSequence | IsNotBlankCharSequence | IsEmptyCharSequence | IsNotEmptyCharSequence => v.S?
    case HasLength(_) | HasLengthIn(_, _) => v.S?
    case IsEmptyCollection | IsNotEmptyCollection | HasSize(_) | HasSizeIn(_, _) => v.L?
    case IsEmptyMap | IsNotEmptyMap => v.M?
    case GreaterThan(_) | LessThan(_) | Maximum(_) | Minimum(_) | InRange(_, _) => v.I?
    case MapsKey(_) | MapsValue(_) => v.Entry?
    case MapsFirst(_) | MapsSecond(_) => v.Pair?
    case _ => true
  }

  /**
   * The predicate each alias registers. A non-null value of a shape the
   * alias's Kotlin receiver type rules out is rejected, and `null` is
   * rejected exactly by the `is`-prefixed aliases other than `isNull`.
   */
  predicate Passes(a: Alias, v: Val)
    ensures Passes(a, v) && v != Null ==> Receives(a, v)
    ensures v == Null && ArgumentsNonNull(a) ==> (Passes(a, v) <==> a == IsNull || !IsPrefixed(Name(a)))
  {
    match a
    case IsNull => v == Null
    case IsNotNull => v != Null
    case IsEqualTo(x) => v == x
    case IsOneOf(xs, _) => v in xs
    case IsTrue => v == B(true)
    case IsFalse => v == B(false)
    case IsBlankCharSequence => v.S? && IsBlank(v.s)
    case IsNotBlankCharSequence => v.S? && !IsBlank(v.s)
    case IsEmptyCharSequence => v.S? && |v.s| == 0
    case IsNotEmptyCharSequence => v.S? && |v.s| != 0
    case IsEmptyCollection => v.L? && |v.elems| == 0
    case IsNotEmptyCollection => v.L? && |v.elems| != 0
    case IsEmptyMap => v.M? && |v.pairs| == 0
    case IsNotEmptyMap => v.M? && |v.pairs| != 0
    case HasLength(n) => v.Null? || (v.S? && |v.s| == n)
    case HasLengthIn(lo, hi) => v.Null? || (v.S? && InClosedRange(|v.s|, lo, hi))
    case GreaterThan(b) => v.Null? || (v.I? && v.i > b)
    case LessThan(b) => v.Null? || (v.I? && v.i < b)
    case Maximum(b) => v.Null? || (v.I? && v.i <= b)
    case Minimum(b) => v.Null? || (v.I? && v.i >= b)
    case InRange(lo, hi) => v.Null? || (v.I? && InClosedRange(v.i, lo, hi))
    case HasSize(n) => v.Null? || (v.L? && |v.elems| == n)
    case HasSizeIn(lo, hi) => v.Null? || (v.L? && InClosedRange(|v.elems|, lo, hi))
    case MapsKey(m) => v.Null? || (v.Entry? && (v.key != m.0 || v.value == m.1))
    case MapsValue(m) => v.Null? || (v.Entry? && (v.value != m.0 || v.key == m.1))
    case MapsFirst(m) => v.Null? || (v.Pair? && (v.first != m.0 || v.second == m.1))
    case MapsSecond(m) => v.Null? || (v.Pair? && (v.second != m.0 || v.first == m.1))
  }

  /** Kotlin's rendering of a closed integer range. */
  function RangeText(lo: int, hi: int): string {
    IntToString(lo) + ".." + IntToString(hi)
  }

  /** The integer written after `prefix` in `text`, when `text` starts with `prefix`. */
  function NumberAfter(prefix: string, text: string): Option<int> {
    if prefix <= text then ParseInt(text[|prefix|..]) else None
  }

  /** A number appended to a prefix reads back from behind it. */
  lemma NumberAfterPrefix(prefix: string, n: int)
    ensures NumberAfter(prefix, prefix + IntToString(n)) == Some(n)
  {
    assert (prefix + IntToString(n))[|prefix|..] == IntToString(n);
    IntToStringRoundTrip(n);
  }

  /**
   * The fixed description each alias attaches. `isOneOf` renders its vararg
   * array with the JVM's identity-based `toString`; that text is a parameter.
   * A single bound is written in decimal and reads back from the text.
   */
  function Description(a: Alias): (d: string)
    ensures a.HasLength? ==> NumberAfter("Length must be ", d) == Some(a.length)
    ensures a.HasSize? ==> NumberAfter("Size must be ", d) == Some(a.size)
    ensures a.GreaterThan? ==> NumberAfter("Must be greater than ", d) == Some(a.bound)
    ensures a.LessThan? ==> NumberAfter("Must be less than ", d) == Some(a.bound)
    ensures a.Maximum? ==> NumberAfter("Must be maximum ", d) == Some(a.bound)
    ensures a.Minimum? ==> NumberAfter("Must be minimum ", d) == Some(a.bound)
  {
    match a
    case IsNull => "Must be null"
    case IsNotNull => "Must not be null"
    case IsEqualTo(x) => "Must be equal to " + Show(x)
    case IsOneOf(_, text) => "Must be one of " + text
    case IsTrue => "Must be true"
    case IsFalse => "Must be false"
    case IsBlankCharSequence => "Must be blank char sequence"
    case IsNotBlankCharSequence => "Must be not blank char sequence"
    case IsEmptyCharSequence => "Must be empty char sequence"
    case IsNotEmptyCharSequence => "Must be not empty char sequence"
    case IsEmptyCollection => "Must be empty collection"
    case IsNotEmptyCollection => "Must be not empty collection"
    case IsEmptyMap => "Must be empty map"
    case IsNotEmptyMap => "Must be not empty map"
    case HasLength(n) => NumberAfterPrefix("Length must be ", n); "Length must be " + IntToString(n)
    case HasLengthIn(lo, hi) => "Length must be in range " + RangeText(lo, hi)
    case GreaterThan(b) => NumberAfterPrefix("Must be greater than ", b); "Must be greater than " + IntToString(b)
    case LessThan(b) => NumberAfterPrefix("Must be less than ", b); "Must be less than " + IntToString(b)
    case Maximum(b) => NumberAfterPrefix("Must be maximum ", b); "Must be maximum " + IntToString(b)
    case Minimum(b) => NumberAfterPrefix("Must be minimum ", b); "Must be minimum " + IntToString(b)
    case InRange(lo, hi) => "Must be in range " + RangeText(lo, hi)
    case HasSize(n) => NumberAfterPrefix("Size must be ", n); "Size must be " + IntToString(n)
    case HasSizeIn(lo, hi) => "Size must be in range " + RangeText(lo, hi)
    case MapsKey(m) => "Key " + Show(m.0) + " must be mapped to " + Show(m.1)
    case MapsValue(m) => "Value " + Show(m.0) + " must be mapped to " + Show(m.1)
    case MapsFirst(m) => "First " + Show(m.0) + " must be mapped to " + Show(m.1)
    case MapsSecond(m) => "Second " + Show(m.0) + " must be mapped to " + Show(m.1)
  }

  /**
   * Calling alias `a` on a value scope. `id` is the identity of the predicate
   * object the call creates: a fresh one for an alias capturing its
   * arguments; the JVM may share one object for a non-capturing predicate.
   */
  function Apply(vs: ValueScope, id: PredId, a: Alias): (ValueScope, MatchAlias) {
    RunAlias(vs, s => MatchDescribed(s, id, v => Passes(a, v), Description(a)))
  }

  /**
   * An alias registers exactly one constraint: with a fresh identity it is
   * appended, tests exactly the alias's predicate and carries its fixed
   * description; nothing registered earlier changes.
   */
  lemma AliasRegistersOneConstraint(vs: ValueScope, id: PredId, a: Alias)
    requires !HasId(vs.constraints, id)
    ensures var r := Apply(vs, id, a).0.constraints;
            |r| == |vs.constraints| + 1 && r[..|vs.constraints|] == vs.constraints &&
            r[|vs.constraints|].id == id &&
            r[|vs.constraints|].descriptor.description == Description(a) &&
            forall v :: r[|vs.constraints|].test(v) == Passes(a, v)
  {
  }

  /**
   * Chaining two aliases, `a1 and a2`, appends their constraints in the
   * order written, and the chain yields the token of the right one.
   */
  lemma ChainingAppendsInOrder(vs: ValueScope, id1: PredId, a1: Alias, id2: PredId, a2: Alias)
    requires !HasId(vs.constraints, id1) && !HasId(vs.constraints, id2) && id1 != id2
    ensures var (s1, m1) := Apply(vs, id1, a1);
            var (s2, m2) := Apply(s1, id2, a2);
            var n := |vs.constraints|;
            And(m1, m2) == m2 &&
            |s2.constraints| == n + 2 && s2.constraints[..n] == vs.constraints &&
            s2.constraints[n].id == id1 && s2.constraints[n + 1].id == id2 &&
            s2.constraints[n].descriptor.description == Description(a1) &&
            s2.constraints[n + 1].descriptor.description == Description(a2)
  {
    var s1 := Apply(vs, id1, a1).0;
    AliasRegistersOneConstraint(vs, id1, a1);
    assert !HasId(s1.constraints, id2) by {
      forall k | 0 <= k < |s1.constraints| ensures s1.constraints[k].id != id2 {
        if k < |vs.constraints| {
          assert s1.constraints[k] == vs.constraints[k];
        }
      }
    }
    AliasRegistersOneConstraint(s1, id2, a2);
  }

  /** Whether the alias's name carries the `is` prefix. */
  predicate IsPrefixed(name: string) {
    |name| >= 2 && name[0] == 'i' && name[1] == 's'
  }

  /** `isNull` and `isNotNull` split every value between them. */
  lemma NullAliasesComplementary(v: Val)
    ensures Passes(IsNull, v) <==> !Passes(IsNotNull, v)
  {
  }

  /**
   * `isOneOf(xs)` accepts a value exactly when `isEqualTo` accepts it for
   * one of the options; with a single option the two aliases coincide.
   */
  lemma OneOfIsSomeEqualTo(xs: seq<Val>, text: string, x: Val, v: Val)
    ensures Passes(IsOneOf(xs, text), v) <==> exists k :: 0 <= k < |xs| && Passes(IsEqualTo(xs[k]), v)
    ensures Passes(IsOneOf([x], text), v) <==> Passes(IsEqualTo(x), v)
  {
    if v in xs {
      var k :| 0 <= k < |xs| && xs[k] == v;
      assert Passes(IsEqualTo(xs[k]), v);
    }
  }

  /**
   * The ordering aliases in terms of one another, on every value: `inRange`
   * is `minimum` and `maximum` together, the strict bounds are the
   * inclusive ones moved by one, and on an integer a strict bound fails
   * exactly when the opposite inclusive bound holds.
   */
  lemma OrderingAliasesAgree(b: int, lo: int, hi: int, v: Val)
    ensures Passes(InRange(lo, hi), v) <==> Passes(Minimum(lo), v) && Passes(Maximum(hi), v)
    ensures Passes(GreaterThan(b), v) <==> Passes(Minimum(b + 1), v)
    ensures Passes(LessThan(b), v) <==> Passes(Maximum(b - 1), v)
    ensures v.I? ==> (Passes(GreaterThan(b), v) <==> !Passes(Maximum(b), v))
    ensures v.I? ==> (Passes(LessThan(b), v) <==> !Passes(Minimum(b), v))
  {
  }

  /**
   * A range alias over the one-point range `n..n` is the exact alias:
   * `hasLengthIn(n..n)` is `hasLength(n)`, `hasSizeIn(n..n)` is
   * `hasSize(n)`, and `inRange(n..n)` accepts `null` and `n`.
   */
  lemma OnePointRanges(n: int, v: Val)
    ensures Passes(HasLengthIn(n, n), v) <==> Passes(HasLength(n), v)
    ensures Passes(HasSizeIn(n, n), v) <==> Passes(HasSize(n), v)
    ensures Passes(InRange(n, n), v) <==> Passes(IsNull, v) || Passes(IsEqualTo(I(n)), v)
  {
  }

  /**
   * `hasLength` and `hasSize` test the value's `length` and `size`
   * properties, as a `validate(CharSequence::length)` or
   * `validate(Collection::size)` block would read them.
   */
  lemma LengthAndSizeReadProperties(n: int, v: Val)
    ensures Passes(HasLength(n), v) <==> v.Null? || (v.S? && Property(v, "length") == I(n))
    ensures Passes(HasSize(n), v) <==> v.Null? || (v.L? && Property(v, "size") == I(n))
  {
  }

  /** On a non-null value the empty and not-empty aliases are complementary. */
  lemma EmptinessAliases(s: string, xs: seq<Val>, pairs: seq<(Val, Val)>)
    ensures Passes(IsEmptyCharSequence, S(s)) <==> !Passes(IsNotEmptyCharSequence, S(s))
    ensures Passes(IsEmptyCollection, L(xs)) <==> !Passes(IsNotEmptyCollection, L(xs))
    ensures Passes(IsEmptyMap, M(pairs)) <==> !Passes(IsNotEmptyMap, M(pairs))
    ensures Passes(IsBlankCharSequence, S(s)) <==> !Passes(IsNotBlankCharSequence, S(s))
    ensures Passes(IsEmptyCharSequence, S(s)) ==> Passes(IsBlankCharSequence, S(s))
  {
  }

  /**
   * The mapping aliases agree across shapes: `mapsKey` on an entry is
   * `mapsFirst` on the pair with the same components, `mapsValue` is
   * `mapsSecond`, and `mapsValue` on an entry is `mapsKey` on the entry with
   * key and value swapped.
   */
  lemma MappingAliasesAgree(m: (Val, Val), a: Val, b: Val)
    ensures Passes(MapsKey(m), Entry(a, b)) <==> Passes(MapsFirst(m), Pair(a, b))
    ensures Passes(MapsValue(m), Entry(a, b)) <==> Passes(MapsSecond(m), Pair(a, b))
    ensures Passes(MapsValue(m), Entry(b, a)) <==> Passes(MapsKey(m), Entry(a, b))
  {
  }

  /**
   * Evaluated, an alias alone in a value scope yields no fault when its
   * predicate holds, and otherwise exactly one fault at the path with the
   * alias's description and the value.
   */
  lemma AliasFaults(id: PredId, a: Alias, v: Val, path: string)
    ensures var cs := Apply(ValueScope([]), id, a).0.constraints;
            ConstraintFaults(cs, v, path) ==
              if Passes(a, v) then [] else [Fault(path, Description(a), v)]
  {
    AliasRegistersOneConstraint(ValueScope([]), id, a);
    var cs := Apply(ValueScope([]), id, a).0.constraints;
    assert cs[1..] == [];
  }
}
