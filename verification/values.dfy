/**
 * The concrete values a validation walks over. Kotlin's `Any?` is erased to
 * one variant type: the shapes the evaluator and the match aliases
 * distinguish at run time.
 */
module Values {
  import opened Options
  import opened Decimal

  /**
   * `L` is any `Iterable` (a list, a set in iteration order); `M` is a `Map`
   * as its entries in iteration order; `Obj` is an instance of a class with
   * named properties; `Entry` is a `Map.Entry`, `Pair` a Kotlin `Pair`.
   * A Kotlin `Map` is not an `Iterable` and a `String` is neither, so only
   * `L` has elements.
   */
  datatype Val =
    | Null
    | B(b: bool)
    | I(i: int)
    | S(s: string)
    | L(elems: seq<Val>)
    | M(pairs: seq<(Val, Val)>)
    | Obj(cls: string, fields: seq<(string, Val)>)
    | Entry(key: Val, value: Val)
    | Pair(first: Val, second: Val)

  /**
   * Position of the first field named `name`, or `|fields|` when there is
   * none: the first declaration wins, as a class declares each property once.
   */
  function FieldIndex(fields: seq<(string, Val)>, name: string): (k: nat)
    ensures k <= |fields|
    ensures k < |fields| ==> fields[k].0 == name
    ensures forall j :: 0 <= j < k ==> fields[j].0 != name
  {
    if |fields| == 0 then 0
    else if fields[0].0 == name then 0
    else 1 + FieldIndex(fields[1..], name)
  }

  /**
   * Reading property `name` of `owner` the way the evaluator does,
   * `value?.let { p.get(it) }`: a `null` owner reads as `null`; an object
   * reads its field; the built-in shapes expose the components a property
   * reference can name: `Map.Entry::key`/`value`, `Pair::first`/`second`,
   * `CharSequence::length`, `Collection::size`, and `Map::size`, `keys`,
   * `values` and `entries`. Any other name reads as `Null`.
   */
  function Property(owner: Val, name: string): (r: Val)
    ensures owner.Null? ==> r == Null
    ensures owner.Obj? && FieldIndex(owner.fields, name) < |owner.fields| ==>
      r == owner.fields[FieldIndex(owner.fields, name)].1
    ensures owner.Entry? && name == "key" ==> r == owner.key
    ensures owner.Entry? && name == "value" ==> r == owner.value
    ensures owner.Pair? && name == "first" ==> r == owner.first
    ensures owner.Pair? && name == "second" ==> r == owner.second
    ensures owner.S? && name == "length" ==> r == I(|owner.s|)
    ensures owner.L? && name == "size" ==> r == I(|owner.elems|)
    ensures owner.M? && name == "size" ==> r == I(|owner.pairs|)
    ensures owner.M? && name == "keys" ==>
      r.L? && |r.elems| == |owner.pairs| && forall i :: 0 <= i < |owner.pairs| ==> r.elems[i] == owner.pairs[i].0
    ensures owner.M? && name == "values" ==>
      r.L? && |r.elems| == |owner.pairs| && forall i :: 0 <= i < |owner.pairs| ==> r.elems[i] == owner.pairs[i].1
    ensures owner.M? && name == "entries" ==>
      r.L? && |r.elems| == |owner.pairs| &&
      forall i :: 0 <= i < |owner.pairs| ==> r.elems[i] == Entry(owner.pairs[i].0, owner.pairs[i].1)
  {
    match owner
    case Obj(_, fs) => if FieldIndex(fs, name) < |fs| then fs[FieldIndex(fs, name)].1 else Null
    case Entry(k, x) => if name == "key" then k else if name == "value" then x else Null
    case Pair(a, b) => if name == "first" then a else if name == "second" then b else Null
    case S(s) => if name == "length" then I(|s|) else Null
    case L(xs) => if name == "size" then I(|xs|) else Null
    case M(ps) =>
      if name == "size" then I(|ps|)
      else if name == "keys" then L(seq(|ps|, i requires 0 <= i < |ps| => ps[i].0))
      else if name == "values" then L(seq(|ps|, i requires 0 <= i < |ps| => ps[i].1))
      else if name == "entries" then L(seq(|ps|, i requires 0 <= i < |ps| => Entry(ps[i].0, ps[i].1)))
      else Null
    case _ => Null
  }

  /** `items` joined with ", ", as Kotlin's collection `toString` separates elements. */
  function JoinComma(items: seq<string>): string {
    if |items| == 0 then ""
    else if |items| == 1 then items[0]
    else items[0] + ", " + JoinComma(items[1..])
  }

  /**
   * Kotlin's `toString` of a value, used where a path embeds a map key
   * (`"$path[$k]"`): `null`, `true`/`false`, decimal integers, strings
   * verbatim, `[a, b]` for iterables, `{k=v, ...}` for maps,
   * `Name(p=v, ...)` for data classes, `k=v` for entries and `(a, b)` for pairs.
   */
  function Show(v: Val): string
    decreases v
  {
    match v
    case Null => "null"
    case B(b) => if b then "true" else "false"
    case I(i) => IntToString(i)
    case S(s) => s
    case L(xs) => "[" + JoinComma(seq(|xs|, k requires 0 <= k < |xs| => Show(xs[k]))) + "]"
    case M(ps) =>
      "{" + JoinComma(seq(|ps|, k requires 0 <= k < |ps| => ShowPair(ps[k], v))) + "}"
    case Obj(c, fs) =>
      c + "(" + JoinComma(seq(|fs|, k requires 0 <= k < |fs| => ShowField(fs[k], v))) + ")"
    case Entry(k, x) => Show(k) + "=" + Show(x)
    case Pair(a, b) => "(" + Show(a) + ", " + Show(b) + ")"
  }

  function ShowPair(p: (Val, Val), ghost owner: Val): string
    requires p < owner
    decreases owner, 0
  {
    Show(p.0) + "=" + Show(p.1)
  }

  function ShowField(f: (string, Val), ghost owner: Val): string
    requires f < owner
    decreases owner, 0
  {
    f.0 + "=" + Show(f.1)
  }

  /** A string key is rendered verbatim, so `map["a"]` is reported at `path[a]`. */
  lemma ShowString(s: string)
    ensures Show(S(s)) == s
  {
  }

  /** An integer key is rendered in decimal and can be read back from the path. */
  lemma ShowIntRoundTrip(i: int)
    ensures ParseInt(Show(I(i))) == Some(i)
  {
    IntToStringRoundTrip(i);
  }
}
