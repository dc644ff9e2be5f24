# validsl in Dafny

A model of the core of **validsl**, a Kotlin DSL for validating values. With
the DSL a caller builds a *validation definition*, which has these parts:

- a **value scope**: predicates registered with `match { ... }`, each with a
  `description` attached;
- a **properties scope**: for each property, a list of nested definitions;
- four lazily created nested definitions for the **elements** of an
  iterable, and for the **entries**, **keys** and **values** of a map.

`applyTo(value, path)` walks the definition over a value and collects
**faults**. Each fault records a path (such as `Sample.items[0]` or
`value[key1]`), a description and the offending value. The result exposes
`success { }` and `fail { }` callbacks.

`validationCaching` memoises the definition built by a builder block, keyed
by the identity of that block. The **match aliases** are ready-made
constraints: `isNotNull()`, `hasLength(n)`, `inRange(a..b)`, `mapsKey(k to v)`
and the others. They can be chained with `and`.

The modules follow the program's structure:

| file | module | what it holds |
|---|---|---|
| `options.dfy` | `Options` | `Option` |
| `decimal.dfy` | `Decimal` | Kotlin's decimal `Int.toString`, with its parser for the round trip |
| `values.dfy` | `Values` | the values validated (`Val`), property reads, Kotlin `toString` of a value |
| `definition.dfy` | `Definition` | value scope (insertion-ordered predicate map), descriptors and their handles, properties scope, the definition tree, builder operations |
| `evaluator.dfy` | `Evaluator` | `applyTo`, fault paths, `validate`, `success`/`fail` |
| `evaluator_laws.dfy` | `EvaluatorLaws` | properties of the evaluator: when it reports nothing, where each fault sits, the order of faults |
| `cache.dfy` | `ValidationCache` | the memo cache |
| `match_aliases.dfy` | `MatchAliases` | `and`, `matchAlias`, the aliases, their null convention |
| `scenarios.dfy` | `Scenarios` | whole definitions built through the builder operations and evaluated |

Modelling choices:

- **Builder blocks** are state transformers. A block is `Def -> Def`, or
  `ValueScope -> ValueScope`, and so on, and `validation(block)` runs it on
  an empty definition.
- **Identities.**
  - A predicate passed to `match` is a map key compared by identity. It is
    represented by a `PredId` carried along with its test.
  - Every `match` call stores a new description holder. A holder is told
    apart from the earlier ones of the same predicate by a generation
    number, and the `Handle` that `match` returns names it. `description`
    on a handle reaches only the constraint that still stores that holder.
  - A builder block in the cache is keyed the same way, by a `BlockId`.
- **Values.**
  - Kotlin's `Any?` is the datatype `Val`: null, booleans, integers,
    strings, lists, maps (entries in iteration order), objects with named
    properties, map entries and pairs.
  - Comparable bounds of the ordering aliases are specialised to integers.
- **Order of faults.** Properties come first and the value's own
  constraints second (`ValidslImpl.kt:110-111`), then elements, entries,
  keys and values by key.
- **Null owners.** A `null` owner still runs its property definitions,
  each on `null` (`ValidslImpl.kt:134`).
- **The cache** stores a definition only after its block has run
  (`ValidslCache.kt:50-51`). While the block runs, the block itself is not
  yet a key.

## Model

| member | source | states |
|---|---|---|
| Decimal.NatToStringRoundTrip | src/main/kotlin/ru/potatophobe/validsl/ValidslImpl.kt:112 | the decimal index written into an element path (`path[i]`) reads back as `i` |
| Decimal.NatToStringInjective | src/main/kotlin/ru/potatophobe/validsl/ValidslImpl.kt:112-115 | distinct indices give distinct index texts, so sibling element, entry and key paths never coincide |
| Values.Property | src/main/kotlin/ru/potatophobe/validsl/ValidslImpl.kt:134 | `value?.let { p.get(it) }`: a `null` owner reads as `null`; an object reads its property; an entry reads `key`/`value`, a pair `first`/`second`, a string `length`, a collection `size`, a map `size`, `keys`, `values` and `entries` |
| Values.ShowString | src/main/kotlin/ru/potatophobe/validsl/ValidslImpl.kt:116 | a string map key appears verbatim in the value-by-key path `path[key]` |
| Values.ShowIntRoundTrip | src/main/kotlin/ru/potatophobe/validsl/ValidslImpl.kt:116 | an integer map key appears in decimal in `path[key]` and reads back as the key |
| Definition.Put | src/main/kotlin/ru/potatophobe/validsl/ValidslImpl.kt:140-144 | the map assignment made by `match`: a new predicate is appended with an empty description; an existing predicate keeps its position and original test and gets a fresh, empty descriptor; nothing else changes; predicate identities stay unique |
| Definition.Match | src/main/kotlin/ru/potatophobe/validsl/ValidslImpl.kt:142-144 | after `match(p)` the predicate is registered: a new one is appended with an empty description, an existing one stays in place with its test and gets a fresh empty descriptor, and nothing else changes; the returned handle is newer than any descriptor the predicate had, and exactly that predicate's constraint stores it |
| Definition.Describe | src/main/kotlin/ru/potatophobe/validsl/ValidslImpl.kt:157-159 | `description(text)` on a value scope sets the text on the one constraint storing the handle's descriptor and changes nothing else |
| Definition.SetDescription | src/main/kotlin/ru/potatophobe/validsl/ValidslImpl.kt:157-159 | `description(text)` changes the description of the one constraint still storing the handle's descriptor; order, tests and every other constraint are unchanged |
| Definition.DescriptionIsLastText | src/main/kotlin/ru/potatophobe/validsl/ValidslImpl.kt:154-159 | through one handle, a description is `""` until set and afterwards the last text given; nothing else changes |
| Definition.StaleHandleIsInert | src/main/kotlin/ru/potatophobe/validsl/ValidslImpl.kt:140-159 | after the same predicate is registered again, `description` on the handle from the earlier `match` changes nothing, because the map now holds a new descriptor |
| Definition.MatchDescribed | src/main/kotlin/ru/potatophobe/validsl/ValidslImpl.kt:142-159 | `match(p) description t`: a new predicate is appended as `(p, t)`; a re-registered predicate stays in place with its original test and a fresh descriptor carrying `t`; the others are untouched |
| Definition.WithValue | src/main/kotlin/ru/potatophobe/validsl/ValidslImpl.kt:80-82 | `value { block }` runs the block on the definition's one value scope and changes no other scope |
| Definition.WithProperties | src/main/kotlin/ru/potatophobe/validsl/ValidslImpl.kt:84-86 | `properties { block }` runs the block on the definition's one properties scope and changes no other scope |
| Definition.WithElements | src/main/kotlin/ru/potatophobe/validsl/ValidslImpl.kt:88-91 | `elements { block }` runs the block on the element definition, empty on first use, and changes no other scope |
| Definition.WithEntries | src/main/kotlin/ru/potatophobe/validsl/ValidslImpl.kt:93-96 | `entries { block }` runs the block on the entry definition, empty on first use, and changes no other scope |
| Definition.WithKeys | src/main/kotlin/ru/potatophobe/validsl/ValidslImpl.kt:98-101 | `keys { block }` runs the block on the key definition, empty on first use, and changes no other scope |
| Definition.WithValues | src/main/kotlin/ru/potatophobe/validsl/ValidslImpl.kt:103-106 | `values { block }` runs the block on the value-by-key definition, empty on first use, and changes no other scope |
| Definition.RepeatedBlocksAccumulate | src/main/kotlin/ru/potatophobe/validsl/ValidslImpl.kt:73-106 | each scope is created once and reused, so a second block on the same scope works on what the first built instead of replacing it |
| Definition.Validation | src/main/kotlin/ru/potatophobe/validsl/ValidslImpl.kt:41-44 | `validation(block)` runs the block once on a fresh definition, in which no scope has been used |
| Definition.AddValidation | src/main/kotlin/ru/potatophobe/validsl/ValidslImpl.kt:126-131 | a new property is appended with the one definition; an existing property keeps its position and gets the definition appended to its list; other properties are untouched; property names stay unique |
| Definition.ValidateProperty | src/main/kotlin/ru/potatophobe/validsl/ValidslImpl.kt:126-131 | `validate(property) { block }` builds `block` on a fresh definition and adds it to that property as `AddValidation` does |
| Evaluator.ConstraintFaults | src/main/kotlin/ru/potatophobe/validsl/ValidslImpl.kt:146-151 | at most one fault per constraint, every fault at the given path carrying the value, and no fault exactly when every predicate holds |
| Evaluator.ApplyTo | src/main/kotlin/ru/potatophobe/validsl/ValidslImpl.kt:108-119 | the result carries the validated value unchanged |
| Evaluator.Validate | src/main/kotlin/ru/potatophobe/validsl/ValidslImpl.kt:29-32 | `validate(value, type, block)` returns the value unchanged |
| Evaluator.Success | src/main/kotlin/ru/potatophobe/validsl/ValidslImpl.kt:59-61 | the block runs exactly when there are no faults, on the value; the same result is returned for chaining |
| Evaluator.Fail | src/main/kotlin/ru/potatophobe/validsl/ValidslImpl.kt:63-65 | the block runs exactly when there are faults, on the value and the faults; the same result is returned |
| Evaluator.SuccessThenFailRunsExactlyOne | src/main/kotlin/ru/potatophobe/validsl/ValidslImpl.kt:59-65 | `success { a } fail { b }` runs exactly one of `a` and `b` |
| EvaluatorLaws.FailingFrom | src/main/kotlin/ru/potatophobe/validsl/ValidslImpl.kt:147-148 | the positions of the failing constraints, strictly increasing, each one failing, and none left out |
| EvaluatorLaws.ConstraintFaultsFrom | src/main/kotlin/ru/potatophobe/validsl/ValidslImpl.kt:146-151 | the faults of a value scope correspond one to one and in order to its failing constraints, each carrying that constraint's description |
| EvaluatorLaws.OneFaultPerFailingConstraint | src/main/kotlin/ru/potatophobe/validsl/ValidslImpl.kt:146-151 | the same for the whole scope: fault `k` is the `k`-th failing constraint, in registration order |
| EvaluatorLaws.FaultsEmptyIff | src/main/kotlin/ru/potatophobe/validsl/ValidslImpl.kt:108-119 | no faults exactly when the value satisfies the definition recursively; the paths play no part |
| EvaluatorLaws.NoFaultsIffSatisfied | src/main/kotlin/ru/potatophobe/validsl/ValidslImpl.kt:108-151 | `applyTo` reports nothing exactly when every predicate reached holds on its value: properties, value, elements, entries, keys, values by key |
| EvaluatorLaws.MapScopesAgreeWithMapProperties | src/main/kotlin/ru/potatophobe/validsl/ValidslImpl.kt:114-116 | the keys, values-by-key and entries scopes accept a map exactly when an elements scope on the map's `keys`, `values` and `entries` properties would |
| EvaluatorLaws.EntryComponentsMatchMapScopes | src/main/kotlin/ru/potatophobe/validsl/ValidslImpl.kt:114-116 | the `key` and `value` of the entry visited at position `i` are the key and the value the keys and values scopes visit at `i` |
| EvaluatorLaws.UnconstrainedSatisfied | src/main/kotlin/ru/potatophobe/validsl/ValidslImpl.kt:108-151 | a definition with no predicate anywhere in its tree is satisfied by every value |
| EvaluatorLaws.NoConstraintsNoFaults | src/main/kotlin/ru/potatophobe/validsl/ValidslImpl.kt:108-151 | a definition with no predicate anywhere reports no fault on any value at any path |
| EvaluatorLaws.EmptyDefinitionNoFaults | src/main/kotlin/ru/potatophobe/validsl/ValidslImpl.kt:72-78 | a freshly created definition, with every scope still unused, accepts every value |
| EvaluatorLaws.FaultPathsExtendFrom | src/main/kotlin/ru/potatophobe/validsl/ValidslImpl.kt:108-136 | every fault path extends the path it was evaluated at |
| EvaluatorLaws.FaultPathsExtendRoot | src/main/kotlin/ru/potatophobe/validsl/ValidslImpl.kt:108-136 | every fault reported by `applyTo(v, path)` has `path` as a prefix of its path |
| EvaluatorLaws.ValueFaultReported | src/main/kotlin/ru/potatophobe/validsl/ValidslImpl.kt:111 | a failing value constraint is reported at the root path with its description and the value |
| EvaluatorLaws.PropertyFaultReported | src/main/kotlin/ru/potatophobe/validsl/ValidslImpl.kt:134 | a fault of a nested property definition is reported by the owner, at `path.name`, on the property's value (`null` for a `null` owner) |
| EvaluatorLaws.ElementFaultReported | src/main/kotlin/ru/potatophobe/validsl/ValidslImpl.kt:112 | a fault of element `i` of an iterable appears among the owner's faults, at `path[i]` |
| EvaluatorLaws.EntryFaultReported | src/main/kotlin/ru/potatophobe/validsl/ValidslImpl.kt:114 | a fault of entry `i` of a map appears at `path.entries[i]`, on the entry `key=value` |
| EvaluatorLaws.KeyFaultReported | src/main/kotlin/ru/potatophobe/validsl/ValidslImpl.kt:115 | a fault of key `i` of a map appears at `path.keys[i]` |
| EvaluatorLaws.ValueByKeyFaultReported | src/main/kotlin/ru/potatophobe/validsl/ValidslImpl.kt:116 | a fault of the value under key `k` appears at `path[k]`, with `k` rendered by `toString` |
| EvaluatorLaws.ElementsOnlyForIterables | src/main/kotlin/ru/potatophobe/validsl/ValidslImpl.kt:112 | the elements definition has no effect on a value that is not an iterable |
| EvaluatorLaws.MapScopesOnlyForMaps | src/main/kotlin/ru/potatophobe/validsl/ValidslImpl.kt:113-117 | the entries, keys and values definitions have no effect on a value that is not a map |
| EvaluatorLaws.DeclarationOrder | src/main/kotlin/ru/potatophobe/validsl/ValidslImpl.kt:109-118 | the faults are the concatenation, in this order, of what properties, value, elements, entries, keys and values by key report each on its own |
| EvaluatorLaws.UndeclaredScopeIsEmpty | src/main/kotlin/ru/potatophobe/validsl/ValidslImpl.kt:75-78 | a nested scope never declared behaves like a declared but empty one |
| ValidationCache.GetValidation | src/main/kotlin/ru/potatophobe/validsl/ValidslCache.kt:49-52 | on a hit, the stored definition comes back and the cache is unchanged; on a miss, the block is built once on a fresh definition and stored; afterwards the block is a key and every other entry is unchanged |
| ValidationCache.ValidationCaching | src/main/kotlin/ru/potatophobe/validsl/ValidslCache.kt:41-43 | `validationCaching(block)` returns the definition the cache holds for the block after the lookup; the block is run only if it was not cached, and a cached definition comes back unchanged |
| ValidationCache.ValidateCaching | src/main/kotlin/ru/potatophobe/validsl/ValidslCache.kt:29-31 | `validateCaching` returns the value unchanged |
| ValidationCache.SecondLookupHits | src/main/kotlin/ru/potatophobe/validsl/ValidslCache.kt:49-52 | a second lookup of the same block hits: the same definition, no change, at most one build in total |
| ValidationCache.LookupKeepsCoherence | src/main/kotlin/ru/potatophobe/validsl/ValidslCache.kt:49-52 | if every entry holds what its block builds, that stays true after a lookup, and the lookup returns what the block builds |
| ValidationCache.CachingIsTransparent | src/main/kotlin/ru/potatophobe/validsl/ValidslCache.kt:28-31 | on such a cache, `validateCaching` gives exactly the result of the uncached `validate` |
| ValidationCache.After | src/main/kotlin/ru/potatophobe/validsl/ValidslCache.kt:49-52 | after a lookup the block is a key, and a build happened only if it was not one before |
| ValidationCache.BuildsOncePerBlock | src/main/kotlin/ru/potatophobe/validsl/ValidslCache.kt:45-52 | over any sequence of lookups, the builds number exactly the distinct blocks not already cached, so a block is built at most once |
| ValidationCache.LookupAllKeys | src/main/kotlin/ru/potatophobe/validsl/ValidslCache.kt:45-52 | after a sequence of lookups, the keys are exactly the earlier keys plus the blocks looked up |
| MatchAliases.RunAlias | src/main/kotlin/ru/potatophobe/validsl/MatchAliases.kt:29-32 | `matchAlias { block }` runs its block once on the scope it was called on |
| MatchAliases.Passes | src/main/kotlin/ru/potatophobe/validsl/MatchAliases.kt:39-277 | every alias accepts a non-null value only if it has the alias's receiver shape; the documented null convention holds for every alias: `null` fails exactly the `is`-prefixed aliases other than `isNull` and passes every other one |
| MatchAliases.Description | src/main/kotlin/ru/potatophobe/validsl/MatchAliases.kt:155-228 | the bound of `hasLength`, `hasSize`, `greaterThan`, `lessThan`, `maximum` and `minimum` is written in decimal after the fixed text and reads back from the description |
| MatchAliases.AliasRegistersOneConstraint | src/main/kotlin/ru/potatophobe/validsl/MatchAliases.kt:29-32 | an alias appends exactly one constraint whose predicate is the alias's test and whose description is its fixed text; earlier constraints are unchanged |
| MatchAliases.ChainingAppendsInOrder | src/main/kotlin/ru/potatophobe/validsl/MatchAliases.kt:24 | `a1 and a2` registers both constraints in the order written and yields the right-hand token |
| MatchAliases.NullAliasesComplementary | src/main/kotlin/ru/potatophobe/validsl/MatchAliases.kt:39-49 | `isNull` and `isNotNull` accept complementary sets of values |
| MatchAliases.OneOfIsSomeEqualTo | src/main/kotlin/ru/potatophobe/validsl/MatchAliases.kt:57-67 | `isOneOf(xs)` accepts exactly what `isEqualTo(x)` accepts for some option `x`; with one option the two aliases coincide |
| MatchAliases.EmptinessAliases | src/main/kotlin/ru/potatophobe/validsl/MatchAliases.kt:89-149 | on a non-null value, each empty/not-empty and blank/not-blank pair is complementary, and an empty string is blank |
| MatchAliases.OrderingAliasesAgree | src/main/kotlin/ru/potatophobe/validsl/MatchAliases.kt:187-221 | `inRange(lo..hi)` is `minimum(lo)` and `maximum(hi)` together; `greaterThan(b)` is `minimum(b+1)` and `lessThan(b)` is `maximum(b-1)`; on an integer a strict bound fails exactly when the opposite inclusive bound holds |
| MatchAliases.OnePointRanges | src/main/kotlin/ru/potatophobe/validsl/MatchAliases.kt:155-237 | over the range `n..n`, `hasLengthIn` is `hasLength(n)`, `hasSizeIn` is `hasSize(n)`, and `inRange` accepts exactly `null` and `n` |
| MatchAliases.LengthAndSizeReadProperties | src/main/kotlin/ru/potatophobe/validsl/MatchAliases.kt:155-229 | `hasLength(n)` and `hasSize(n)` pass on `null` and otherwise test the value's `length` and `size` properties against `n` |
| MatchAliases.MappingAliasesAgree | src/main/kotlin/ru/potatophobe/validsl/MatchAliases.kt:243-277 | `mapsKey` on an entry is `mapsFirst` on the pair with the same components, `mapsValue` is `mapsSecond`, and `mapsValue` is `mapsKey` with key and value swapped |
| MatchAliases.AliasFaults | src/main/kotlin/ru/potatophobe/validsl/MatchAliases.kt:29-32 | evaluated alone, an alias yields no fault when it accepts the value, and otherwise one fault with its description |
| Scenarios.OneConstraintIsBuilt | src/main/kotlin/ru/potatophobe/validsl/ValidslImpl.kt:142-159 | `value { match(p) description t }` on a fresh definition holds exactly one constraint: `p` with a first descriptor carrying `t` |
| Scenarios.OneConstraintFaults | src/main/kotlin/ru/potatophobe/validsl/ValidslImpl.kt:146-151 | a definition with one constraint reports one fault, with that constraint's description, exactly when the test fails |
| Scenarios.AliasOnlyIsBuilt | src/main/kotlin/ru/potatophobe/validsl/MatchAliases.kt:29-32 | `value { alias }` built through the builder operations reports, on every value, the same faults as one constraint testing the alias with its description |
| Scenarios.AliasOnlySatisfies | src/main/kotlin/ru/potatophobe/validsl/MatchAliases.kt:29-32 | a definition holding one alias is satisfied by exactly the values the alias accepts |
| Scenarios.ValueAtRoot | src/test/kotlin/ru/potatophobe/validsl/ValidateScopeImplTest.kt:76-89 | a failing value constraint is reported at path `value` |
| Scenarios.PropertyPathScenario | src/test/kotlin/ru/potatophobe/validsl/ValidateScopeImplTest.kt:37-54 | a failing constraint on `Sample::property` is reported at `value.property` on the property's value |
| Scenarios.ElementPathScenario | src/test/kotlin/ru/potatophobe/validsl/ValidateScopeImplTest.kt:113-128 | a failing first element of `["value1", "value2"]` is reported at `value[0]` |
| Scenarios.KeyPathScenario | src/test/kotlin/ru/potatophobe/validsl/ValidateScopeImplTest.kt:152-167 | a failing second key of `{key1, key2}` is reported at `value.keys[1]` |
| Scenarios.ValueByKeyPathScenario | src/test/kotlin/ru/potatophobe/validsl/ValidateScopeImplTest.kt:191-206 | a failing value under `key1` is reported at `value[key1]` |
| Scenarios.NullOwnerStillValidatesProperties | src/main/kotlin/ru/potatophobe/validsl/ValidslImpl.kt:134 | a `null` owner does not skip its properties: `isNotNull` on a property of `null` is reported at `path.name` with `null` |
| Scenarios.MapsKeyValidation | src/main/kotlin/ru/potatophobe/validsl/MatchAliases.kt:243-247 | `entries { value { mapsKey(k to x) } }` accepts a map exactly when every entry with key `k` has value `x` |

## Left out

- Reflection. A property is a name, and reading it is a lookup
  (`Values.Property`). The type's `simpleName`, used as the root path by
  `validate`, is a string parameter. The `!!` failure for a type without a
  simple name is not modelled.
- Values.Property: only the components listed in its contract can be read
  from the built-in shapes (entry, pair, string, collection, map). Any
  other property of those shapes reads as `null`, and so does a name that
  an object does not have.
- MatchAliases.Passes: a non-null value of a shape that the alias's
  receiver type rules out is rejected. Kotlin's typing prevents such a call.
  Equality in `isEqualTo`, `isOneOf` and the mapping aliases is structural
  equality of `Val`. Collections and maps compare as sequences, in
  iteration order. Kotlin's `Set` and `Map` equality ignores order, and a
  `List` never equals a `Set`, but the model has one collection shape. The
  same holds for `Scenarios.MapsKeyValidation` and
  `MatchAliases.OneOfIsSomeEqualTo`.
- `EvaluatorLaws.ValueByKeyFaultReported`: a key is rendered by
  `Values.Show`, which prints every `Obj` the way a data class prints
  (`Name(p=v)`). A key that is an instance of a plain class prints
  identity text (`pkg.Name@1b6d3586`), which cannot be computed. `Obj`
  stands for data-class instances. The same holds for the texts of
  `isEqualTo` and the mapping aliases.
- `Definition.SetDescription`: a handle used after its builder block has
  returned still changes the built definition in Kotlin, because the
  holder is shared mutable state. The model's definitions are immutable
  values: describing later yields a new definition and leaves the one
  already built, or already cached, as it was.
- `ValidationCache.GetValidation`: a builder block here is a pure
  `Def -> Def` and cannot call the cache. A Kotlin block is arbitrary
  code. It can look up other blocks while it is being built, adding their
  entries and builds, and a block that looks itself up recurses without
  end. The exact key set and the single added build hold only for blocks
  that do not use the cache.
- `ValidationCache.BuildsOncePerBlock`: the exact build count holds only
  for blocks that do not use the cache, for the same reason.
- `ValidationCache.LookupAllKeys`: the exact key set holds only for blocks
  that do not use the cache, for the same reason.
- `matchPattern` and `matchRegex` are not modelled, because regular
  expressions are out of scope. The repository's tests match with regexes;
  the scenarios use equality tests in their place.
- `isOneOf` describes its vararg array with the JVM's identity-based
  `toString`. That text cannot be computed, so it is a parameter of the alias.
- Kotlin `Int` is 32-bit, but the model uses unbounded integers.
  - A string's length is its number of `char`s, not of UTF-16 code units.
  - `Comparable` bounds are integers only.
- MatchAliases.IsWhitespace: `isBlank` uses a fixed code-point set for JVM
  whitespace rather than Unicode tables.
- Map keys are not deduplicated. A map is the sequence of its entries in
  iteration order, so key uniqueness is a caller's assumption.
- Predicates are total functions. An exception thrown by a predicate, which
  would abort `applyTo`, is not modelled.
- Thread safety of the cache and the laziness of `by lazy` are not modelled.
  `by lazy` is observable only as "a scope never declared is empty", which
  `EvaluatorLaws.UndeclaredScopeIsEmpty` states.
- Identity of lambdas. Which Kotlin lambda objects are identical is decided
  by the compiler. It is represented by the `PredId` and `BlockId`
  parameters, and whether two calls share one is the caller's choice.
- The `@Validsl` DSL marker, `Validsl.kt` (interfaces only), serialization
  helpers and the build files are outside the core.
