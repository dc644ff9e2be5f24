/**
 * The memoizing cache behind `validationCaching`/`validateCaching`: a map
 * from builder-block identity to the definition that block built.
 */
module ValidationCache {
  import opened Values
  import opened Definition
  import opened Evaluator

  /** Identity of a builder block (a Kotlin lambda object); the cache is keyed by it. */
  type BlockId = nat

  /** A builder block: its identity and what running it does to a fresh definition. */
  datatype Block = Block(id: BlockId, run: Def -> Def)

  /**
   * The cache's map, plus `builds`, the number of times a builder has been
   * run by the cache. The counter is an observation added by the model;
   * nothing in the cache reads it.
   */
  datatype Cache = Cache(entries: map<BlockId, Def>, builds: nat)

  const EmptyCache := Cache(map[], 0)

  /**
   * `getValidation(block)`: on a hit, the stored definition, the builder is
   * not run and nothing changes; on a miss, the block is run once on a fresh
   * definition and the result is stored under the block. Either way the
   * block is afterwards a key, and every other key keeps its definition.
   */
  function GetValidation(c: Cache, b: Block): (r: (Def, Cache))
    ensures b.id in r.1.entries && r.1.entries[b.id] == r.0
    ensures b.id in c.entries ==> r.0 == c.entries[b.id] && r.1 == c
    ensures b.id !in c.entries ==> r.0 == Validation(b.run) && r.1.builds == c.builds + 1
    ensures r.1.entries.Keys == c.entries.Keys + {b.id}
    ensures forall k :: k in c.entries && k != b.id ==> r.1.entries[k] == c.entries[k]
  {
    if b.id in c.entries then
      (c.entries[b.id], c)
    else
      var d := Validation(b.run);
      (d, Cache(c.entries[b.id := d], c.builds + 1))
  }

  /**
   * `validationCaching(block)`: the definition the cache holds for the block
   * once the lookup is done; only a block not seen before is run.
   */
  function ValidationCaching(c: Cache, b: Block): (r: (Def, Cache))
    ensures b.id in r.1.entries && r.1.entries[b.id] == r.0
    ensures b.id in c.entries ==> r == (c.entries[b.id], c)
    ensures b.id !in c.entries ==> r.0 == Validation(b.run) && r.1.builds == c.builds + 1
  {
    GetValidation(c, b)
  }

  /** `validateCaching(value, type, block)`: the cached definition applied at the type's simple name. */
  function ValidateCaching(c: Cache, v: Val, rootName: string, b: Block): (r: (ValidationResult, Cache))
    ensures r.0.value == v
  {
    var (d, c') := ValidationCaching(c, b);
    (ApplyTo(d, v, rootName), c')
  }

  /** Two successive lookups of one block give the identical definition; the builder ran at most once. */
  lemma SecondLookupHits(c: Cache, b: Block)
    ensures var (d1, c1) := GetValidation(c, b);
            var (d2, c2) := GetValidation(c1, b);
            d2 == d1 && c2 == c1 &&
            c2.builds == c.builds + (if b.id in c.entries then 0 else 1)
  {
  }

  /** Every entry holds what its block builds: `registry` maps each identity to its block's code. */
  ghost predicate Coherent(c: Cache, registry: BlockId -> (Def -> Def)) {
    forall k :: k in c.entries ==> c.entries[k] == Validation(registry(k))
  }

  /** Looking up a block keeps a coherent cache coherent and returns what the block builds. */
  lemma LookupKeepsCoherence(c: Cache, b: Block, registry: BlockId -> (Def -> Def))
    requires Coherent(c, registry) && b.run == registry(b.id)
    ensures Coherent(GetValidation(c, b).1, registry)
    ensures GetValidation(c, b).0 == Validation(b.run)
  {
  }

  /**
   * Caching is transparent: on a coherent cache, `validateCaching` gives
   * the same result as the uncached `validate`.
   */
  lemma CachingIsTransparent(c: Cache, v: Val, rootName: string, b: Block, registry: BlockId -> (Def -> Def))
    requires Coherent(c, registry) && b.run == registry(b.id)
    ensures ValidateCaching(c, v, rootName, b).0 == Validate(v, rootName, b.run)
  {
    LookupKeepsCoherence(c, b, registry);
  }

  /** The cache after looking up `b`: `b` is now a key, built only if it was not one before. */
  function After(c: Cache, b: Block): (r: Cache)
    ensures r.entries.Keys == c.entries.Keys + {b.id}
    ensures r.builds == c.builds + (if b.id in c.entries then 0 else 1)
  {
    GetValidation(c, b).1
  }

  /** Looking up each block of `bs` in turn. */
  function LookupAll(c: Cache, bs: seq<Block>): Cache
    decreases |bs|
  {
    if |bs| == 0 then c else LookupAll(After(c, bs[0]), bs[1..])
  }

  /** The distinct block identities used in `bs`. */
  function BlockIds(bs: seq<Block>): set<BlockId>
    decreases |bs|
  {
    if |bs| == 0 then {} else {bs[0].id} + BlockIds(bs[1..])
  }

  /** Counting the identities still to build, one block at a time. */
  lemma NewIdsStep(known: set<BlockId>, x: BlockId, later: set<BlockId>)
    ensures |({x} + later) - known| == (if x in known then 0 else 1) + |later - (known + {x})|
  {
    if x in known {
      assert ({x} + later) - known == later - (known + {x});
    } else {
      assert ({x} + later) - known == {x} + (later - (known + {x}));
    }
  }

  /**
   * However often a block is used, its builder runs at most once: a run of
   * lookups builds exactly once per distinct block identity not already cached.
   */
  lemma {:induction false} BuildsOncePerBlock(c: Cache, bs: seq<Block>)
    ensures LookupAll(c, bs).builds == c.builds + |BlockIds(bs) - c.entries.Keys|
    decreases |bs|
  {
    if |bs| > 0 {
      BuildsOncePerBlock(After(c, bs[0]), bs[1..]);
      NewIdsStep(c.entries.Keys, bs[0].id, BlockIds(bs[1..]));
    }
  }

  /** After a run of lookups, exactly the blocks used (and those cached before) are keys. */
  lemma {:induction false} LookupAllKeys(c: Cache, bs: seq<Block>)
    ensures LookupAll(c, bs).entries.Keys == c.entries.Keys + BlockIds(bs)
    decreases |bs|
  {
    if |bs| > 0 {
      LookupAllKeys(After(c, bs[0]), bs[1..]);
    }
  }
}
