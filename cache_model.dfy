/** The whole cache as a value: 2^s sets of E lines and the global recency
    counter. `Step` specifies one call of cache_access, `Init` what
    cache_init builds. */
module CacheModel {
  import opened Decoder
  import opened CacheSet

  /** Set-index bits, lines per set, block-offset bits. */
  datatype Config = Config(s: nat, E: nat, b: nat)

  /** What the code needs of its configuration: at least one line per set
      (the eviction path writes line 0) and shifts that are defined. */
  predicate ValidConfig(c: Config)
  {
    c.E >= 1 && ValidGeometry(c.s, c.b)
  }

  /** All sets, and global_counter. */
  datatype CacheState = CacheState(sets: seq<seq<Line>>, clock: nat)

  predicate WellShaped(c: Config, st: CacheState)
  {
    |st.sets| == Pow2(c.s) &&
    forall i :: 0 <= i < |st.sets| ==> |st.sets[i]| == c.E
  }

  /** The invariants every access keeps: the shape, distinct tags among the
      valid lines of each set, no stamp above the counter, and distinct
      positive stamps among the valid lines of each set. */
  predicate Consistent(c: Config, st: CacheState)
  {
    WellShaped(c, st) &&
    forall i :: 0 <= i < |st.sets| ==> SetInvariant(st.sets[i], st.clock)
  }

  /** The cache right after cache_init, with the counter at its initial 0. */
  function Init(c: Config): (st: CacheState)
    ensures |st.sets| == Pow2(c.s) && st.clock == 0
    ensures forall i :: 0 <= i < |st.sets| ==> st.sets[i] == EmptySet(c.E)
  {
    CacheState(seq(Pow2(c.s), _ => EmptySet(c.E)), 0)
  }

  datatype StepResult = StepResult(outcome: Outcome, state: CacheState)

  /** One call of cache_access(address). */
  function Step(c: Config, st: CacheState, address: Address): (r: StepResult)
    requires ValidConfig(c) && WellShaped(c, st)
    ensures WellShaped(c, r.state)
    ensures r.state.clock == st.clock + 1
  {
    var d := Decode(address, c.s, c.b);
    var res := AccessSet(st.sets[d.setIndex], d.tag, st.clock + 1);
    StepResult(res.outcome, CacheState(st.sets[d.setIndex := res.lines], st.clock + 1))
  }

  // ---------------------------------------------------------------------

  lemma InitConsistent(c: Config)
    ensures WellShaped(c, Init(c)) && Consistent(c, Init(c))
  {
  }

  /** The outcome depends only on the addressed set and the decoded tag. */
  lemma StepOutcome(c: Config, st: CacheState, address: Address)
    requires ValidConfig(c) && WellShaped(c, st)
    ensures var d := Decode(address, c.s, c.b);
      var lines := st.sets[d.setIndex];
      var o := Step(c, st, address).outcome;
      (o == Hit <==> Holds(lines, d.tag)) &&
      (o == Miss <==> !Holds(lines, d.tag) && !Full(lines)) &&
      (o == Evict <==> !Holds(lines, d.tag) && Full(lines))
  {
    var d := Decode(address, c.s, c.b);
    AccessSetOutcome(st.sets[d.setIndex], d.tag, st.clock + 1);
  }

  /** An access changes one line of the addressed set, which becomes valid
      with the tag and the new counter value; every other set and line is
      unchanged. */
  lemma StepFrame(c: Config, st: CacheState, address: Address)
    requires ValidConfig(c) && WellShaped(c, st)
    ensures var d := Decode(address, c.s, c.b);
      var after := Step(c, st, address).state;
      (forall i :: 0 <= i < |st.sets| && i != d.setIndex ==> after.sets[i] == st.sets[i]) &&
      exists k: nat :: OnlyLineChanged(st.sets[d.setIndex], after.sets[d.setIndex], k) &&
        after.sets[d.setIndex][k] == Line(true, d.tag, after.clock)
  {
    var d := Decode(address, c.s, c.b);
    var lines := st.sets[d.setIndex];
    var after := Step(c, st, address).state;
    assert after.sets[d.setIndex] == AccessSet(lines, d.tag, st.clock + 1).lines;
    AccessSetTouchesOneLine(lines, d.tag, st.clock + 1);
    var k: nat :| OnlyLineChanged(lines, after.sets[d.setIndex], k) &&
      after.sets[d.setIndex][k] == Line(true, d.tag, st.clock + 1);
  }

  /** From a consistent state exactly one line of the whole cache differs. */
  lemma StepChangesExactlyOne(c: Config, st: CacheState, address: Address)
    requires ValidConfig(c) && WellShaped(c, st)
    requires forall i :: 0 <= i < |st.sets| ==> StampsAtMost(st.sets[i], st.clock)
    ensures var d := Decode(address, c.s, c.b);
      var after := Step(c, st, address).state;
      exists k: nat :: OnlyLineChanged(st.sets[d.setIndex], after.sets[d.setIndex], k) &&
        after.sets[d.setIndex][k] != st.sets[d.setIndex][k]
  {
    var d := Decode(address, c.s, c.b);
    var lines := st.sets[d.setIndex];
    var after := Step(c, st, address).state;
    assert after.sets[d.setIndex] == AccessSet(lines, d.tag, st.clock + 1).lines;
    assert StampsAtMost(lines, st.clock);
    AccessSetChangesExactlyOne(lines, d.tag, st.clock + 1);
  }

  /** Every access keeps the invariants. */
  lemma StepKeepsConsistent(c: Config, st: CacheState, address: Address)
    requires ValidConfig(c) && Consistent(c, st)
    ensures Consistent(c, Step(c, st, address).state)
  {
    var d := Decode(address, c.s, c.b);
    var lines := st.sets[d.setIndex];
    var after := Step(c, st, address).state;
    assert SetInvariant(lines, st.clock);
    AccessSetKeepsInvariant(lines, d.tag, st.clock);
    forall i | 0 <= i < |after.sets|
      ensures SetInvariant(after.sets[i], after.clock)
    {
      if i != d.setIndex {
        assert after.sets[i] == st.sets[i];
        assert SetInvariant(st.sets[i], st.clock);
      }
    }
  }

  /** From a consistent state an eviction rewrites the one line of least
      stamp in the addressed set, which is unique there. */
  lemma StepEvictsOldest(c: Config, st: CacheState, address: Address)
    requires ValidConfig(c) && Consistent(c, st)
    requires Step(c, st, address).outcome == Evict
    ensures var d := Decode(address, c.s, c.b);
      var lines := st.sets[d.setIndex];
      var v := MinIndex(lines, |lines|);
      (forall j :: 0 <= j < |lines| && j != v ==> lines[v].lru < lines[j].lru) &&
      Step(c, st, address).state.sets[d.setIndex] == lines[v := Line(true, d.tag, st.clock + 1)]
  {
    var d := Decode(address, c.s, c.b);
    var lines := st.sets[d.setIndex];
    StepOutcome(c, st, address);
    assert SetInvariant(lines, st.clock);
    VictimUnique(lines, MinIndex(lines, |lines|));
  }

  /** The address's block is in the cache: a valid line of its set holds
      its tag. */
  predicate Cached(c: Config, st: CacheState, address: Address)
    requires ValidConfig(c) && WellShaped(c, st)
  {
    var d := Decode(address, c.s, c.b);
    Holds(st.sets[d.setIndex], d.tag)
  }

  /** An access hits exactly when its address is cached, and leaves it
      cached. */
  lemma StepCaches(c: Config, st: CacheState, address: Address)
    requires ValidConfig(c) && WellShaped(c, st)
    ensures Step(c, st, address).outcome == Hit <==> Cached(c, st, address)
    ensures Cached(c, Step(c, st, address).state, address)
  {
    var d := Decode(address, c.s, c.b);
    AccessSetHolds(st.sets[d.setIndex], d.tag, st.clock + 1);
    StepOutcome(c, st, address);
  }

  /** Repeating an access at once is a hit (the second access of a
      modify). */
  lemma StepThenHit(c: Config, st: CacheState, address: Address)
    requires ValidConfig(c) && WellShaped(c, st)
    ensures Step(c, Step(c, st, address).state, address).outcome == Hit
  {
    StepCaches(c, st, address);
    StepCaches(c, Step(c, st, address).state, address);
  }

  /** Addresses in the same block are indistinguishable to the cache. */
  lemma StepSameBlock(c: Config, st: CacheState, a1: Address, a2: Address)
    requires ValidConfig(c) && WellShaped(c, st)
    requires a1 / Pow2(c.b) == a2 / Pow2(c.b)
    ensures Step(c, st, a1) == Step(c, st, a2)
  {
    DecodeSameBlock(a1, a2, c.s, c.b);
  }
}
