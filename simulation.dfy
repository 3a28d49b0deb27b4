/** The counting loop of the simulator's main, as functions over a trace of
    already-parsed references. */
module Simulation {
  import opened Decoder
  import opened CacheSet
  import opened CacheModel

  /** One trace record: the operation character and the address. The size
      field of a trace line is read but never used by the counting. */
  datatype Reference = Reference(op: char, address: Address)

  datatype Counts = Counts(hits: nat, misses: nat, evictions: nat)

  datatype Progress = Progress(state: CacheState, counts: Counts)

  /** How main classifies the value cache_access returns. */
  function Tally(n: Counts, o: Outcome): (m: Counts)
    ensures m.hits - n.hits == (if o == Hit then 1 else 0)
    ensures m.misses - n.misses == (if o == Hit then 0 else 1)
    ensures m.evictions - n.evictions == (if o == Evict then 1 else 0)
  {
    match o
    case Hit => n.(hits := n.hits + 1)
    case Miss => n.(misses := n.misses + 1)
    case Evict => n.(misses := n.misses + 1, evictions := n.evictions + 1)
  }

  /** One iteration of the loop: 'I' is skipped; anything else accesses the
      cache once and is tallied by the outcome; 'M' then adds a hit and
      accesses the cache a second time. */
  function Feed(c: Config, p: Progress, r: Reference): (q: Progress)
    requires ValidConfig(c) && WellShaped(c, p.state)
    ensures WellShaped(c, q.state)
  {
    if r.op == 'I' then p
    else
      var first := Step(c, p.state, r.address);
      var n := Tally(p.counts, first.outcome);
      if r.op == 'M' then
        Progress(Step(c, first.state, r.address).state, n.(hits := n.hits + 1))
      else
        Progress(first.state, n)
  }

  /** The loop over a whole trace, starting with zero counters. */
  function Run(c: Config, st: CacheState, trace: seq<Reference>): (p: Progress)
    requires ValidConfig(c) && WellShaped(c, st)
    ensures WellShaped(c, p.state)
  {
    if trace == [] then Progress(st, Counts(0, 0, 0))
    else Feed(c, Run(c, st, trace[..|trace| - 1]), trace[|trace| - 1])
  }

  /** References that reach the cache (every operation but 'I'). */
  function DataRefs(trace: seq<Reference>): nat
  {
    if trace == [] then 0
    else DataRefs(trace[..|trace| - 1]) + (if trace[|trace| - 1].op != 'I' then 1 else 0)
  }

  /** Modify references ('M'). */
  function ModifyRefs(trace: seq<Reference>): nat
  {
    if trace == [] then 0
    else ModifyRefs(trace[..|trace| - 1]) + (if trace[|trace| - 1].op == 'M' then 1 else 0)
  }

  // ---------------------------------------------------------------------
  // One reference.

  /** An instruction fetch changes neither the cache nor the counters. */
  lemma FeedInstruction(c: Config, p: Progress, r: Reference)
    requires ValidConfig(c) && WellShaped(c, p.state) && r.op == 'I'
    ensures Feed(c, p, r) == p
  {
  }

  /** Any other reference adds exactly one to hits + misses, plus one hit
      for a modify; evictions grow by at most what misses grow by. */
  lemma FeedCounts(c: Config, p: Progress, r: Reference)
    requires ValidConfig(c) && WellShaped(c, p.state) && r.op != 'I'
    ensures var q := Feed(c, p, r).counts;
      q.hits + q.misses == p.counts.hits + p.counts.misses + 1 + (if r.op == 'M' then 1 else 0) &&
      p.counts.evictions <= q.evictions &&
      q.evictions - p.counts.evictions <= q.misses - p.counts.misses
  {
  }

  /** The hit main adds for the second access of a modify is the outcome
      that second access really has: tallying it gives the same counts. */
  lemma ModifySecondAccessHits(c: Config, p: Progress, r: Reference)
    requires ValidConfig(c) && WellShaped(c, p.state) && r.op == 'M'
    ensures var first := Step(c, p.state, r.address);
      var second := Step(c, first.state, r.address);
      Feed(c, p, r) == Progress(second.state, Tally(Tally(p.counts, first.outcome), second.outcome))
  {
    StepThenHit(c, p.state, r.address);
  }

  // ---------------------------------------------------------------------
  // Whole traces.

  /** hits + misses is the number of data references plus one per modify. */
  lemma {:induction false} RunTotal(c: Config, st: CacheState, trace: seq<Reference>)
    requires ValidConfig(c) && WellShaped(c, st)
    ensures var n := Run(c, st, trace).counts;
      n.hits + n.misses == DataRefs(trace) + ModifyRefs(trace)
  {
    if trace != [] {
      var init := trace[..|trace| - 1];
      var last := trace[|trace| - 1];
      RunTotal(c, st, init);
      if last.op != 'I' {
        FeedCounts(c, Run(c, st, init), last);
      }
    }
  }

  /** A run never reports more evictions than misses. */
  lemma {:induction false} RunEvictionsBounded(c: Config, st: CacheState, trace: seq<Reference>)
    requires ValidConfig(c) && WellShaped(c, st)
    ensures Run(c, st, trace).counts.evictions <= Run(c, st, trace).counts.misses
  {
    if trace != [] {
      var init := trace[..|trace| - 1];
      var last := trace[|trace| - 1];
      RunEvictionsBounded(c, st, init);
      if last.op != 'I' {
        FeedCounts(c, Run(c, st, init), last);
      }
    }
  }

  /** A run keeps the cache invariants. */
  lemma {:induction false} RunKeepsConsistent(c: Config, st: CacheState, trace: seq<Reference>)
    requires ValidConfig(c) && Consistent(c, st)
    ensures Consistent(c, Run(c, st, trace).state)
  {
    if trace != [] {
      var init := trace[..|trace| - 1];
      var last := trace[|trace| - 1];
      RunKeepsConsistent(c, st, init);
      var p := Run(c, st, init);
      if last.op != 'I' {
        StepKeepsConsistent(c, p.state, last.address);
        if last.op == 'M' {
          StepKeepsConsistent(c, Step(c, p.state, last.address).state, last.address);
        }
      }
    }
  }

  /** Appending one reference to a trace feeds it to the run so far. */
  lemma RunSnoc(c: Config, st: CacheState, trace: seq<Reference>, r: Reference)
    requires ValidConfig(c) && WellShaped(c, st)
    ensures Run(c, st, trace + [r]) == Feed(c, Run(c, st, trace), r)
  {
    assert (trace + [r])[..|trace|] == trace;
  }

  /** Counters added field by field. */
  function Plus(m: Counts, n: Counts): (r: Counts)
    ensures r.hits + r.misses == m.hits + m.misses + n.hits + n.misses
  {
    Counts(m.hits + n.hits, m.misses + n.misses, m.evictions + n.evictions)
  }

  /** Running two traces one after the other is running their
      concatenation: the state carries over and the counters add up. */
  lemma {:induction false} RunConcat(c: Config, st: CacheState, t1: seq<Reference>, t2: seq<Reference>)
    requires ValidConfig(c) && WellShaped(c, st)
    ensures var p := Run(c, st, t1);
      var q := Run(c, p.state, t2);
      Run(c, st, t1 + t2) == Progress(q.state, Plus(p.counts, q.counts))
  {
    var p := Run(c, st, t1);
    if t2 == [] {
      assert t1 + t2 == t1;
    } else {
      var t := t1 + t2;
      var init := t2[..|t2| - 1];
      var last := t2[|t2| - 1];
      assert t[..|t| - 1] == t1 + init;
      assert t[|t| - 1] == last;
      RunConcat(c, st, t1, init);
      var q := Run(c, p.state, init);
      assert Run(c, st, t) == Feed(c, Progress(q.state, Plus(p.counts, q.counts)), last);
      assert Run(c, p.state, t2) == Feed(c, q, last);
    }
  }

  /** A trace of n loads or stores of one address. */
  function Repeat(op: char, address: Address, n: nat): (trace: seq<Reference>)
    ensures |trace| == n
    ensures forall k :: 0 <= k < n ==> trace[k] == Reference(op, address)
  {
    seq(n, _ => Reference(op, address))
  }

  /** Once an address is cached, loading or storing it again and again
      only hits and keeps it cached. */
  lemma {:induction false} RepeatedAccessHits(c: Config, st: CacheState, op: char, address: Address, n: nat)
    requires ValidConfig(c) && WellShaped(c, st) && Cached(c, st, address)
    requires op != 'I' && op != 'M'
    ensures var p := Run(c, st, Repeat(op, address, n));
      p.counts == Counts(n, 0, 0) && Cached(c, p.state, address)
  {
    if n > 0 {
      assert Repeat(op, address, n)[..n - 1] == Repeat(op, address, n - 1);
      RepeatedAccessHits(c, st, op, address, n - 1);
      StepCaches(c, Run(c, st, Repeat(op, address, n - 1)).state, address);
    }
  }

  /** From a state where it is not cached, n + 1 loads or stores of one
      address give one miss and n hits, and one eviction exactly when the
      address's set is full. */
  lemma RepeatedAccessMissesOnce(c: Config, st: CacheState, op: char, address: Address, n: nat)
    requires ValidConfig(c) && WellShaped(c, st) && !Cached(c, st, address)
    requires op != 'I' && op != 'M'
    ensures var n' := Run(c, st, Repeat(op, address, n + 1)).counts;
      n'.hits == n && n'.misses == 1 &&
      n'.evictions == (if Full(st.sets[Decode(address, c.s, c.b).setIndex]) then 1 else 0)
  {
    var first := Step(c, st, address);
    StepCaches(c, st, address);
    StepOutcome(c, st, address);
    assert Repeat(op, address, n + 1) == [Reference(op, address)] + Repeat(op, address, n);
    assert [Reference(op, address)][..0] == [];
    RunConcat(c, st, [Reference(op, address)], Repeat(op, address, n));
    RepeatedAccessHits(c, first.state, op, address, n);
  }

  /** Address a cannot disturb the line of `address`: it maps to another
      set, or to the same block. */
  predicate Disjoint(c: Config, a: Address, address: Address)
    requires ValidConfig(c)
  {
    Decode(a, c.s, c.b).setIndex != Decode(address, c.s, c.b).setIndex ||
    Decode(a, c.s, c.b) == Decode(address, c.s, c.b)
  }

  /** A record that cannot disturb the line of `address`. */
  predicate Harmless(c: Config, r: Reference, address: Address)
    requires ValidConfig(c)
  {
    r.op == 'I' || Disjoint(c, r.address, address)
  }

  /** One access that is harmless to a cached address leaves it cached. */
  lemma StepKeepsCached(c: Config, st: CacheState, a: Address, address: Address)
    requires ValidConfig(c) && WellShaped(c, st) && Cached(c, st, address)
    requires Disjoint(c, a, address)
    ensures Cached(c, Step(c, st, a).state, address)
  {
    var d := Decode(address, c.s, c.b);
    if Decode(a, c.s, c.b) == d {
      StepCaches(c, st, a);
    } else {
      StepFrame(c, st, a);
      assert Step(c, st, a).state.sets[d.setIndex] == st.sets[d.setIndex];
    }
  }

  /** A cached address stays cached through any trace of harmless records
      (no other block of its set is touched), so its next access hits. */
  lemma {:induction false} RunKeepsCached(c: Config, st: CacheState, trace: seq<Reference>, address: Address)
    requires ValidConfig(c) && WellShaped(c, st) && Cached(c, st, address)
    requires forall k :: 0 <= k < |trace| ==> Harmless(c, trace[k], address)
    ensures Cached(c, Run(c, st, trace).state, address)
    ensures Step(c, Run(c, st, trace).state, address).outcome == Hit
  {
    if trace != [] {
      var init := trace[..|trace| - 1];
      var last := trace[|trace| - 1];
      assert forall k :: 0 <= k < |init| ==> init[k] == trace[k];
      RunKeepsCached(c, st, init, address);
      var p := Run(c, st, init);
      if last.op != 'I' {
        assert Disjoint(c, last.address, address);
        StepKeepsCached(c, p.state, last.address, address);
        if last.op == 'M' {
          StepKeepsCached(c, Step(c, p.state, last.address).state, last.address, address);
        }
      }
    }
    StepCaches(c, Run(c, st, trace).state, address);
  }

  /** Instruction fetches do not influence a run at all. */
  lemma {:induction false} RunSkipsInstructions(c: Config, st: CacheState, trace: seq<Reference>, k: nat)
    requires ValidConfig(c) && WellShaped(c, st)
    requires k < |trace| && trace[k].op == 'I'
    ensures Run(c, st, trace) == Run(c, st, trace[..k] + trace[k + 1..])
  {
    var rest := trace[..k] + trace[k + 1..];
    if k == |trace| - 1 {
      assert rest == trace[..|trace| - 1];
    } else {
      var init := trace[..|trace| - 1];
      RunSkipsInstructions(c, st, init, k);
      assert rest[..|rest| - 1] == init[..k] + init[k + 1..];
      assert rest[|rest| - 1] == trace[|trace| - 1];
    }
  }
}
