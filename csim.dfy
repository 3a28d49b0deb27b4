/** The simulator's state and code: the cache struct with its arrays of
    sets and lines, the global recency counter, cache_init, cache_access and
    the counting loop of main. Each method is proved against the functions
    of CacheModel and Simulation. */
module Csim {
  import opened Decoder
  import opened CacheSet
  import opened CacheModel
  import opened Simulation

  class Cache {
    const s: nat
    const E: nat
    const b: nat
    /** Cache.sets: one array of E lines per set. */
    const sets: array<array<Line>>
    /** global_counter. */
    var clock: nat

    /** The lines of every set, as values. */
    ghost var Contents: seq<seq<Line>>
    /** The arrays the cache owns. */
    ghost const Repr: set<object>

    ghost function Cfg(): Config
    {
      Config(s, E, b)
    }

    ghost function State(): CacheState
      reads this
    {
      CacheState(Contents, clock)
    }

    ghost predicate Valid()
      reads this`Contents, Repr
    {
      ValidConfig(Cfg()) &&
      sets in Repr && sets.Length == Pow2(s) &&
      (forall i :: 0 <= i < sets.Length ==> sets[i] in Repr && sets[i].Length == E) &&
      (forall i, j :: 0 <= i < sets.Length && 0 <= j < sets.Length && i != j ==> sets[i] != sets[j]) &&
      |Contents| == sets.Length &&
      (forall i :: 0 <= i < sets.Length ==> sets[i][..] == Contents[i])
    }

    /** cache_init(s, E, b): 2^s sets of E invalid lines with tag 0 and
        counter 0. */
    constructor (s: nat, E: nat, b: nat)
      requires ValidConfig(Config(s, E, b))
      ensures Valid() && fresh(Repr)
      ensures this.s == s && this.E == E && this.b == b
      ensures State() == Init(Config(s, E, b))
    {
      var count := Pow2(s);
      var unused := new Line[0];
      var outer := new array<Line>[count](_ => unused);
      var i := 0;
      while i < count
        invariant 0 <= i <= count
        invariant forall k :: 0 <= k < i ==> outer[k] != unused && outer[k].Length == E
        invariant forall k :: 0 <= k < i ==> outer[k][..] == EmptySet(E)
        invariant forall k, m :: 0 <= k < i && 0 <= m < i && k != m ==> outer[k] != outer[m]
        invariant forall k :: 0 <= k < i ==> fresh(outer[k])
        modifies outer
      {
        var row := new Line[E];
        var j := 0;
        while j < E
          invariant 0 <= j <= E
          invariant forall m :: 0 <= m < j ==> row[m] == EmptyLine
          modifies row
        {
          row[j] := row[j].(valid := false, tag := 0, lru := 0);
          j := j + 1;
        }
        assert row[..] == EmptySet(E);
        outer[i] := row;
        i := i + 1;
      }
      this.s, this.E, this.b := s, E, b;
      sets := outer;
      clock := 0;
      Contents := seq(count, _ => EmptySet(E));
      Repr := {outer} + set k | 0 <= k < count :: outer[k];
    }

    /** cache_access(address): 1, 0 or -1 become Hit, Miss and Evict. */
    method Access(address: Address) returns (r: Outcome)
      requires Valid()
      modifies this, sets[Decode(address, s, b).setIndex]
      ensures Valid()
      ensures StepResult(r, State()) == Step(Cfg(), old(State()), address)
    {
      var d := Decode(address, s, b);
      var lines := sets[d.setIndex];
      ghost var before := lines[..];
      assert before == Contents[d.setIndex];

      var i := ScanForHit(lines, d.tag);
      if i < E {
        // Hit: refresh the line's counter.
        Store(d.setIndex, i, lines[i].(lru := clock + 1));
        clock := clock + 1;
        r := Hit;
      } else {
        var free, lruIndex := ScanForFill(lines);
        if free < E {
          // Miss: fill the first empty line.
          Store(d.setIndex, free, Line(true, d.tag, clock + 1));
          clock := clock + 1;
          r := Miss;
        } else {
          // Evict the LRU line.
          Store(d.setIndex, lruIndex, lines[lruIndex].(tag := d.tag, lru := clock + 1));
          clock := clock + 1;
          r := Evict;
        }
      }
    }

    /** Overwrites line k of set idx: the field writes of cache_access. */
    method Store(idx: nat, k: nat, line: Line)
      requires Valid() && idx < sets.Length && k < E
      modifies this, sets[idx]
      ensures Valid() && clock == old(clock)
      ensures Contents == old(Contents)[idx := old(Contents)[idx][k := line]]
    {
      sets[idx][k] := line;
      Contents := Contents[idx := Contents[idx][k := line]];
    }
  }

  /** The hit scan of cache_access: the index of the first valid line that
      holds the tag, or the number of lines when there is none. */
  method ScanForHit(lines: array<Line>, tag: nat) returns (i: nat)
    ensures i == FirstMatch(lines[..], tag, 0)
    ensures i < lines.Length <==> Holds(lines[..], tag)
  {
    i := 0;
    while i < lines.Length
      invariant 0 <= i <= lines.Length
      invariant forall k :: 0 <= k < i ==> !Matches(lines[k], tag)
    {
      if lines[i].valid && lines[i].tag == tag {
        return;
      }
      i := i + 1;
    }
  }

  /** The fill scan of cache_access: stops at the first invalid line
      (`free`); while scanning it keeps the line with the strictly smallest
      counter seen so far (`lruIndex`), which is the LRU victim when every
      line is valid. */
  method ScanForFill(lines: array<Line>) returns (free: nat, lruIndex: nat)
    requires lines.Length >= 1
    ensures free == FirstInvalid(lines[..], 0)
    ensures free == lines.Length ==> lruIndex == MinIndex(lines[..], lines.Length)
  {
    var minLru := lines[0].lru;
    lruIndex := 0;
    free := 0;
    while free < lines.Length
      invariant 0 <= free <= lines.Length
      invariant forall k :: 0 <= k < free ==> lines[k].valid
      invariant lruIndex == if free == 0 then 0 else MinIndex(lines[..], free)
      invariant minLru == lines[lruIndex].lru
    {
      if !lines[free].valid {
        return;
      }
      if lines[free].lru < minLru {
        minLru := lines[free].lru;
        lruIndex := free;
      }
      free := free + 1;
    }
  }

  /** The loop of main over an already-parsed trace. */
  method RunTrace(cache: Cache, trace: seq<Reference>) returns (hits: nat, misses: nat, evictions: nat)
    requires cache.Valid()
    modifies cache, cache.Repr
    ensures cache.Valid()
    ensures Run(cache.Cfg(), old(cache.State()), trace) == Progress(cache.State(), Counts(hits, misses, evictions))
  {
    ghost var start := cache.State();
    hits, misses, evictions := 0, 0, 0;
    var i := 0;
    while i < |trace|
      invariant 0 <= i <= |trace|
      invariant cache.Valid()
      invariant Run(cache.Cfg(), start, trace[..i]) == Progress(cache.State(), Counts(hits, misses, evictions))
    {
      var r := trace[i];
      ghost var p := Progress(cache.State(), Counts(hits, misses, evictions));
      assert trace[..i + 1][..i] == trace[..i];
      assert Run(cache.Cfg(), start, trace[..i + 1]) == Feed(cache.Cfg(), p, r);
      if r.op != 'I' {
        var result := cache.Access(r.address);
        match result {
          case Hit => hits := hits + 1;
          case Miss => misses := misses + 1;
          case Evict => misses, evictions := misses + 1, evictions + 1;
        }
        assert Counts(hits, misses, evictions) == Tally(p.counts, result);
        if r.op == 'M' {
          hits := hits + 1;
          var _ := cache.Access(r.address);
        }
      }
      i := i + 1;
    }
    assert trace[..i] == trace;
  }

  /** cache_init followed by the counting loop: the three numbers main
      hands to printSummary. */
  method Simulate(s: nat, E: nat, b: nat, trace: seq<Reference>) returns (hits: nat, misses: nat, evictions: nat)
    requires ValidConfig(Config(s, E, b))
    ensures Counts(hits, misses, evictions) == Run(Config(s, E, b), Init(Config(s, E, b)), trace).counts
    ensures hits + misses == DataRefs(trace) + ModifyRefs(trace)
    ensures evictions <= misses
  {
    var cache := new Cache(s, E, b);
    hits, misses, evictions := RunTrace(cache, trace);
    RunTotal(Config(s, E, b), Init(Config(s, E, b)), trace);
    RunEvictionsBounded(Config(s, E, b), Init(Config(s, E, b)), trace);
  }
}
