/** Small worked traces: what the simulator reports on them. */
module Scenarios {
  import opened Decoder
  import opened CacheSet
  import opened CacheModel
  import opened Simulation

  /** One set with one line: 0, 1, 0 miss, then evict twice. */
  lemma DirectMappedThrash()
    ensures var c := Config(0, 1, 0);
      var s1 := Step(c, Init(c), 0);
      var s2 := Step(c, s1.state, 1);
      var s3 := Step(c, s2.state, 0);
      s1.outcome == Miss && s2.outcome == Evict && s3.outcome == Evict &&
      s1.state.sets[0] == [Line(true, 0, 1)] && s2.state.sets[0] == [Line(true, 1, 2)]
  {
  }

  /** The same trace reports three misses and two evictions. */
  lemma DirectMappedThrashCounts()
    ensures var c := Config(0, 1, 0);
      Run(c, Init(c), [Reference('L', 0), Reference('L', 1), Reference('L', 0)]).counts == Counts(0, 3, 2)
  {
    var c := Config(0, 1, 0);
    var r0, r1 := Reference('L', 0), Reference('L', 1);
    DirectMappedThrash();
    var s1 := Step(c, Init(c), 0);
    var s2 := Step(c, s1.state, 1);
    RunSnoc(c, Init(c), [], r0);
    assert [] + [r0] == [r0];
    assert Run(c, Init(c), [r0]) == Progress(s1.state, Counts(0, 1, 0));
    RunSnoc(c, Init(c), [r0], r1);
    assert [r0] + [r1] == [r0, r1];
    assert Run(c, Init(c), [r0, r1]) == Progress(s2.state, Counts(0, 2, 1));
    RunSnoc(c, Init(c), [r0, r1], r0);
    assert [r0, r1] + [r0] == [r0, r1, r0];
  }

  /** The four set-level accesses of the trace 0, 1, 2, 0 on one set of
      two lines. */
  lemma TwoLineSetTrace()
    ensures AccessSet([EmptyLine, EmptyLine], 0, 1) == SetStep(Miss, [Line(true, 0, 1), EmptyLine])
    ensures AccessSet([Line(true, 0, 1), EmptyLine], 1, 2) == SetStep(Miss, [Line(true, 0, 1), Line(true, 1, 2)])
    ensures AccessSet([Line(true, 0, 1), Line(true, 1, 2)], 2, 3) == SetStep(Evict, [Line(true, 2, 3), Line(true, 1, 2)])
    ensures AccessSet([Line(true, 2, 3), Line(true, 1, 2)], 0, 4) == SetStep(Evict, [Line(true, 2, 3), Line(true, 0, 4)])
  {
    assert MinIndex([Line(true, 0, 1), Line(true, 1, 2)], 1) == 0;
    assert MinIndex([Line(true, 2, 3), Line(true, 1, 2)], 1) == 0;
  }

  /** One set with two lines: 0, 1, 2, 0 gives two misses, then two
      evictions, each of the least recently used tag. */
  lemma FullyAssociativeLru()
    ensures var c := Config(0, 2, 0);
      var s1 := Step(c, Init(c), 0);
      var s2 := Step(c, s1.state, 1);
      var s3 := Step(c, s2.state, 2);
      var s4 := Step(c, s3.state, 0);
      s1.outcome == Miss && s2.outcome == Miss && s3.outcome == Evict && s4.outcome == Evict &&
      s3.state.sets[0] == [Line(true, 2, 3), Line(true, 1, 2)] &&
      s4.state.sets[0] == [Line(true, 2, 3), Line(true, 0, 4)]
  {
    var c := Config(0, 2, 0);
    assert Decode(0, 0, 0) == Decoded(0, 0) && Decode(1, 0, 0) == Decoded(0, 1) && Decode(2, 0, 0) == Decoded(0, 2);
    assert EmptySet(2) == [EmptyLine, EmptyLine];
    assert Init(c) == CacheState([[EmptyLine, EmptyLine]], 0);
    TwoLineSetTrace();
  }

  /** The same trace on the same cache reports four misses and two
      evictions. */
  lemma FullyAssociativeLruCounts()
    ensures var c := Config(0, 2, 0);
      var trace := [Reference('L', 0), Reference('L', 1), Reference('L', 2), Reference('L', 0)];
      Run(c, Init(c), trace).counts == Counts(0, 4, 2)
  {
    var c := Config(0, 2, 0);
    var r0, r1, r2 := Reference('L', 0), Reference('L', 1), Reference('L', 2);
    FullyAssociativeLru();
    var s1 := Step(c, Init(c), 0);
    var s2 := Step(c, s1.state, 1);
    var s3 := Step(c, s2.state, 2);
    RunSnoc(c, Init(c), [], r0);
    assert [] + [r0] == [r0];
    assert Run(c, Init(c), [r0]) == Progress(s1.state, Counts(0, 1, 0));
    RunSnoc(c, Init(c), [r0], r1);
    assert [r0] + [r1] == [r0, r1];
    assert Run(c, Init(c), [r0, r1]) == Progress(s2.state, Counts(0, 2, 0));
    RunSnoc(c, Init(c), [r0, r1], r2);
    assert [r0, r1] + [r2] == [r0, r1, r2];
    assert Run(c, Init(c), [r0, r1, r2]) == Progress(s3.state, Counts(0, 3, 1));
    RunSnoc(c, Init(c), [r0, r1, r2], r0);
    assert [r0, r1, r2, r0] == [r0, r1, r2] + [r0];
  }

  /** One set with two lines: 0, 0, 1 gives a miss, a hit and a miss. */
  lemma RepeatThenNew()
    ensures var c := Config(0, 2, 0);
      var trace := [Reference('L', 0), Reference('L', 0), Reference('L', 1)];
      Run(c, Init(c), trace).counts == Counts(1, 2, 0)
  {
    var c := Config(0, 2, 0);
    var r0, r1 := Reference('L', 0), Reference('L', 1);
    var s1 := Step(c, Init(c), 0);
    var s2 := Step(c, s1.state, 0);
    var s3 := Step(c, s2.state, 1);
    assert s1.outcome == Miss && s2.outcome == Hit && s3.outcome == Miss;
    RunSnoc(c, Init(c), [], r0);
    assert [] + [r0] == [r0];
    assert Run(c, Init(c), [r0]) == Progress(s1.state, Counts(0, 1, 0));
    RunSnoc(c, Init(c), [r0], r0);
    assert [r0] + [r0] == [r0, r0];
    assert Run(c, Init(c), [r0, r0]) == Progress(s2.state, Counts(1, 1, 0));
    RunSnoc(c, Init(c), [r0, r0], r1);
    assert [r0, r0] + [r1] == [r0, r0, r1];
  }

  /** A modify on an empty cache: one miss, then the guaranteed hit. */
  lemma ModifyOnEmpty()
    ensures var c := Config(0, 1, 0);
      Run(c, Init(c), [Reference('M', 0)]).counts == Counts(1, 1, 0)
  {
    assert [Reference('M', 0)][..0] == [];
  }
}
