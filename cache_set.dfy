/** One cache set as a value: its lines, the three ways an access can end,
    and the functions that specify what cache_access does to the addressed
    set (lookup, fill of the first empty line, LRU eviction). */
module CacheSet {

  /** struct cache_line: validity bit, tag, and the recency stamp
      (lru_counter) of its most recent touch. */
  datatype Line = Line(valid: bool, tag: nat, lru: nat)

  /** What cache_access returns: Hit is 1, Miss is 0, Evict is -1. */
  datatype Outcome = Hit | Miss | Evict

  /** What cache_init stores in every line. */
  const EmptyLine: Line := Line(false, 0, 0)

  /** A set of E freshly initialised lines. */
  function EmptySet(e: nat): (lines: seq<Line>)
    ensures |lines| == e
    ensures forall k :: 0 <= k < e ==> !lines[k].valid && lines[k].tag == 0 && lines[k].lru == 0
  {
    seq(e, _ => EmptyLine)
  }

  predicate Matches(line: Line, tag: nat)
  {
    line.valid && line.tag == tag
  }

  /** Some valid line of the set holds the tag. */
  predicate Holds(lines: seq<Line>, tag: nat)
  {
    exists k :: 0 <= k < |lines| && Matches(lines[k], tag)
  }

  /** Every line of the set is valid. */
  predicate Full(lines: seq<Line>)
  {
    forall k :: 0 <= k < |lines| ==> lines[k].valid
  }

  /** Valid lines of one set hold pairwise distinct tags. */
  predicate DistinctTags(lines: seq<Line>)
  {
    forall i, j :: 0 <= i < j < |lines| && lines[i].valid && lines[j].valid ==> lines[i].tag != lines[j].tag
  }

  /** No recency stamp exceeds the bound. */
  predicate StampsAtMost(lines: seq<Line>, bound: nat)
  {
    forall k :: 0 <= k < |lines| ==> lines[k].lru <= bound
  }

  /** Valid lines carry pairwise distinct stamps, each at least 1: the
      global counter orders every touch. */
  predicate DistinctStamps(lines: seq<Line>)
  {
    (forall k :: 0 <= k < |lines| && lines[k].valid ==> lines[k].lru >= 1) &&
    forall i, j :: 0 <= i < j < |lines| && lines[i].valid && lines[j].valid ==> lines[i].lru != lines[j].lru
  }

  /** Line v is the LRU victim among the first n lines: its stamp is
      minimal there and every line before it has a strictly larger stamp. */
  predicate IsVictim(lines: seq<Line>, n: nat, v: nat)
  {
    v < n <= |lines| &&
    (forall j :: 0 <= j < n ==> lines[v].lru <= lines[j].lru) &&
    (forall j :: 0 <= j < v ==> lines[v].lru < lines[j].lru)
  }

  // ---------------------------------------------------------------------
  // The scans of cache_access, as functions.

  /** Index of the first line at or after `from` that is valid and holds
      the tag, or |lines| when there is none (the hit scan). */
  function FirstMatch(lines: seq<Line>, tag: nat, from: nat): (k: nat)
    requires from <= |lines|
    ensures from <= k <= |lines|
    ensures k < |lines| ==> Matches(lines[k], tag)
    ensures forall j :: from <= j < k ==> !Matches(lines[j], tag)
    decreases |lines| - from
  {
    if from == |lines| then from
    else if Matches(lines[from], tag) then from
    else FirstMatch(lines, tag, from + 1)
  }

  /** Index of the first invalid line at or after `from`, or |lines| when
      every such line is valid (the fill scan). */
  function FirstInvalid(lines: seq<Line>, from: nat): (k: nat)
    requires from <= |lines|
    ensures from <= k <= |lines|
    ensures k < |lines| ==> !lines[k].valid
    ensures forall j :: from <= j < k ==> lines[j].valid
    decreases |lines| - from
  {
    if from == |lines| then from
    else if !lines[from].valid then from
    else FirstInvalid(lines, from + 1)
  }

  /** The line the LRU scan settles on after looking at the first n lines:
      a later line replaces the current choice only when its stamp is
      strictly smaller. */
  function MinIndex(lines: seq<Line>, n: nat): (v: nat)
    requires 1 <= n <= |lines|
    ensures IsVictim(lines, n, v)
  {
    if n == 1 then 0
    else
      var m := MinIndex(lines, n - 1);
      if lines[n - 1].lru < lines[m].lru then n - 1 else m
  }

  datatype SetStep = SetStep(outcome: Outcome, lines: seq<Line>)

  /** One access to a set with the decoded tag; `stamp` is the value the
      global counter has after its increment. */
  function AccessSet(lines: seq<Line>, tag: nat, stamp: nat): (r: SetStep)
    requires |lines| >= 1
    ensures |r.lines| == |lines|
  {
    var h := FirstMatch(lines, tag, 0);
    if h < |lines| then
      SetStep(Hit, lines[h := lines[h].(lru := stamp)])
    else
      var f := FirstInvalid(lines, 0);
      if f < |lines| then
        SetStep(Miss, lines[f := Line(true, tag, stamp)])
      else
        var v := MinIndex(lines, |lines|);
        SetStep(Evict, lines[v := lines[v].(tag := tag, lru := stamp)])
  }

  // ---------------------------------------------------------------------
  // What an access does to its set.

  /** The outcome is decided by the set alone: a hit exactly when a valid
      line holds the tag, an eviction exactly when it does not and the set
      is full, a plain miss otherwise. */
  lemma AccessSetOutcome(lines: seq<Line>, tag: nat, stamp: nat)
    requires |lines| >= 1
    ensures AccessSet(lines, tag, stamp).outcome == Hit <==> Holds(lines, tag)
    ensures AccessSet(lines, tag, stamp).outcome == Miss <==> !Holds(lines, tag) && !Full(lines)
    ensures AccessSet(lines, tag, stamp).outcome == Evict <==> !Holds(lines, tag) && Full(lines)
  {
    var h := FirstMatch(lines, tag, 0);
    var f := FirstInvalid(lines, 0);
    if h == |lines| {
      assert !Holds(lines, tag);
    }
    if f < |lines| {
      assert !Full(lines);
    }
  }

  /** A hit on line k re-stamps that line and changes nothing else. */
  lemma AccessSetHit(lines: seq<Line>, tag: nat, stamp: nat, k: nat)
    requires |lines| >= 1 && DistinctTags(lines)
    requires k < |lines| && Matches(lines[k], tag)
    ensures AccessSet(lines, tag, stamp) == SetStep(Hit, lines[k := lines[k].(lru := stamp)])
  {
  }

  /** On a miss, the lowest-indexed invalid line k is filled with the tag
      and stamped, and nothing else changes. */
  lemma AccessSetFill(lines: seq<Line>, tag: nat, stamp: nat, k: nat)
    requires |lines| >= 1 && !Holds(lines, tag)
    requires k < |lines| && !lines[k].valid
    requires forall j :: 0 <= j < k ==> lines[j].valid
    ensures AccessSet(lines, tag, stamp) == SetStep(Miss, lines[k := Line(true, tag, stamp)])
  {
  }

  /** With no hit and a full set, the LRU victim v gets the new tag and
      stamp, and nothing else changes. */
  lemma AccessSetEvict(lines: seq<Line>, tag: nat, stamp: nat, v: nat)
    requires |lines| >= 1 && !Holds(lines, tag) && Full(lines)
    requires IsVictim(lines, |lines|, v)
    ensures AccessSet(lines, tag, stamp) == SetStep(Evict, lines[v := lines[v].(tag := tag, lru := stamp)])
  {
    AccessSetOutcome(lines, tag, stamp);
  }

  /** `after` differs from `before` at most in line k. */
  predicate OnlyLineChanged(before: seq<Line>, after: seq<Line>, k: nat)
  {
    |after| == |before| && k < |before| &&
    forall j :: 0 <= j < |before| && j != k ==> after[j] == before[j]
  }

  /** Every access overwrites exactly one line, with a valid line holding
      the tag and the new stamp. */
  lemma AccessSetTouchesOneLine(lines: seq<Line>, tag: nat, stamp: nat)
    requires |lines| >= 1
    ensures var after := AccessSet(lines, tag, stamp).lines;
      exists k: nat :: OnlyLineChanged(lines, after, k) && after[k] == Line(true, tag, stamp)
  {
    var after := AccessSet(lines, tag, stamp).lines;
    var h := FirstMatch(lines, tag, 0);
    var f := FirstInvalid(lines, 0);
    var v := MinIndex(lines, |lines|);
    var k := if h < |lines| then h else if f < |lines| then f else v;
    assert OnlyLineChanged(lines, after, k) && after[k] == Line(true, tag, stamp);
  }

  /** When every stamp is below the new one, the touched line really does
      change: exactly one line of the set differs afterwards. */
  lemma AccessSetChangesExactlyOne(lines: seq<Line>, tag: nat, stamp: nat)
    requires |lines| >= 1
    requires forall j :: 0 <= j < |lines| ==> lines[j].lru < stamp
    ensures var after := AccessSet(lines, tag, stamp).lines;
      exists k: nat :: OnlyLineChanged(lines, after, k) && after[k] != lines[k]
  {
    var after := AccessSet(lines, tag, stamp).lines;
    AccessSetTouchesOneLine(lines, tag, stamp);
    var k: nat :| OnlyLineChanged(lines, after, k) && after[k] == Line(true, tag, stamp);
    assert after[k] != lines[k];
  }

  /** After an access the tag is held by a valid line of the set. */
  lemma AccessSetHolds(lines: seq<Line>, tag: nat, stamp: nat)
    requires |lines| >= 1
    ensures Holds(AccessSet(lines, tag, stamp).lines, tag)
  {
    var after := AccessSet(lines, tag, stamp).lines;
    AccessSetTouchesOneLine(lines, tag, stamp);
    var k: nat :| OnlyLineChanged(lines, after, k) && after[k] == Line(true, tag, stamp);
    assert Matches(after[k], tag);
  }

  /** An access never gives two valid lines of the set the same tag. */
  lemma AccessSetKeepsTagsDistinct(lines: seq<Line>, tag: nat, stamp: nat)
    requires |lines| >= 1 && DistinctTags(lines)
    ensures DistinctTags(AccessSet(lines, tag, stamp).lines)
  {
    var after := AccessSet(lines, tag, stamp).lines;
    AccessSetOutcome(lines, tag, stamp);
    AccessSetTouchesOneLine(lines, tag, stamp);
    var k: nat :| OnlyLineChanged(lines, after, k) && after[k] == Line(true, tag, stamp);
    if AccessSet(lines, tag, stamp).outcome == Hit {
      assert forall j :: 0 <= j < |lines| ==> after[j].valid == lines[j].valid && after[j].tag == lines[j].tag;
    } else {
      forall i, j | 0 <= i < j < |after| && after[i].valid && after[j].valid
        ensures after[i].tag != after[j].tag
      {
        if i == k {
          assert !Matches(lines[j], tag);
        } else if j == k {
          assert !Matches(lines[i], tag);
        }
      }
    }
  }

  /** An access keeps every stamp at most the new one. */
  lemma AccessSetKeepsStampsBounded(lines: seq<Line>, tag: nat, stamp: nat, bound: nat)
    requires |lines| >= 1 && StampsAtMost(lines, bound) && bound <= stamp
    ensures StampsAtMost(AccessSet(lines, tag, stamp).lines, stamp)
  {
    AccessSetTouchesOneLine(lines, tag, stamp);
  }

  /** An access keeps the stamps of valid lines distinct and positive,
      provided every stamp is older than the new one. */
  lemma AccessSetKeepsStampsDistinct(lines: seq<Line>, tag: nat, stamp: nat)
    requires |lines| >= 1 && DistinctStamps(lines) && stamp >= 1
    requires forall k :: 0 <= k < |lines| ==> lines[k].lru < stamp
    ensures DistinctStamps(AccessSet(lines, tag, stamp).lines)
  {
    var after := AccessSet(lines, tag, stamp).lines;
    AccessSetTouchesOneLine(lines, tag, stamp);
    var k: nat :| OnlyLineChanged(lines, after, k) && after[k] == Line(true, tag, stamp);
    forall i, j | 0 <= i < j < |after| && after[i].valid && after[j].valid
      ensures after[i].lru != after[j].lru
    {
      if i == k {
        assert after[j] == lines[j];
      } else if j == k {
        assert after[i] == lines[i];
      } else {
        assert after[i] == lines[i] && after[j] == lines[j];
      }
    }
  }

  /** What every set of a consistent cache satisfies when the counter is
      at `clock`. */
  predicate SetInvariant(lines: seq<Line>, clock: nat)
  {
    DistinctTags(lines) && StampsAtMost(lines, clock) && DistinctStamps(lines)
  }

  /** An access with the next counter value keeps the set invariant. */
  lemma AccessSetKeepsInvariant(lines: seq<Line>, tag: nat, clock: nat)
    requires |lines| >= 1 && SetInvariant(lines, clock)
    ensures SetInvariant(AccessSet(lines, tag, clock + 1).lines, clock + 1)
  {
    AccessSetKeepsTagsDistinct(lines, tag, clock + 1);
    AccessSetKeepsStampsBounded(lines, tag, clock + 1, clock);
    AccessSetKeepsStampsDistinct(lines, tag, clock + 1);
  }

  /** In a full set with distinct stamps the least stamp is unique, so the
      lowest-index tie-break of the LRU scan never decides anything: the
      victim is the one line of least stamp. */
  lemma VictimUnique(lines: seq<Line>, v: nat)
    requires Full(lines) && DistinctStamps(lines) && IsVictim(lines, |lines|, v)
    ensures forall j :: 0 <= j < |lines| && j != v ==> lines[v].lru < lines[j].lru
  {
    forall j | 0 <= j < |lines| && j != v
      ensures lines[v].lru < lines[j].lru
    {
      if j < v {
        assert lines[j].lru != lines[v].lru;
      } else {
        assert lines[v].lru != lines[j].lru;
      }
    }
  }

  /** Direct-mapped sets (one line): a hit exactly when that line is valid
      with the tag, an eviction exactly when it is valid with another tag. */
  lemma DirectMapped(lines: seq<Line>, tag: nat, stamp: nat)
    requires |lines| == 1
    ensures AccessSet(lines, tag, stamp).outcome == Hit <==> Matches(lines[0], tag)
    ensures AccessSet(lines, tag, stamp).outcome == Evict <==> lines[0].valid && lines[0].tag != tag
  {
    AccessSetOutcome(lines, tag, stamp);
    if Matches(lines[0], tag) {
      assert Holds(lines, tag);
    }
  }
}
