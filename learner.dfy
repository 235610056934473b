/** The learner role: it keeps the latest proposal each acceptor has taught it
    and recomputes, after every effective lesson, whether one value is held by
    a quorum of acceptors (Boyer-Moore majority vote, then a counting pass). */
module Learner {
  import opened Core

  /** `numAcceptors / 2 + 1` with Java's int division, which truncates toward
      zero: the half is `numAcceptors` divided by two and rounded toward zero,
      also for a negative count. */
  function Threshold(numAcceptors: int): (r: int)
    ensures var half := r - 1;
      && (numAcceptors >= 0 ==> 0 <= numAcceptors - 2 * half <= 1)
      && (numAcceptors < 0 ==> 0 <= 2 * half - numAcceptors <= 1)
  {
    (if numAcceptors >= 0 then numAcceptors / 2 else -((-numAcceptors) / 2)) + 1
  }

  /** For a non-negative number of acceptors the threshold is a strict majority. */
  lemma ThresholdIsStrictMajority(n: int, c: int)
    requires n >= 0
    ensures c >= Threshold(n) <==> 2 * c > n
  {
  }

  /** The acceptor ids among `ids` whose latest proposal carries `v`. */
  function HoldersIn<V(==)>(m: map<int, Proposal<V>>, ids: set<int>, v: V): set<int> {
    set id | id in ids && id in m && m[id].value == v
  }

  /** The acceptor ids whose latest proposal carries `v`. */
  function Holders<V(==)>(m: map<int, Proposal<V>>, v: V): set<int> {
    HoldersIn(m, m.Keys, v)
  }

  /** Whether `teach(id, p)` replaces what the learner knows of `id`: only a
      strictly higher ballot (or a first lesson) does. */
  predicate Supersedes<V(==)>(m: map<int, Proposal<V>>, id: int, p: Proposal<V>): (b: bool)
    ensures b ==> m[id := p] != m
    ensures !b ==> id in m && p.proposalNumber <= m[id].proposalNumber
  {
    id !in m || m[id].proposalNumber < p.proposalNumber
  }

  /** What `calculateConsensusValue` may return for the map `m`, whatever order
      the map's values are enumerated in: nothing for an empty map; only a value
      held by at least `Threshold(n)` ids; nothing only when some taught value
      falls short of the threshold; and the value held by a strict majority of
      the ids whenever it also reaches the threshold (such a value is held by
      some id, so quantifying over the ids covers every value). Every order's
      result satisfies it; when more ids than `n` have taught, so can results
      that no order produces. */
  ghost predicate IsConsensusOf<V>(m: map<int, Proposal<V>>, n: int, r: Option<V>) {
    && (m == map[] ==> r == None)
    && (r.Some? ==> Holders(m, r.value) != {} && |Holders(m, r.value)| >= Threshold(n))
    && (m != map[] && r.None? ==> exists id :: id in m && |Holders(m, m[id].value)| < Threshold(n))
    && (forall id :: id in m && 2 * |Holders(m, m[id].value)| > |m| && |Holders(m, m[id].value)| >= Threshold(n)
          ==> r == Some(m[id].value))
  }

  lemma HoldersInRemove<V>(m: map<int, Proposal<V>>, ids: set<int>, k: int, v: V)
    requires k in ids && k in m
    ensures |HoldersIn(m, ids, v)| == |HoldersIn(m, ids - {k}, v)| + (if m[k].value == v then 1 else 0)
  {
    if m[k].value == v {
      assert HoldersIn(m, ids, v) == HoldersIn(m, ids - {k}, v) + {k};
    } else {
      assert HoldersIn(m, ids, v) == HoldersIn(m, ids - {k}, v);
    }
  }

  lemma Empty(s: set<int>)
    requires forall x :: x !in s
    ensures s == {}
  {
    assert forall x :: x in s <==> x in {};
  }

  lemma NonEmpty(s: set<int>)
    requires s != {}
    ensures exists x :: x in s
  {
    if forall x :: x !in s {
      Empty(s);
      assert false;
    }
  }

  /** The values of `m`, one per key, in an arbitrary order (the order of a
      `HashMap`'s value view is unspecified): each value occurs as often as
      there are ids holding it. */
  method EnumerateValues<V(==)>(m: map<int, Proposal<V>>) returns (values: seq<V>)
    ensures |values| == |m|
    ensures forall id :: id in m ==> Occurrences(values, m[id].value) == |Holders(m, m[id].value)|
    ensures forall i :: 0 <= i < |values| ==> Occurrences(values, values[i]) == |Holders(m, values[i])|
  {
    values := [];
    var rest := m.Keys;
    while rest != {}
      invariant rest <= m.Keys
      invariant |values| + |rest| == |m|
      invariant forall v :: Occurrences(values, v) + |HoldersIn(m, rest, v)| == |Holders(m, v)|
      decreases |rest|
    {
      NonEmpty(rest);
      var k :| k in rest;
      forall v
        ensures Occurrences(values + [m[k].value], v) + |HoldersIn(m, rest - {k}, v)| == |Holders(m, v)|
      {
        OccurrencesAppend(values, m[k].value, v);
        HoldersInRemove(m, rest, k, v);
      }
      values := values + [m[k].value];
      rest := rest - {k};
    }
    forall v ensures HoldersIn(m, {}, v) == {} {
    }
  }

  /** What the voting pass knows after reading `prefix`: the candidate occurs
      in it, and `score` bounds how far any value can be ahead of the rest. */
  ghost predicate MooreInvariant<V>(prefix: seq<V>, candidate: V, score: int) {
    && score >= 1
    && candidate in prefix
    && score <= |prefix|
    && 2 * Occurrences(prefix, candidate) - |prefix| <= score
    && forall x :: x in prefix && x != candidate ==> 2 * Occurrences(prefix, x) - |prefix| <= 1 - score
  }

  /** One vote keeps the invariant: a matching value raises the score, any other
      lowers it, and a value that brings it to zero becomes the candidate. */
  lemma MooreStep<V>(prefix: seq<V>, candidate: V, score: int, other: V, candidate': V, score': int)
    requires MooreInvariant(prefix, candidate, score)
    requires other == candidate ==> candidate' == candidate && score' == score + 1
    requires other != candidate && score > 1 ==> candidate' == candidate && score' == score - 1
    requires other != candidate && score == 1 ==> candidate' == other && score' == 1
    ensures MooreInvariant(prefix + [other], candidate', score')
  {
    var next := prefix + [other];
    OccurrencesAppend(prefix, other, candidate);
    OccurrencesAppend(prefix, other, candidate');
    forall x | x in next && x != candidate'
      ensures 2 * Occurrences(next, x) - |next| <= 1 - score'
    {
      OccurrencesAppend(prefix, other, x);
      if x !in prefix {
        OccurrencesAbsent(prefix, x);
      }
    }
    if other !in prefix {
      OccurrencesAbsent(prefix, other);
    }
  }

  /** The invariant holds once the first value is the candidate with score 1. */
  lemma MooreStart<V>(values: seq<V>)
    requires |values| > 0
    ensures MooreInvariant(values[..1], values[0], 1)
  {
    assert values[..1] == [] + [values[0]];
    OccurrencesAppend([], values[0], values[0]);
  }

  /** At the end of the list, a value that fills more than half of it can only
      be the candidate. */
  lemma MooreFinish<V>(values: seq<V>, candidate: V, score: int)
    requires MooreInvariant(values, candidate, score)
    ensures forall v :: 2 * Occurrences(values, v) > |values| ==> candidate == v
  {
    forall v | 2 * Occurrences(values, v) > |values|
      ensures candidate == v
    {
      if v !in values {
        OccurrencesAbsent(values, v);
      }
    }
  }

  /** Pass 1 of `calculateConsensusValue`: Moore's voting algorithm as the
      source writes it (an element that brings the score to zero becomes the
      new candidate with score 1). The candidate occurs in `values`, and it is
      the value that fills more than half of `values` whenever there is one. */
  method MooreCandidate<V(==)>(values: seq<V>) returns (candidate: V, score: int)
    requires |values| > 0
    ensures score >= 1
    ensures candidate in values
    ensures forall v :: 2 * Occurrences(values, v) > |values| ==> candidate == v
  {
    candidate := values[0];
    score := 1;
    MooreStart(values);
    var i := 1;
    while i < |values|
      invariant 1 <= i <= |values|
      invariant MooreInvariant(values[..i], candidate, score)
    {
      var other := values[i];
      ghost var (c0, s0) := (candidate, score);
      if other == candidate {
        score := score + 1;
      } else {
        score := score - 1;
      }
      if score == 0 {
        candidate := other;
        score := 1;
      }
      MooreStep(values[..i], c0, s0, other, candidate, score);
      assert values[..i + 1] == values[..i] + [other];
      i := i + 1;
    }
    assert values[..i] == values;
    MooreFinish(values, candidate, score);
  }

  /** A value that reaches the threshold of `n >= |m|` acceptors is held by a
      strict majority of the ids, so an admissible result must report it. */
  lemma QuorumValueReported<V>(m: map<int, Proposal<V>>, n: int, r: Option<V>, v: V)
    requires IsConsensusOf(m, n, r)
    requires |m| <= n && |Holders(m, v)| >= Threshold(n)
    ensures r == Some(v)
  {
    ThresholdIsStrictMajority(n, |Holders(m, v)|);
    NonEmpty(Holders(m, v));
    var id :| id in Holders(m, v);
    assert m[id].value == v;
  }

  /** Whenever at most `n` acceptors have taught the learner, a value is
      reported exactly when some value is held by a quorum of ids. */
  lemma ConsensusWhenBounded<V>(m: map<int, Proposal<V>>, n: int, r: Option<V>)
    requires IsConsensusOf(m, n, r)
    requires |m| <= n
    ensures r.Some? <==> exists v :: |Holders(m, v)| >= Threshold(n)
  {
    if v :| |Holders(m, v)| >= Threshold(n) {
      QuorumValueReported(m, n, r, v);
    }
  }

  /** With at most `n` teaching acceptors the reported value does not depend on
      the enumeration order: any two admissible results agree. */
  lemma ConsensusUnique<V>(m: map<int, Proposal<V>>, n: int, r1: Option<V>, r2: Option<V>)
    requires IsConsensusOf(m, n, r1) && IsConsensusOf(m, n, r2)
    requires |m| <= n
    ensures r1 == r2
  {
    if r1.Some? {
      QuorumValueReported(m, n, r2, r1.value);
    } else if r2.Some? {
      QuorumValueReported(m, n, r1, r2.value);
    }
  }

  /** At most one value fills more than half of a list, so the value the
      voting pass is bound to find, when there is one, is well defined. */
  lemma MajorityValueUnique<V>(values: seq<V>, v: V, w: V)
    requires 2 * Occurrences(values, v) > |values| && 2 * Occurrences(values, w) > |values|
    ensures v == w
  {
    if v != w {
      OccurrencesOfTwo(values, v, w);
      assert false;
    }
  }

  /** A learner of one acceptor that has been taught a single lesson reports
      that lesson's value. */
  lemma SingleLessonReported<V>(m: map<int, Proposal<V>>, id: int, p: Proposal<V>, r: Option<V>)
    requires m == map[id := p] && IsConsensusOf(m, 1, r)
    ensures r == Some(p.value)
  {
    assert m.Keys == {id};
    assert Holders(m, p.value) == {id};
    QuorumValueReported(m, 1, r, p.value);
  }

  /** `LearnerImpl`: the taught proposals by acceptor id and the cached
      consensus value, which is recomputed after every effective lesson. */
  class LearnerImpl<V(==)> {
    const numAcceptors: int
    var taughtValues: map<int, Proposal<V>>
    var consensusValue: Option<V>

    ghost predicate Valid()
      reads this
    {
      IsConsensusOf(taughtValues, numAcceptors, consensusValue)
    }

    constructor (numAcceptors: int)
      ensures Valid()
      ensures this.numAcceptors == numAcceptors && taughtValues == map[] && consensusValue == None
    {
      this.numAcceptors := numAcceptors;
      taughtValues := map[];
      consensusValue := None;
    }

    /** The read of the decided value; the source waits until one is present,
        here presence is the precondition. */
    method GetValue() returns (v: V)
      requires Valid() && consensusValue.Some?
      ensures consensusValue == Some(v)
      ensures |Holders(taughtValues, v)| >= Threshold(numAcceptors)
    {
      v := consensusValue.value;
    }

    method Teach(acceptorId: int, proposal: Proposal<V>)
      requires Valid()
      modifies this
      ensures Valid()
      ensures Supersedes(old(taughtValues), acceptorId, proposal) ==>
        taughtValues == old(taughtValues)[acceptorId := proposal]
      ensures !Supersedes(old(taughtValues), acceptorId, proposal) ==>
        taughtValues == old(taughtValues) && consensusValue == old(consensusValue)
    {
      var newValue := acceptorId !in taughtValues ||
        taughtValues[acceptorId].proposalNumber < proposal.proposalNumber;
      if newValue {
        taughtValues := taughtValues[acceptorId := proposal];
        consensusValue := CalculateConsensusValue();
      }
    }

    method CalculateConsensusValue() returns (r: Option<V>)
      ensures IsConsensusOf(taughtValues, numAcceptors, r)
    {
      if |taughtValues| == 0 {
        return None;
      }
      var values := EnumerateValues(taughtValues);
      var candidate, score := MooreCandidate(values);
      var count := Occurrences(values, candidate);
      var k :| 0 <= k < |values| && values[k] == candidate;
      assert count == |Holders(taughtValues, values[k])|;
      OccurrencesOfMember(values, candidate);
      if count >= Threshold(numAcceptors) {
        r := Some(candidate);
      } else {
        NonEmpty(Holders(taughtValues, candidate));
        var id :| id in Holders(taughtValues, candidate);
        assert |Holders(taughtValues, taughtValues[id].value)| < Threshold(numAcceptors);
        r := None;
      }
      forall id | id in taughtValues && 2 * |Holders(taughtValues, taughtValues[id].value)| > |taughtValues|
        ensures candidate == taughtValues[id].value
      {
      }
    }
  }

  /** `learnSubsequentValue`: one acceptor out of one teaches `v` under ballot
      1 and then `w` under ballot 2; the learner reports `v` and then `w`,
      since the cached value is recomputed after every effective lesson. */
  method LearnSubsequentValue<V(==)>(v: V, w: V) returns (first: V, second: V)
    ensures first == v && second == w
  {
    var learner := new LearnerImpl<V>(1);
    learner.Teach(1, Proposal(1, v));
    SingleLessonReported(learner.taughtValues, 1, Proposal(1, v), learner.consensusValue);
    first := learner.GetValue();
    learner.Teach(1, Proposal(2, w));
    assert learner.taughtValues == map[1 := Proposal(2, w)];
    SingleLessonReported(learner.taughtValues, 1, Proposal(2, w), learner.consensusValue);
    second := learner.GetValue();
  }

  /** `rejectPriorValue`: after `w` under ballot 2, a lesson `v` under ballot 1
      from the same acceptor is ignored and `w` is still reported. */
  method RejectPriorValue<V(==)>(v: V, w: V) returns (value: V)
    ensures value == w
  {
    var learner := new LearnerImpl<V>(1);
    learner.Teach(1, Proposal(2, w));
    SingleLessonReported(learner.taughtValues, 1, Proposal(2, w), learner.consensusValue);
    learner.Teach(1, Proposal(1, v));
    value := learner.GetValue();
  }
}
