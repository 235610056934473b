/** The proposer role: it drives a proposal through the two phases of Paxos
    (prepare, then accept) against a fixed collection of acceptors, bumping the
    ballot when phase 1 lacks a quorum and starting over when phase 2 does. */
module Proposer {
  import opened Core

  /** The ballot of a proposer's first proposal. */
  const InitialProposalNumber := 1

  /** The acceptors a proposer is wired to, seen through their replies: there
      are `size` of them, and `prepare(t, j, p)` and `accept(t, j, p)` are what
      acceptor `j` answers to the proposer's broadcast number `t`. Nothing
      constrains these functions, so they stand for any acceptor behaviour,
      including one that depends on everything sent before. */
  datatype Acceptors<!V> = Acceptors(
    size: nat,
    prepare: (nat, nat, Proposal<V>) -> Option<Promise<V>>,
    accept: (nat, nat, Proposal<V>) -> bool)

  /** Broadcast number `t` of a prepare request: the same proposal goes to
      every acceptor, and the replies come back in acceptor order. */
  function PrepareAll<V>(acceptors: Acceptors<V>, t: nat, p: Proposal<V>): seq<Option<Promise<V>>> {
    seq(acceptors.size, j requires 0 <= j => acceptors.prepare(t, j, p))
  }

  /** Broadcast number `t` of an accept request. */
  function AcceptAll<V>(acceptors: Acceptors<V>, t: nat, p: Proposal<V>): seq<bool> {
    seq(acceptors.size, j requires 0 <= j => acceptors.accept(t, j, p))
  }

  /** Quorum size for `n` replies: `n / 2 + 1`. */
  function Quorum(n: nat): nat {
    n / 2 + 1
  }

  /** Which acceptors answered a prepare request at all. */
  function Responded<V>(rs: seq<Option<Promise<V>>>): (mask: seq<bool>)
    ensures |mask| == |rs|
    ensures forall j :: 0 <= j < |rs| ==> mask[j] == rs[j].Some?
  {
    seq(|rs|, j requires 0 <= j < |rs| => rs[j].Some?)
  }

  /** `hasPrepareQuorum`: a strict majority of the acceptors granted the prepare. */
  function HasPrepareQuorum<V>(rs: seq<Option<Promise<V>>>): (q: bool)
    ensures q <==> 2 * Occurrences(Responded(rs), true) > |rs|
  {
    Occurrences(Responded(rs), true) >= Quorum(|rs|)
  }

  /** `hasAcceptQuorum`: a strict majority accepted; never so with no acceptors. */
  function HasAcceptQuorum(rs: seq<bool>): (q: bool)
    ensures q <==> 2 * Occurrences(rs, true) > |rs|
    ensures q ==> |rs| > 0
  {
    Occurrences(rs, true) >= Quorum(|rs|)
  }

  lemma {:induction false} DisjointMasks(a: seq<bool>, b: seq<bool>)
    requires |a| == |b|
    requires forall j :: 0 <= j < |a| ==> !(a[j] && b[j])
    ensures Occurrences(a, true) + Occurrences(b, true) <= |a|
  {
    if a != [] {
      var n := |a| - 1;
      DisjointMasks(a[..n], b[..n]);
    }
  }

  /** Two strict majorities of the same acceptors share an acceptor. */
  lemma MajoritiesIntersect(a: seq<bool>, b: seq<bool>)
    requires |a| == |b|
    requires 2 * Occurrences(a, true) > |a| && 2 * Occurrences(b, true) > |b|
    ensures exists j :: 0 <= j < |a| && a[j] && b[j]
  {
    if forall j :: 0 <= j < |a| ==> !(a[j] && b[j]) {
      DisjointMasks(a, b);
      assert false;
    }
  }

  /** Any two prepare rounds that both reach a quorum over the same acceptors
      were granted by at least one common acceptor. */
  lemma PrepareQuorumsIntersect<V>(a: seq<Option<Promise<V>>>, b: seq<Option<Promise<V>>>)
    requires |a| == |b| && HasPrepareQuorum(a) && HasPrepareQuorum(b)
    ensures exists j :: 0 <= j < |a| && a[j].Some? && b[j].Some?
  {
    MajoritiesIntersect(Responded(a), Responded(b));
    var j :| 0 <= j < |a| && Responded(a)[j] && Responded(b)[j];
  }

  /** Any two accept rounds that both reach a quorum over the same acceptors
      were accepted by at least one common acceptor. */
  lemma AcceptQuorumsIntersect(a: seq<bool>, b: seq<bool>)
    requires |a| == |b| && HasAcceptQuorum(a) && HasAcceptQuorum(b)
    ensures exists j :: 0 <= j < |a| && a[j] && b[j]
  {
    MajoritiesIntersect(a, b);
  }

  /** A reply that grants the prepare and carries an already accepted proposal. */
  predicate Carries<V>(r: Option<Promise<V>>) {
    r.Some? && r.value.HasProposal()
  }

  /** The comparator of `getMaximalProposal`: the difference of the ballots,
      so its sign orders proposals by ballot. */
  function CompareBallots<V>(p1: Proposal<V>, p2: Proposal<V>): (r: int)
    ensures r >= 0 <==> p1.proposalNumber >= p2.proposalNumber
    ensures r == 0 <==> p1.proposalNumber == p2.proposalNumber
  {
    p1.proposalNumber - p2.proposalNumber
  }

  /** `getMaximalProposal`: of the proposals carried by the replies, one with
      the highest ballot; the stream's `max` keeps the earlier one on a tie.
      Nothing when no reply carries a proposal. */
  function GetMaximalProposal<V>(rs: seq<Option<Promise<V>>>): (best: Option<Proposal<V>>)
    ensures best.None? <==> forall j :: 0 <= j < |rs| ==> !Carries(rs[j])
    ensures best.Some? ==> forall j :: 0 <= j < |rs| && Carries(rs[j]) ==>
      rs[j].value.GetProposal().proposalNumber <= best.value.proposalNumber
    ensures best.Some? ==>
      exists j :: 0 <= j < |rs| && Carries(rs[j]) && rs[j].value.GetProposal() == best.value &&
        forall i :: 0 <= i < j && Carries(rs[i]) ==> rs[i].value.GetProposal().proposalNumber < best.value.proposalNumber
  {
    if rs == [] then None
    else
      var earlier := GetMaximalProposal(rs[..|rs| - 1]);
      var last := rs[|rs| - 1];
      if !Carries(last) then earlier
      else if earlier.Some? && CompareBallots(earlier.value, last.value.GetProposal()) >= 0 then earlier
      else Some(last.value.GetProposal())
  }

  /** Replies that include all of `a`'s lead to a ballot at least as high. */
  lemma MaximalBallotDominates<V>(a: seq<Option<Promise<V>>>, b: seq<Option<Promise<V>>>)
    requires forall r :: r in a ==> r in b
    ensures GetMaximalProposal(a).Some? ==>
      GetMaximalProposal(b).Some? &&
      GetMaximalProposal(a).value.proposalNumber <= GetMaximalProposal(b).value.proposalNumber
  {
    var ma := GetMaximalProposal(a);
    if ma.Some? {
      var j :| 0 <= j < |a| && Carries(a[j]) && a[j].value.GetProposal() == ma.value;
      assert a[j] in b;
      var k :| 0 <= k < |b| && b[k] == a[j];
    }
  }

  /** Which ballot `getMaximalProposal` finds depends only on which replies
      came back, not on the order of the acceptors or repeated replies. */
  lemma MaximalBallotOrderIndependent<V>(a: seq<Option<Promise<V>>>, b: seq<Option<Promise<V>>>)
    requires forall r :: r in a <==> r in b
    ensures GetMaximalProposal(a).None? <==> GetMaximalProposal(b).None?
    ensures GetMaximalProposal(a).Some? ==>
      GetMaximalProposal(a).value.proposalNumber == GetMaximalProposal(b).value.proposalNumber
  {
    MaximalBallotDominates(a, b);
    MaximalBallotDominates(b, a);
  }

  /** The proposal after one prepare round (`phase1`'s loop body): without a
      quorum the ballot goes up by one and the value stays; with a quorum the
      ballot stays and the value becomes that of a highest-ballot proposal the
      replies carry (the earliest such on a tie, as `getMaximalProposal`
      returns it), or stays when they carry none. */
  function NextProposal<V>(p: Proposal<V>, rs: seq<Option<Promise<V>>>): (next: Proposal<V>)
    ensures !HasPrepareQuorum(rs) ==> next == Proposal(p.proposalNumber + 1, p.value)
    ensures HasPrepareQuorum(rs) ==> next.proposalNumber == p.proposalNumber
    ensures HasPrepareQuorum(rs) && (forall j :: 0 <= j < |rs| ==> !Carries(rs[j])) ==> next == p
    ensures HasPrepareQuorum(rs) && (exists j :: 0 <= j < |rs| && Carries(rs[j])) ==>
      exists j :: 0 <= j < |rs| && Carries(rs[j]) && next.value == rs[j].value.GetProposal().value &&
        (forall i :: 0 <= i < |rs| && Carries(rs[i]) ==>
          rs[i].value.GetProposal().proposalNumber <= rs[j].value.GetProposal().proposalNumber) &&
        (forall i :: 0 <= i < j && Carries(rs[i]) ==>
          rs[i].value.GetProposal().proposalNumber < rs[j].value.GetProposal().proposalNumber)
  {
    if HasPrepareQuorum(rs) then
      match GetMaximalProposal(rs)
      case Some(best) => Proposal(p.proposalNumber, best.value)
      case None => p
    else
      Proposal(p.proposalNumber + 1, p.value)
  }

  /** One broadcast of the proposer together with the replies it got. */
  datatype Round<V> =
    | PrepareRound(proposal: Proposal<V>, promises: seq<Option<Promise<V>>>)
    | AcceptRound(proposal: Proposal<V>, accepted: seq<bool>)

  /** A phase 2 that reached its quorum: `propose` returns after it. */
  predicate Succeeded<V>(r: Round<V>) {
    r.AcceptRound? && HasAcceptQuorum(r.accepted)
  }

  /** The proposal the proposer holds after round `r`. */
  function NextSent<V>(r: Round<V>): Proposal<V> {
    match r
    case PrepareRound(p, rs) => NextProposal(p, rs)
    case AcceptRound(p, _) => p
  }

  /** Round `r2` may come right after `r1` within one call of `propose`: it
      sends what the proposer holds after `r1`; a prepare round with a quorum
      is followed by phase 2, one without by another prepare round; a failed
      phase 2 is followed by phase 1 again, and a successful one by nothing. */
  ghost predicate Follows<V>(r1: Round<V>, r2: Round<V>) {
    && r2.proposal == NextSent(r1)
    && match r1
       case PrepareRound(_, rs) => r2.AcceptRound? == HasPrepareQuorum(rs)
       case AcceptRound(_, res) => !HasAcceptQuorum(res) && r2.PrepareRound?
  }

  /** The replies recorded in `r` are those the acceptors give to broadcast `t`. */
  ghost predicate Answered<V>(acceptors: Acceptors<V>, t: nat, r: Round<V>) {
    match r
    case PrepareRound(p, rs) => rs == PrepareAll(acceptors, t, p)
    case AcceptRound(p, res) => res == AcceptAll(acceptors, t, p)
  }

  /** `rounds` is what one call of `propose` sends, starting at broadcast `t0`
      with proposal `p0`: it opens with phase 1 and each round follows the last. */
  ghost predicate IsRun<V>(acceptors: Acceptors<V>, t0: nat, p0: Proposal<V>, rounds: seq<Round<V>>) {
    && (|rounds| > 0 ==> rounds[0].PrepareRound? && rounds[0].proposal == p0)
    && (forall i :: 0 <= i < |rounds| ==> Answered(acceptors, t0 + i, rounds[i]))
    && (forall i :: 0 < i < |rounds| ==> Follows(rounds[i - 1], rounds[i]))
  }

  /** The proposal held after the rounds of a run that started from `p0`. */
  function Pending<V>(p0: Proposal<V>, rounds: seq<Round<V>>): Proposal<V> {
    if rounds == [] then p0 else NextSent(rounds[|rounds| - 1])
  }

  lemma RunExtends<V>(acceptors: Acceptors<V>, t0: nat, p0: Proposal<V>, rounds: seq<Round<V>>, r: Round<V>)
    requires IsRun(acceptors, t0, p0, rounds)
    requires Answered(acceptors, t0 + |rounds|, r)
    requires r.proposal == Pending(p0, rounds)
    requires rounds == [] ==> r.PrepareRound?
    requires rounds != [] ==> Follows(rounds[|rounds| - 1], r)
    ensures IsRun(acceptors, t0, p0, rounds + [r])
  {
    var next := rounds + [r];
    forall i | 0 < i < |next|
      ensures Follows(next[i - 1], next[i])
    {
      if i < |rounds| {
        assert next[i - 1] == rounds[i - 1] && next[i] == rounds[i];
      }
    }
  }

  /** Within one call of `propose` the ballot never decreases. */
  lemma {:induction false} BallotsNeverDecrease<V>(acceptors: Acceptors<V>, t0: nat, p0: Proposal<V>,
                                                   rounds: seq<Round<V>>, i: nat, j: nat)
    requires IsRun(acceptors, t0, p0, rounds)
    requires i <= j < |rounds|
    ensures rounds[i].proposal.proposalNumber <= rounds[j].proposal.proposalNumber
    decreases j
  {
    if i < j {
      BallotsNeverDecrease(acceptors, t0, p0, rounds, i, j - 1);
      assert Follows(rounds[j - 1], rounds[j]);
    }
  }

  /** What comes after a round that is not the last of a run: after phase 1
      without a quorum, phase 1 again with the ballot one higher and the same
      value; after phase 1 with a quorum, phase 2 with the same ballot and the
      adopted value; after phase 2, which then failed, phase 1 again with the
      same proposal. */
  lemma RoundSuccessor<V>(acceptors: Acceptors<V>, t0: nat, p0: Proposal<V>, rounds: seq<Round<V>>, i: nat)
    requires IsRun(acceptors, t0, p0, rounds)
    requires i + 1 < |rounds|
    ensures rounds[i].PrepareRound? && !HasPrepareQuorum(rounds[i].promises) ==>
      rounds[i + 1].PrepareRound? &&
      rounds[i + 1].proposal == Proposal(rounds[i].proposal.proposalNumber + 1, rounds[i].proposal.value)
    ensures rounds[i].PrepareRound? && HasPrepareQuorum(rounds[i].promises) ==>
      rounds[i + 1].AcceptRound? &&
      rounds[i + 1].proposal == NextProposal(rounds[i].proposal, rounds[i].promises) &&
      rounds[i + 1].proposal.proposalNumber == rounds[i].proposal.proposalNumber
    ensures rounds[i].AcceptRound? ==>
      !Succeeded(rounds[i]) && rounds[i + 1].PrepareRound? && rounds[i + 1].proposal == rounds[i].proposal
  {
    assert Follows(rounds[i + 1 - 1], rounds[i + 1]);
  }

  /** Phase 2 only ever runs right after a phase 1 that reached a quorum, with
      that round's ballot; a successful phase 2 ends the run. */
  lemma AcceptFollowsQuorum<V>(acceptors: Acceptors<V>, t0: nat, p0: Proposal<V>, rounds: seq<Round<V>>, i: nat)
    requires IsRun(acceptors, t0, p0, rounds)
    requires i < |rounds| && rounds[i].AcceptRound?
    ensures 0 < i && rounds[i - 1].PrepareRound? && HasPrepareQuorum(rounds[i - 1].promises)
    ensures rounds[i].proposal.proposalNumber == rounds[i - 1].proposal.proposalNumber
    ensures Succeeded(rounds[i]) ==> i == |rounds| - 1
  {
    assert i > 0;
    assert Follows(rounds[i - 1], rounds[i]);
    if i < |rounds| - 1 {
      assert Follows(rounds[i], rounds[i + 1]);
    }
  }

  /** A value that some granted promise of a quorum prepare round among
      `rounds[..k]` carried. */
  ghost predicate AdoptableBefore<V>(rounds: seq<Round<V>>, k: nat, v: V)
    requires k <= |rounds|
  {
    exists i, j :: 0 <= i < k && rounds[i].PrepareRound? && HasPrepareQuorum(rounds[i].promises) &&
      0 <= j < |rounds[i].promises| && Carries(rounds[i].promises[j]) &&
      rounds[i].promises[j].value.GetProposal().value == v
  }

  /** Every value a run sends is either the value it started with or one that
      an acceptor reported as already accepted during an earlier phase 1 with a
      quorum (the adoption rule never invents a value). */
  lemma {:induction false} ValueProvenance<V>(acceptors: Acceptors<V>, t0: nat, p0: Proposal<V>,
                                              rounds: seq<Round<V>>, k: nat)
    requires IsRun(acceptors, t0, p0, rounds)
    requires k < |rounds|
    ensures rounds[k].proposal.value == p0.value || AdoptableBefore(rounds, k, rounds[k].proposal.value)
    decreases k
  {
    if k > 0 {
      ValueProvenance(acceptors, t0, p0, rounds, k - 1);
      var prev := rounds[k - 1];
      assert Follows(prev, rounds[k]);
      var v := rounds[k].proposal.value;
      if v != prev.proposal.value {
        var j := AdoptedFrom(prev.proposal, prev.promises);
        assert AdoptableBefore(rounds, k, v) by {
          assert 0 <= k - 1 < k && rounds[k - 1].PrepareRound? && Carries(rounds[k - 1].promises[j]);
        }
      } else if v != p0.value {
        AdoptableGrows(rounds, k - 1, v);
      }
    }
  }

  /** A value that differs from the one proposed came from a carried proposal
      of a prepare round with a quorum; `j` is the acceptor that carried it. */
  lemma AdoptedFrom<V>(p: Proposal<V>, rs: seq<Option<Promise<V>>>) returns (j: nat)
    requires NextProposal(p, rs).value != p.value
    ensures HasPrepareQuorum(rs)
    ensures j < |rs| && Carries(rs[j]) && rs[j].value.GetProposal().value == NextProposal(p, rs).value
  {
    j :| 0 <= j < |rs| && Carries(rs[j]) && NextProposal(p, rs).value == rs[j].value.GetProposal().value &&
      forall i :: 0 <= i < |rs| && Carries(rs[i]) ==>
        rs[i].value.GetProposal().proposalNumber <= rs[j].value.GetProposal().proposalNumber;
  }

  lemma AdoptableGrows<V>(rounds: seq<Round<V>>, k: nat, v: V)
    requires k < |rounds| && AdoptableBefore(rounds, k, v)
    ensures AdoptableBefore(rounds, k + 1, v)
  {
    var i, j :| 0 <= i < k && rounds[i].PrepareRound? && HasPrepareQuorum(rounds[i].promises) &&
      0 <= j < |rounds[i].promises| && Carries(rounds[i].promises[j]) &&
      rounds[i].promises[j].value.GetProposal().value == v;
  }

  /** The rounds of `history` since broadcast `start` form a run from `p0`,
      and `held` is the proposal that run holds now. */
  ghost predicate InCall<V>(acceptors: Acceptors<V>, start: nat, p0: Proposal<V>,
                            history: seq<Round<V>>, held: Option<Proposal<V>>) {
    && start <= |history|
    && held.Some?
    && IsRun(acceptors, start, p0, history[start..])
    && held.value == Pending(p0, history[start..])
  }

  /** The next round of the run that began at `start` is a phase 1 round. */
  ghost predicate AwaitingPrepare<V>(start: nat, history: seq<Round<V>>) {
    start <= |history| &&
    (start == |history| ||
     var last := history[|history| - 1];
     (last.PrepareRound? && !HasPrepareQuorum(last.promises)) ||
     (last.AcceptRound? && !HasAcceptQuorum(last.accepted)))
  }

  /** The next round of the run that began at `start` is a phase 2 round. */
  ghost predicate AwaitingAccept<V>(start: nat, history: seq<Round<V>>) {
    start < |history| &&
    var last := history[|history| - 1];
    last.PrepareRound? && HasPrepareQuorum(last.promises)
  }

  /** One prepare broadcast extends the run; it is followed by phase 2 exactly
      when it reached a quorum. */
  lemma PrepareRoundKeepsCall<V>(acceptors: Acceptors<V>, start: nat, p0: Proposal<V>,
                                 history: seq<Round<V>>, p: Proposal<V>)
    requires InCall(acceptors, start, p0, history, Some(p)) && AwaitingPrepare(start, history)
    ensures var rs := PrepareAll(acceptors, |history|, p);
      var h := history + [PrepareRound(p, rs)];
      && InCall(acceptors, start, p0, h, Some(NextProposal(p, rs)))
      && (HasPrepareQuorum(rs) ==> AwaitingAccept(start, h))
      && (!HasPrepareQuorum(rs) ==> AwaitingPrepare(start, h))
  {
    var round := PrepareRound(p, PrepareAll(acceptors, |history|, p));
    RunExtends(acceptors, start, p0, history[start..], round);
    assert (history + [round])[start..] == history[start..] + [round];
  }

  /** One accept broadcast extends the run; a failed one is followed by phase 1. */
  lemma AcceptRoundKeepsCall<V>(acceptors: Acceptors<V>, start: nat, p0: Proposal<V>,
                                history: seq<Round<V>>, p: Proposal<V>)
    requires InCall(acceptors, start, p0, history, Some(p)) && AwaitingAccept(start, history)
    ensures var res := AcceptAll(acceptors, |history|, p);
      var h := history + [AcceptRound(p, res)];
      && InCall(acceptors, start, p0, h, Some(p))
      && (!HasAcceptQuorum(res) ==> AwaitingPrepare(start, h))
  {
    var round := AcceptRound(p, AcceptAll(acceptors, |history|, p));
    RunExtends(acceptors, start, p0, history[start..], round);
    assert (history + [round])[start..] == history[start..] + [round];
  }

  /** `history` extends `before` by prepare rounds only. */
  ghost predicate PreparesSince<V>(before: seq<Round<V>>, history: seq<Round<V>>) {
    before <= history && forall i :: |before| <= i < |history| ==> history[i].PrepareRound?
  }

  lemma PreparesSinceAppend<V>(before: seq<Round<V>>, history: seq<Round<V>>, r: Round<V>)
    requires PreparesSince(before, history) && r.PrepareRound?
    ensures PreparesSince(before, history + [r])
  {
    assert before <= history + [r];
  }

  /** `ProposerImpl`: the proposal in flight and the acceptors it is sent to.
      `history` records every broadcast made so far with its replies; its
      length is the broadcast counter the acceptors' replies depend on. */
  class ProposerImpl<V> {
    const acceptors: Acceptors<V>
    var proposal: Option<Proposal<V>>
    var history: seq<Round<V>>

    constructor (acceptors: Acceptors<V>)
      ensures this.acceptors == acceptors && proposal == None && history == []
    {
      this.acceptors := acceptors;
      proposal := None;
      history := [];
    }

    /** `propose`: the first call starts from ballot 1 with the hint; a later
        call resumes from the stored proposal and ignores the hint. It runs
        phase 1 and phase 2 until phase 2 reaches a quorum (`decided`), or
        until `budget` broadcasts have been made in this call. */
    method Propose(valueHint: V, budget: nat) returns (decided: bool)
      modifies this
      ensures InCall(acceptors, |old(history)|,
                     if old(proposal).Some? then old(proposal).value else Proposal(InitialProposalNumber, valueHint),
                     history, proposal)
      ensures old(history) <= history
      ensures decided <==> |history| > |old(history)| && Succeeded(history[|history| - 1])
      ensures !decided ==> |history| >= |old(history)| + budget
    {
      if proposal.None? {
        proposal := Some(Proposal(InitialProposalNumber, valueHint));
      }
      var start := |history|;
      ghost var p0 := proposal.value;
      var success := false;
      while !success && |history| < start + budget
        invariant InCall(acceptors, start, p0, history, proposal)
        invariant old(history) <= history
        invariant success <==> |history| > start && Succeeded(history[|history| - 1])
        invariant !success ==> AwaitingPrepare(start, history)
        decreases start + budget - |history|, if success then 0 else 1
      {
        var quorum := Phase1(start, p0, start + budget);
        if quorum {
          success := Phase2(start, p0);
        }
      }
      decided := success;
    }

    /** `phase1`: prepare rounds with the proposal in flight, bumping the
        ballot after each round without a quorum, until one has a quorum (then
        the adoption rule has been applied) or the broadcast limit is reached. */
    method Phase1(ghost start: nat, ghost p0: Proposal<V>, limit: nat) returns (quorum: bool)
      requires InCall(acceptors, start, p0, history, proposal) && AwaitingPrepare(start, history)
      modifies this
      ensures InCall(acceptors, start, p0, history, proposal)
      ensures PreparesSince(old(history), history)
      ensures quorum ==> AwaitingAccept(start, history) && |history| > |old(history)|
      ensures !quorum ==> AwaitingPrepare(start, history) && |history| >= limit
    {
      while |history| < limit
        invariant InCall(acceptors, start, p0, history, proposal) && AwaitingPrepare(start, history)
        invariant PreparesSince(old(history), history)
        decreases limit - |history|
      {
        var current := proposal.value;
        var prepareResults := PrepareAll(acceptors, |history|, current);
        PrepareRoundKeepsCall(acceptors, start, p0, history, current);
        PreparesSinceAppend(old(history), history, PrepareRound(current, prepareResults));
        history := history + [PrepareRound(current, prepareResults)];
        if HasPrepareQuorum(prepareResults) {
          var best := GetMaximalProposal(prepareResults);
          proposal := match best
            case Some(b) => Some(Proposal(current.proposalNumber, b.value))
            case None => proposal;
          return true;
        }
        proposal := Some(Proposal(current.proposalNumber + 1, current.value));
      }
      return false;
    }

    /** `phase2`: one accept round with the proposal in flight. */
    method Phase2(ghost start: nat, ghost p0: Proposal<V>) returns (success: bool)
      requires InCall(acceptors, start, p0, history, proposal) && AwaitingAccept(start, history)
      modifies this
      ensures InCall(acceptors, start, p0, history, proposal)
      ensures history == old(history) + [AcceptRound(old(proposal).value, AcceptAll(acceptors, |old(history)|, old(proposal).value))]
      ensures proposal == old(proposal)
      ensures success == Succeeded(history[|history| - 1])
      ensures !success ==> AwaitingPrepare(start, history)
    {
      var acceptResults := AcceptAll(acceptors, |history|, proposal.value);
      AcceptRoundKeepsCall(acceptors, start, p0, history, proposal.value);
      history := history + [AcceptRound(proposal.value, acceptResults)];
      success := HasAcceptQuorum(acceptResults);
    }
  }
}
