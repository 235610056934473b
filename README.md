# jaxos in Dafny

A model of jaxos, a single-decree Paxos library: the value types `Proposal`
and `Promise`, and the three roles `AcceptorImpl`, `LearnerImpl` and
`ProposerImpl`. Each operation is modelled with the proof of what the role
promises about it.

- `core.dfy` (module `Core`) holds `Option` (Java's `Optional`), the
  immutable `Proposal` (ballot number, value) and `Promise`. It also holds
  `Occurrences`, the count used by the quorum and majority checks. The
  getters `getProposalNumber` and `getValue` are the datatype's destructors.
  The constructor accepts every ballot and every value.
- `acceptor.dfy` (module `Acceptor`) has two layers:
  - pure step functions `PrepareStep` and `AcceptStep` on the acceptor's two
    fields;
  - the class `AcceptorImpl`, whose `Prepare` and `Accept` update those
    fields in place and are proved equal to the step functions.

  Every `teach` call that `Accept` makes is appended to a log `taught`.
  Learners are named by handles.
- `learner.dfy` (module `Learner`) holds the class `LearnerImpl`:
  - `Teach` updates the map of taught proposals and recomputes the consensus
    value.
  - `CalculateConsensusValue` lists the map's values in an arbitrary order
    (`EnumerateValues`), as a `HashMap` does. It runs the Boyer–Moore vote
    (`MooreCandidate`), then counts the candidate.
  - Its result is specified by the relation `IsConsensusOf`, which allows
    every result that some enumeration order can produce. When more acceptors
    have taught the learner than `numAcceptors`, it can also allow results that
    no order produces.
- `proposer.dfy` (module `Proposer`) holds the class `ProposerImpl` with
  `Propose`, `Phase1` and `Phase2`:
  - The acceptors are a value `Acceptors`: their number, plus two
    unconstrained reply functions of (broadcast number, acceptor index,
    proposal). These functions can represent any acceptor behaviour.
  - Every broadcast and its replies are recorded in `history`.
  - `IsRun` states what one call of `propose` sends, round by round. The
    lemmas about runs state the protocol's promises.
  - The quorum checks and `getMaximalProposal` are pure functions.

## Model

| member | source | states |
|---|---|---|
| Core.Promise.WithProposal | src/main/java/com/stefankopieczek/jaxos/core/Promise.java:8-10 | the promise carries exactly the given proposal |
| Core.Promise.WithoutProposal | src/main/java/com/stefankopieczek/jaxos/core/Promise.java:12-14 | the promise carries no proposal |
| Core.Promise.HasProposal | src/main/java/com/stefankopieczek/jaxos/core/Promise.java:20-22 | a promise has a proposal exactly when it is not the empty promise |
| Core.Promise.GetProposal | src/main/java/com/stefankopieczek/jaxos/core/Promise.java:24-26 | defined only when the promise has a proposal (`Optional.get` fails otherwise); returns exactly the proposal the promise wraps |
| Core.PromiseRoundTrip | src/main/java/com/stefankopieczek/jaxos/core/Promise.java:8-26 | every promise is what `withProposal` builds from its proposal, or the `withoutProposal` promise |
| Acceptor.PrepareStep | src/main/java/com/stefankopieczek/jaxos/acceptor/AcceptorImpl.java:22-36 | refused (no reply, nothing changes) exactly when the ballot is below the maximum; otherwise the maximum becomes the ballot, an equal ballot included, and the promise carries exactly the accepted proposal; the accepted proposal never changes and the maximum never decreases |
| Acceptor.AcceptStep | src/main/java/com/stefankopieczek/jaxos/acceptor/AcceptorImpl.java:39-50 | accepted exactly when the ballot is at least the maximum; a refusal changes nothing; an acceptance makes the proposal the accepted one; the maximum is never changed |
| Acceptor.Notifications | src/main/java/com/stefankopieczek/jaxos/acceptor/AcceptorImpl.java:43-45 | one teach call per learner, in the learners' order, each with the acceptor's id and the accepted proposal |
| Acceptor.MaxNeverDecreases | src/main/java/com/stefankopieczek/jaxos/acceptor/AcceptorImpl.java:26-28 | over any sequence of prepare and accept requests the highest prepared ballot never decreases |
| Acceptor.PromiseHonoured | src/main/java/com/stefankopieczek/jaxos/acceptor/AcceptorImpl.java:23-24 | after a prepare with ballot b is served, whatever follows, every later prepare or accept with a ballot below b is refused |
| Acceptor.AcceptedComesFromRequest | src/main/java/com/stefankopieczek/jaxos/acceptor/AcceptorImpl.java:47 | the accepted proposal is the initial one or the proposal of some accept request that was served |
| Acceptor.FreshAcceptor | src/main/java/com/stefankopieczek/jaxos/acceptor/AcceptorImpl.java:12-18 | a fresh acceptor grants every ballot from -1 up with a promise that carries no proposal, and accepts such a ballot without a prepare |
| Acceptor.AcceptorImpl.constructor | src/main/java/com/stefankopieczek/jaxos/acceptor/AcceptorImpl.java:15-19 | starts with maximum -1, nothing accepted and nobody taught |
| Acceptor.AcceptorImpl.Prepare | src/main/java/com/stefankopieczek/jaxos/acceptor/AcceptorImpl.java:22-36 | the new fields and the reply are those of PrepareStep; no learner is taught |
| Acceptor.AcceptorImpl.Accept | src/main/java/com/stefankopieczek/jaxos/acceptor/AcceptorImpl.java:39-50 | the new fields and the verdict are those of AcceptStep; exactly the Notifications are appended to the teach log on acceptance and nothing on refusal |
| Learner.Threshold | src/main/java/com/stefankopieczek/jaxos/learner/LearnerImpl.java:97 | the threshold is one more than half of numAcceptors rounded toward zero, as Java's int division does, negative counts included |
| Learner.Supersedes | src/main/java/com/stefankopieczek/jaxos/learner/LearnerImpl.java:44-46 | a lesson that supersedes always changes the map; one that does not comes from an acceptor already known with a ballot at least as high |
| Learner.ThresholdIsStrictMajority | src/main/java/com/stefankopieczek/jaxos/learner/LearnerImpl.java:97 | for a non-negative number of acceptors, reaching the threshold means being a strict majority of them |
| Learner.EnumerateValues | src/main/java/com/stefankopieczek/jaxos/learner/LearnerImpl.java:73-75 | lists one value per taught acceptor, in some order, so that each value occurs exactly as often as there are acceptors holding it |
| Learner.MajorityValueUnique | src/main/java/com/stefankopieczek/jaxos/learner/LearnerImpl.java:70-72 | at most one value fills more than half of a list, so the value the voting pass must find is unique |
| Learner.MooreFinish | src/main/java/com/stefankopieczek/jaxos/learner/LearnerImpl.java:70-91 | once the whole list is read under the voting invariant, a value filling more than half of it can only be the candidate |
| Learner.MooreCandidate | src/main/java/com/stefankopieczek/jaxos/learner/LearnerImpl.java:77-91 | the score stays at least 1; the candidate is one of the values; a value occurring in more than half of the list is the candidate, whatever the order |
| Learner.QuorumValueReported | src/main/java/com/stefankopieczek/jaxos/learner/LearnerImpl.java:95-101 | with at most numAcceptors taught acceptors, a value held by a quorum must be the reported one |
| Learner.ConsensusWhenBounded | src/main/java/com/stefankopieczek/jaxos/learner/LearnerImpl.java:77-101 | with at most numAcceptors taught acceptors, a value is reported exactly when some value is held by a quorum |
| Learner.ConsensusUnique | src/main/java/com/stefankopieczek/jaxos/learner/LearnerImpl.java:73-101 | with at most numAcceptors taught acceptors, the reported value does not depend on the enumeration order |
| Learner.SingleLessonReported | src/test/java/com/stefankopieczek/jaxos/learner/LearnerTest.java:54-59 | a learner of one acceptor reports the value of the one lesson it has had |
| Learner.LearnSubsequentValue | src/test/java/com/stefankopieczek/jaxos/learner/LearnerTest.java:61-67 | with one acceptor, teaching v under ballot 1 and then w under ballot 2 makes the learner report v and then w |
| Learner.RejectPriorValue | src/test/java/com/stefankopieczek/jaxos/learner/LearnerTest.java:69-75 | with one acceptor, after w under ballot 2 a lesson under ballot 1 is ignored and w is still reported |
| Learner.LearnerImpl.constructor | src/main/java/com/stefankopieczek/jaxos/learner/LearnerImpl.java:20-24 | starts with nothing taught and no consensus value |
| Learner.LearnerImpl.GetValue | src/main/java/com/stefankopieczek/jaxos/learner/LearnerImpl.java:27-38 | returns the cached consensus value, which is held by a quorum of the taught acceptors |
| Learner.LearnerImpl.Teach | src/main/java/com/stefankopieczek/jaxos/learner/LearnerImpl.java:41-58 | a lesson with a new acceptor or a strictly higher ballot replaces only that acceptor's entry; any other lesson changes nothing; afterwards the cached value is a consensus of the map |
| Learner.LearnerImpl.CalculateConsensusValue | src/main/java/com/stefankopieczek/jaxos/learner/LearnerImpl.java:60-102 | the result is nothing for an empty map; a reported value is held by at least numAcceptors/2+1 acceptors, with Java's truncating division; nothing is reported only when some taught value falls short of that threshold; a value held by a strict majority of the taught acceptors that also reaches that threshold is reported |
| Proposer.HasPrepareQuorum | src/main/java/com/stefankopieczek/jaxos/proposer/ProposerImpl.java:64-67 | true exactly when a strict majority of the replies are present |
| Proposer.HasAcceptQuorum | src/main/java/com/stefankopieczek/jaxos/proposer/ProposerImpl.java:69-72 | true exactly when a strict majority of the verdicts are true; never true for no acceptors |
| Proposer.PrepareQuorumsIntersect | src/main/java/com/stefankopieczek/jaxos/proposer/ProposerImpl.java:64-67 | two prepare quorums over the same acceptors share a granting acceptor |
| Proposer.AcceptQuorumsIntersect | src/main/java/com/stefankopieczek/jaxos/proposer/ProposerImpl.java:69-72 | two accept quorums over the same acceptors share an accepting acceptor |
| Proposer.CompareBallots | src/main/java/com/stefankopieczek/jaxos/proposer/ProposerImpl.java:80-85 | the comparator is non-negative exactly when the first ballot is at least the second, and zero exactly on equal ballots |
| Proposer.GetMaximalProposal | src/main/java/com/stefankopieczek/jaxos/proposer/ProposerImpl.java:74-86 | nothing exactly when no reply carries a proposal; otherwise a carried proposal whose ballot is at least every carried ballot, the earliest such on a tie |
| Proposer.MaximalBallotDominates | src/main/java/com/stefankopieczek/jaxos/proposer/ProposerImpl.java:74-86 | replies that include all of another set of replies yield a ballot at least as high |
| Proposer.MaximalBallotOrderIndependent | src/main/java/com/stefankopieczek/jaxos/proposer/ProposerImpl.java:74-86 | the ballot found depends only on which replies came back, not on the acceptors' order |
| Proposer.NextProposal | src/main/java/com/stefankopieczek/jaxos/proposer/ProposerImpl.java:42-53 | without a quorum the ballot goes up by exactly one and the value stays; with one the ballot stays and the value is that of a highest-ballot carried proposal, the earliest such on a tie, or unchanged when none is carried |
| Proposer.RoundSuccessor | src/main/java/com/stefankopieczek/jaxos/proposer/ProposerImpl.java:30-54 | within a run, a failed phase 1 is followed by phase 1 with ballot one higher, a successful one by phase 2 with the same ballot and the adopted value, and phase 2 only by a retry of phase 1 with the same proposal |
| Proposer.BallotsNeverDecrease | src/main/java/com/stefankopieczek/jaxos/proposer/ProposerImpl.java:30-54 | within one call of propose, the ballot never decreases from round to round |
| Proposer.AcceptFollowsQuorum | src/main/java/com/stefankopieczek/jaxos/proposer/ProposerImpl.java:30-34 | phase 2 only runs right after a phase 1 with a quorum and keeps its ballot; a successful phase 2 ends the call |
| Proposer.ValueProvenance | src/main/java/com/stefankopieczek/jaxos/proposer/ProposerImpl.java:45-48 | every value a call sends is its starting value or one that an acceptor reported as accepted during an earlier phase 1 with a quorum |
| Proposer.ProposerImpl.constructor | src/main/java/com/stefankopieczek/jaxos/proposer/ProposerImpl.java:18-22 | starts with no proposal |
| Proposer.ProposerImpl.Propose | src/main/java/com/stefankopieczek/jaxos/proposer/ProposerImpl.java:25-35 | starts from Proposal(1, hint) when no proposal exists and from the stored one otherwise; the broadcasts it makes form a run from that proposal; it reports a decision exactly when its last round was a phase 2 with a quorum |
| Proposer.ProposerImpl.Phase1 | src/main/java/com/stefankopieczek/jaxos/proposer/ProposerImpl.java:37-55 | appends only prepare rounds, each sending the current proposal, and keeps every earlier round; the rounds extend the run, so every appended round but the last lacks a quorum; it returns with a quorum and the adoption rule applied, ready for phase 2, unless the broadcast limit is reached |
| Proposer.ProposerImpl.Phase2 | src/main/java/com/stefankopieczek/jaxos/proposer/ProposerImpl.java:57-62 | exactly one accept round with the unchanged current proposal sent to every acceptor; success is its accept quorum; a failure leaves the run ready for phase 1 |

## Left out

- Locking and waiting: `synchronized`, the learner's lock and its condition variable are not modelled. Each operation is atomic.
- Learner.LearnerImpl.GetValue: the wait for a consensus value becomes the precondition that a value is present.
- Proposer.ProposerImpl.Propose: the source loops until phase 2 reaches a quorum and may never return, for example with no acceptors. The model takes a broadcast budget and returns `false` once the budget is used up. The source never returns without a decision.
- Proposer.ProposerImpl.Phase1: the source's unbounded retry loop stops at a broadcast limit here. It then returns without a quorum.
- Ballot overflow: ballots are unbounded integers. The Java `int` wrap-around of the ballot increment (ProposerImpl.java line 52) is not modelled. Neither is the overflow of the subtracting comparator (line 83).
- Acceptor behaviour seen by a proposer: acceptors are reply functions, not `AcceptorImpl` objects. Their replies are arbitrary, so the proposer lemmas hold for every acceptor behaviour.
- Learner objects seen by an acceptor: they are handles. The effect of a `teach` on them is recorded in a log, not performed.
- Learner.LearnerImpl.CalculateConsensusValue: when more acceptors have taught the learner than `numAcceptors`, the contract admits results that no enumeration order produces. It does not pin down the order-dependent candidate of the voting pass.
- Global safety (at most one value decided across many concurrent proposers) is not modelled. No single file promises it.
- The interfaces `Acceptor` and `Learner` hold only signatures. They are not part of this model.
- The proposer's `id` field is never used by the source, so the model omits it.

## Consensus value is not sticky

`LearnerImpl.teach` recomputes `consensusValue` after every effective lesson
(LearnerImpl.java line 50), so a later lesson can replace or clear a reported
value; LearnerTest.java lines 61-67 rely on this. `Learner.LearnSubsequentValue`
shows a replacement.
