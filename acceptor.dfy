/** The acceptor role: it grants or refuses prepare requests, accepts or refuses
    proposals, and tells every wired learner about each proposal it accepts. */
module Acceptor {
  import opened Core

  /** The two fields of an acceptor: the highest ballot granted by prepare and
      the proposal accepted last, if any. */
  datatype AcceptorState<V> = AcceptorState(maxProposalNumber: int, acceptedProposal: Option<Proposal<V>>)

  /** A fresh acceptor: no ballot seen yet (-1) and nothing accepted. */
  function Initial<V>(): AcceptorState<V> {
    AcceptorState(-1, None)
  }

  /** One `teach(acceptorId, proposal)` call made on the learner with handle `learner`. */
  datatype TeachCall<V> = TeachCall(learner: nat, acceptorId: int, proposal: Proposal<V>)

  /** A request made to an acceptor. */
  datatype Request<V> = PrepareRequest(proposal: Proposal<V>) | AcceptRequest(proposal: Proposal<V>)

  /** `prepare`: the new state and the reply. A ballot below the maximum is refused
      (no reply) and changes nothing; any other ballot, an equal one included, is
      granted, becomes the maximum, and the promise carries the accepted proposal. */
  function PrepareStep<V>(s: AcceptorState<V>, p: Proposal<V>): (out: (AcceptorState<V>, Option<Promise<V>>))
    ensures out.1.None? <==> p.proposalNumber < s.maxProposalNumber
    ensures out.1.None? ==> out.0 == s
    ensures out.1.Some? ==> out.0.maxProposalNumber == p.proposalNumber
    ensures out.1.Some? ==> out.1.value.proposal == s.acceptedProposal
    ensures out.0.maxProposalNumber >= s.maxProposalNumber
    ensures out.0.maxProposalNumber >= p.proposalNumber
    ensures out.0.acceptedProposal == s.acceptedProposal
  {
    if p.proposalNumber < s.maxProposalNumber then
      (s, None)
    else
      var max := if s.maxProposalNumber < p.proposalNumber then p.proposalNumber else s.maxProposalNumber;
      var promise := if s.acceptedProposal.Some? then Promise.WithProposal(s.acceptedProposal.value)
                     else Promise.WithoutProposal();
      (s.(maxProposalNumber := max), Some(promise))
  }

  /** `accept`: the new state and the verdict. The ballot is compared with the
      highest prepared ballot, not with the accepted proposal's ballot, and the
      maximum itself is never raised here. */
  function AcceptStep<V>(s: AcceptorState<V>, p: Proposal<V>): (out: (AcceptorState<V>, bool))
    ensures out.1 <==> s.maxProposalNumber <= p.proposalNumber
    ensures !out.1 ==> out.0 == s
    ensures out.1 ==> out.0.acceptedProposal == Some(p)
    ensures out.0.maxProposalNumber == s.maxProposalNumber
  {
    if p.proposalNumber < s.maxProposalNumber then (s, false)
    else (s.(acceptedProposal := Some(p)), true)
  }

  /** The `teach` calls an accepting acceptor makes: one per wired learner, in
      the order of the learner collection. */
  function Notifications<V>(learners: seq<nat>, id: int, p: Proposal<V>): (calls: seq<TeachCall<V>>)
    ensures |calls| == |learners|
    ensures forall i :: 0 <= i < |learners| ==> calls[i] == TeachCall(learners[i], id, p)
  {
    if learners == [] then []
    else Notifications(learners[..|learners| - 1], id, p) + [TeachCall(learners[|learners| - 1], id, p)]
  }

  function Step<V>(s: AcceptorState<V>, r: Request<V>): AcceptorState<V> {
    match r
    case PrepareRequest(p) => PrepareStep(s, p).0
    case AcceptRequest(p) => AcceptStep(s, p).0
  }

  /** The state after serving the requests `rs` in order. */
  function Run<V>(s: AcceptorState<V>, rs: seq<Request<V>>): AcceptorState<V>
    decreases |rs|
  {
    if rs == [] then s else Run(Step(s, rs[0]), rs[1..])
  }

  /** The highest prepared ballot never decreases, whatever requests arrive. */
  lemma {:induction false} MaxNeverDecreases<V>(s: AcceptorState<V>, rs: seq<Request<V>>)
    ensures Run(s, rs).maxProposalNumber >= s.maxProposalNumber
    decreases |rs|
  {
    if rs != [] {
      MaxNeverDecreases(Step(s, rs[0]), rs[1..]);
    }
  }

  /** Once a prepare with ballot b has been served, no later prepare or accept
      with a ballot below b succeeds. */
  lemma PromiseHonoured<V>(s: AcceptorState<V>, p: Proposal<V>, rs: seq<Request<V>>, q: Proposal<V>)
    requires q.proposalNumber < p.proposalNumber
    ensures PrepareStep(Run(PrepareStep(s, p).0, rs), q).1.None?
    ensures !AcceptStep(Run(PrepareStep(s, p).0, rs), q).1
  {
    MaxNeverDecreases(PrepareStep(s, p).0, rs);
  }

  /** Whatever an acceptor holds as accepted was either there at the start or
      was the proposal of one of the accept requests it served. */
  lemma {:induction false} AcceptedComesFromRequest<V>(s: AcceptorState<V>, rs: seq<Request<V>>)
    ensures var a := Run(s, rs).acceptedProposal;
      a == s.acceptedProposal || (a.Some? && AcceptRequest(a.value) in rs)
    decreases |rs|
  {
    if rs != [] {
      AcceptedComesFromRequest(Step(s, rs[0]), rs[1..]);
      var a := Run(s, rs).acceptedProposal;
      if a != Step(s, rs[0]).acceptedProposal {
        assert AcceptRequest(a.value) in rs[1..];
      }
    }
  }

  /** A fresh acceptor grants every ballot from -1 up with a promise carrying no
      proposal, and accepts such a ballot even if it was never prepared. */
  lemma FreshAcceptor<V>(p: Proposal<V>)
    requires p.proposalNumber >= -1
    ensures PrepareStep(Initial(), p).1 == Some(Promise.WithoutProposal())
    ensures AcceptStep(Initial(), p).1
  {
  }

  /** `AcceptorImpl`: an acceptor with identity `id` wired to `learners`. The
      `teach` calls it has made are recorded, in order, in `taught`. */
  class AcceptorImpl<V> {
    const id: int
    const learners: seq<nat>
    var maxProposalNumber: int
    var acceptedProposal: Option<Proposal<V>>
    var taught: seq<TeachCall<V>>

    function State(): AcceptorState<V>
      reads this
    {
      AcceptorState(maxProposalNumber, acceptedProposal)
    }

    constructor (id: int, learners: seq<nat>)
      ensures this.id == id && this.learners == learners
      ensures State() == Initial() && taught == []
    {
      this.id := id;
      this.learners := learners;
      maxProposalNumber := -1;
      acceptedProposal := None;
      taught := [];
    }

    method Prepare(proposal: Proposal<V>) returns (r: Option<Promise<V>>)
      modifies this
      ensures (State(), r) == PrepareStep(old(State()), proposal)
      ensures taught == old(taught)
    {
      if proposal.proposalNumber < maxProposalNumber {
        return None;
      }
      if maxProposalNumber < proposal.proposalNumber {
        maxProposalNumber := proposal.proposalNumber;
      }
      if acceptedProposal.Some? {
        r := Some(Promise.WithProposal(acceptedProposal.value));
      } else {
        r := Some(Promise.WithoutProposal());
      }
    }

    method Accept(p: Proposal<V>) returns (ok: bool)
      modifies this
      ensures (State(), ok) == AcceptStep(old(State()), p)
      ensures taught == old(taught) + (if ok then Notifications(learners, id, p) else [])
    {
      if p.proposalNumber < maxProposalNumber {
        return false;
      }
      var i := 0;
      while i < |learners|
        invariant 0 <= i <= |learners|
        invariant taught == old(taught) + Notifications(learners[..i], id, p)
        invariant State() == old(State())
      {
        assert learners[..i + 1][..i] == learners[..i];
        taught := taught + [TeachCall(learners[i], id, p)];
        i := i + 1;
      }
      assert learners[..i] == learners;
      acceptedProposal := Some(p);
      ok := true;
    }
  }
}
