/** Value types shared by the three Paxos roles: proposals, promises, and the
    counting helper used by the quorum and majority checks. */
module Core {

  /** Java's `Optional`: absent or present with a value. */
  datatype Option<T> = None | Some(value: T)

  /** An immutable (ballot number, value) pair. The datatype's destructors are
      the getters `getProposalNumber` and `getValue`; no ballot is rejected. */
  datatype Proposal<V> = Proposal(proposalNumber: int, value: V)

  /** An acceptor's answer to a granted prepare: it may carry the proposal the
      acceptor had already accepted. */
  datatype Promise<V> = Promise(proposal: Option<Proposal<V>>)
  {
    static function WithProposal(p: Proposal<V>): (r: Promise<V>)
      ensures r.HasProposal() && r.GetProposal() == p
    {
      Promise(Some(p))
    }

    static function WithoutProposal(): (r: Promise<V>)
      ensures !r.HasProposal()
    {
      Promise(None)
    }

    /** Whether the promise wraps a proposal, i.e. is not the empty promise. */
    predicate HasProposal(): (b: bool)
      ensures b <==> this != Promise(None)
    {
      proposal.Some?
    }

    /** `Optional.get` fails on an empty optional, hence the precondition; the
        result is the proposal the promise wraps. */
    function GetProposal(): (p: Proposal<V>)
      requires HasProposal()
      ensures this == Promise(Some(p))
    {
      proposal.value
    }
  }

  /** Every promise is one the two factories build: `withProposal` of its
      proposal when it has one, `withoutProposal` otherwise. */
  lemma PromiseRoundTrip<V>(r: Promise<V>)
    ensures r.HasProposal() ==> Promise.WithProposal(r.GetProposal()) == r
    ensures !r.HasProposal() ==> r == Promise.WithoutProposal()
  {
  }

  /** Number of positions of `s` that hold `x`. */
  function Occurrences<T(==)>(s: seq<T>, x: T): (n: nat)
    ensures n <= |s|
  {
    if s == [] then 0
    else Occurrences(s[..|s| - 1], x) + (if s[|s| - 1] == x then 1 else 0)
  }

  lemma OccurrencesAppend<T>(s: seq<T>, y: T, x: T)
    ensures Occurrences(s + [y], x) == Occurrences(s, x) + (if y == x then 1 else 0)
  {
    assert (s + [y])[..|s|] == s;
  }

  lemma {:induction false} OccurrencesAbsent<T>(s: seq<T>, x: T)
    requires x !in s
    ensures Occurrences(s, x) == 0
  {
    if s != [] {
      OccurrencesAbsent(s[..|s| - 1], x);
    }
  }

  lemma {:induction false} OccurrencesOfMember<T>(s: seq<T>, x: T)
    requires x in s
    ensures Occurrences(s, x) >= 1
  {
    if s[|s| - 1] != x {
      assert x in s[..|s| - 1];
      OccurrencesOfMember(s[..|s| - 1], x);
    }
  }

  /** Two distinct values never occupy more positions together than there are. */
  lemma {:induction false} OccurrencesOfTwo<T>(s: seq<T>, x: T, y: T)
    requires x != y
    ensures Occurrences(s, x) + Occurrences(s, y) <= |s|
  {
    if s != [] {
      OccurrencesOfTwo(s[..|s| - 1], x, y);
    }
  }
}
