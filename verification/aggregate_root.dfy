/** The pending domain-event queue every aggregate inherits. */
module AggregateRoots {

  datatype AggregateRoot<E> = AggregateRoot(pending: seq<E>)

  /** A new aggregate has no pending events. */
  function New<E>(): (r: AggregateRoot<E>)
    ensures |r.pending| == 0
  {
    AggregateRoot([])
  }

  /** `addDomainEvent`: appends at the end of the queue. */
  function AddDomainEvent<E>(a: AggregateRoot<E>, e: E): (r: AggregateRoot<E>)
    ensures |r.pending| == |a.pending| + 1 && r.pending[|a.pending|] == e
    ensures r.pending[..|a.pending|] == a.pending
  {
    AggregateRoot(a.pending + [e])
  }

  /** `pullDomainEvents`: hands back every pending event, in order, and leaves
      the queue empty. */
  function PullDomainEvents<E>(a: AggregateRoot<E>): (r: (seq<E>, AggregateRoot<E>))
    ensures r.0 == a.pending
    ensures |r.1.pending| == 0
  {
    (a.pending, AggregateRoot([]))
  }

  /** Raising a series of events one by one. */
  function AddAll<E>(a: AggregateRoot<E>, es: seq<E>): AggregateRoot<E>
    decreases |es|
  {
    if |es| == 0 then a else AddAll(AddDomainEvent(a, es[0]), es[1..])
  }

  /** Events come back in the order they were raised, after those already
      pending. */
  lemma {:induction false} AddAllThenPull<E>(a: AggregateRoot<E>, es: seq<E>)
    ensures PullDomainEvents(AddAll(a, es)).0 == a.pending + es
    decreases |es|
  {
    if |es| > 0 {
      AddAllThenPull(AddDomainEvent(a, es[0]), es[1..]);
      assert a.pending + [es[0]] + es[1..] == a.pending + es;
    }
  }

  /** An immediate second pull is empty. */
  lemma PullTwice<E>(a: AggregateRoot<E>)
    ensures |PullDomainEvents(PullDomainEvents(a).1).0| == 0
  {
  }
}
