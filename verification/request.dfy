/** The persisted request record and its lifecycle status. The record's
    shape follows the fields the service reads and writes; the database
    schema itself is not part of this model. */
module Requests {
  import opened Common

  datatype Status = Created | InProgress | Completed | Cancelled

  /** A support ticket as the store holds it. */
  datatype Request = Request(
    id: Id,
    createdAt: Instant,
    updatedAt: Instant,
    subject: string,
    description: string,
    solutionText: Option<string>,
    cancelReason: Option<string>,
    status: Status)

  /** The store: every request, by id. */
  type Store = map<Id, Request>

  /** Every record sits under its own id. */
  predicate WellKeyed(store: Store) {
    forall k :: k in store ==> store[k].id == k
  }

  /** `b` keeps the identity, timestamps and texts `a` was created with. */
  predicate SameIdentity(a: Request, b: Request) {
    && a.id == b.id
    && a.createdAt == b.createdAt
    && a.updatedAt == b.updatedAt
    && a.subject == b.subject
    && a.description == b.description
  }

  /** At most one of the two closing texts is set. */
  predicate ClosingExclusive(r: Request) {
    !(r.solutionText.Some? && r.cancelReason.Some?)
  }

  /** The shape the intended lifecycle (CREATED, IN_PROGRESS, then
      COMPLETED or CANCELLED) gives a record: open requests carry no closing
      text, and a closed one carries at most the text of the state it
      closed in. */
  predicate Consistent(r: Request) {
    && (r.status == Created || r.status == InProgress ==> r.solutionText.None? && r.cancelReason.None?)
    && (r.status == Completed ==> r.cancelReason.None?)
    && (r.status == Cancelled ==> r.solutionText.None?)
  }

  predicate AllConsistent(store: Store) {
    forall k :: k in store ==> Consistent(store[k])
  }
}
