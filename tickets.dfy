/**
 * The records the board receives from its data source: tickets and users,
 * immutable snapshots for the whole session.
 */
module Tickets {

  datatype Option<+T> = None | Some(value: T)

  /** How a JavaScript computation ends: by throwing, or by returning `value`. */
  datatype Outcome<+T> = Thrown | Returned(value: T)

  /** One work item as delivered by the remote source. */
  datatype Ticket = Ticket(
    id: string,
    title: string,
    body: string,
    userId: string,
    status: string,
    priority: int)

  /** A user a ticket may refer to through its `userId`. */
  datatype User = User(id: string, name: string)

  /** The tickets of `s` with priority `n`, in their order in `s`. */
  function WithPriority(s: seq<Ticket>, n: int): (r: seq<Ticket>)
    ensures |r| <= |s|
  {
    if s == [] then []
    else WithPriority(s[..|s| - 1], n) + (if s[|s| - 1].priority == n then [s[|s| - 1]] else [])
  }

  predicate NoDuplicates<T(==)>(s: seq<T>)
  {
    forall i, j :: 0 <= i < j < |s| ==> s[i] != s[j]
  }
}
