/** The lists of rt-thread/src/scheduler.c and rt-thread/src/thread.c that a thread's tlist node can hang on,
    and what the list operations do to them. */
module ThreadLists {
  import opened Sequences

  datatype Stat = Init | Ready | Suspended | Closed

  /** The list heads a thread's tlist node can hang on. */
  datatype ListId = ReadyRow(p: nat) | WaitList(w: nat) | Defunct

  datatype Link = Alone | On(l: ListId)

  type Lists<T> = map<ListId, seq<T>>

  function PutAt<T>(a: seq<T>, k: nat, x: T): seq<T>
    requires k <= |a|
  {
    a[..k] + [x] + a[k..]
  }

  lemma PutAtMembers<T>(a: seq<T>, k: nat, x: T)
    requires Distinct(a) && x !in a && k <= |a|
    ensures Distinct(PutAt(a, k, x))
    ensures forall y :: y in PutAt(a, k, x) <==> y in a || y == x
  {
    assert a == a[..k] + a[k..];
  }

  /** The lists after the node of t has been unlinked from where it hangs. */
  function Unhung<T(==)>(lists: Lists<T>, link: Link, t: T): Lists<T> {
    if link.On? && link.l in lists then lists[link.l := Without(lists[link.l], t)] else lists
  }

  /** And t at the end of ready queue p. */
  function Woken<T(==)>(lists: Lists<T>, link: Link, t: T, p: nat): Lists<T>
    requires ReadyRow(p) in Unhung(lists, link, t)
  {
    var rest := Unhung(lists, link, t);
    rest[ReadyRow(p) := rest[ReadyRow(p)] + [t]]
  }

  /** The first waiter of list w at the end of ready queue p. */
  function MoveHead<T>(lists: Lists<T>, w: nat, p: nat): Lists<T>
    requires WaitList(w) in lists && lists[WaitList(w)] != [] && ReadyRow(p) in lists
  {
    var q := lists[WaitList(w)];
    lists[WaitList(w) := q[1..]][ReadyRow(p) := lists[ReadyRow(p)] + [q[0]]]
  }
}
