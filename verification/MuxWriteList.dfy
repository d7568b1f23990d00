/** The list of clients that want to write: linked through the clients, the last one to itself, so
    that a client is in the list exactly when its `next` is set. */
module MuxWriteList {

  class Client {
    var next: Client?

    constructor ()
      ensures next == null
    {
      next := null;
    }
  }

  class WriteList {
    var head: Client?
    var tail: Client?
    ghost var waiting: seq<Client>
    ghost var clients: set<Client>   // all clients of the multiplexer

    ghost predicate Valid()
      reads this, clients
    {
      && (forall c <- waiting :: c in clients)
      && (forall i, j :: 0 <= i < j < |waiting| ==> waiting[i] != waiting[j])
      && (waiting == [] ==> head == null)
      && (waiting != [] ==> head == waiting[0] && tail == waiting[|waiting| - 1] && tail.next == tail)
      && (forall i :: 0 <= i < |waiting| - 1 ==> waiting[i].next == waiting[i + 1])
      && (forall c <- clients :: c.next == null <==> c !in waiting)
    }

    constructor ()
      ensures Valid() && waiting == [] && clients == {}
    {
      head, tail, waiting, clients := null, null, [], {};
    }

    method Attach(c: Client)
      requires Valid() && c !in clients && c.next == null
      modifies this`clients
      ensures Valid() && clients == old(clients) + {c} && waiting == old(waiting)
    {
      clients := clients + {c};
    }

    /** wants_write: queue the client unless it is queued already; tells whether it is now the first. */
    method WantsWrite(c: Client) returns (first: bool)
      requires Valid() && c in clients
      modifies this`head, this`tail, this`waiting, clients
      ensures Valid() && clients == old(clients)
      ensures waiting == if c in old(waiting) then old(waiting) else old(waiting) + [c]
      ensures first <==> c !in old(waiting) && old(waiting) == []
    {
      if c.next != null {
        return false;
      }
      if head == null {
        head := c;
        tail := c;
      } else {
        tail.next := c;
        tail := c;
      }
      c.next := c;
      waiting := waiting + [c];
      first := c == head;
    }

    /** The head of pop: take the first client out of the list. */
    method Dequeue() returns (c: Client)
      requires Valid() && head != null
      modifies this`head, this`waiting, clients
      ensures Valid() && clients == old(clients)
      ensures old(waiting) != [] && c == old(waiting)[0] && waiting == old(waiting)[1..]
    {
      c := head;
      head := if c.next == c then null else c.next;
      c.next := null;
      waiting := waiting[1..];
    }
  }
}
