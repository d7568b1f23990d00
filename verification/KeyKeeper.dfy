/** The key database as keyworker updates it, one transaction a method. */
module KeyKeeper {
  import opened KeyStore

  /** Whether an empty queue has been created makes no difference. */
  lemma SameQueues(s: Store, t: Store)
    requires Inv(s) && t.primary == s.primary && forall d :: QueueOf(t, d) == QueueOf(s, d)
    ensures Inv(t)
  {
    forall d, n, k ensures Queued(t, d, n, k) <==> Queued(s, d, n, k) {
      assert QueueOf(t, d) == QueueOf(s, d);
    }
    forall d <- t.queues, n <- t.queues[d].records ensures n < t.queues[d].next {
      assert QueueOf(t, d) == QueueOf(s, d);
    }
  }

  lemma SameHandedOut(s: Store, t: Store, u: Store, device: nat, now: nat, h: Handed)
    requires h.Key? && HandedOut(s, t, device, now, h)
    requires u.primary == t.primary && forall d :: QueueOf(u, d) == QueueOf(t, d)
    ensures HandedOut(s, u, device, now, h)
  {
    forall d, n, k ensures Queued(u, d, n, k) <==> Queued(t, d, n, k) {
      assert QueueOf(u, d) == QueueOf(t, d);
    }
  }

  class Keeper {
    var primary: map<nat, Record>
    var queues: map<nat, Queue>

    function View(): Store
      reads this
    {
      Store(primary, queues)
    }

    ghost predicate Valid()
      reads this
    {
      Inv(View())
    }

    constructor ()
      ensures Valid() && View() == EMPTY
    {
      primary, queues := map[], map[];
    }

    /** getOrCreateHandler, for the queue of a device. */
    method OpenQueue(device: nat) returns (q: Queue)
      modifies this`queues
      ensures q == QueueOf(old(View()), device) && queues == old(queues)[device := q]
    {
      if device !in queues {
        queues := queues[device := Queue(map[], 1)];
      }
      q := queues[device];
      assert queues == old(queues)[device := q];
    }

    /** `usage` is what the record holds after one of its bytes has been set to 0. */
    method PutKey(sha: nat, key: seq<bv8>, device: nat, now: nat, usage: nat) returns (ok: bool)
      requires Valid()
      modifies this
      ensures View() == Put(old(View()), sha, key, device, now, usage)
      ensures ok <==> sha !in old(primary)
      ensures Valid() <==> !ok || usage == 0
      ensures ok && usage == 0 ==> Stored(old(View()), View(), sha, key, device, now)
    {
      if sha !in primary { PutStores(View(), sha, key, device, now); }
      PutKeeps(View(), sha, key, device, now, usage);
      hide Inv, Stored;
      if sha in primary {
        return false;
      }
      primary := primary[sha := Record(key, now, now, usage, device, 0)];
      var q := OpenQueue(device);
      var num := q.next;
      queues := queues[device := Append(q, sha)];
      primary := primary[sha := primary[sha].(num := num)];
      assert primary == old(primary)[sha := Record(key, now, now, usage, device, num)];
      assert queues == old(queues)[device := Append(q, sha)];
      ok := true;
    }

    /** The error of a failed delete cannot happen. */
    method AssignDeviceBySha(sha: nat, device: nat, now: nat) returns (ok: bool)
      requires Valid()
      modifies this
      ensures Valid() && View() == Assign(old(View()), sha, device, now).0
      ensures ok <==> sha in old(primary)
      ensures ok ==> Moved(old(View()), View(), sha, device, now)
    {
      hide Inv, Moved;
      if sha in primary { AssignMoves(View(), sha, device, now, now); }
      AssignKeeps(View(), sha, device, now);
      AssignFindsRecord(View(), sha, device, now);
      if sha !in primary {
        return false;
      }
      var data := primary[sha];
      if data.usage == 0 {
        var from := OpenQueue(data.device);
        if data.num !in from.records {
          return false;
        }
        queues := queues[data.device := Delete(from, data.num)];
        assert queues == old(queues)[data.device := Delete(from, data.num)];
        ghost var moved := queues;
        var to := OpenQueue(device);
        queues := queues[device := Append(to, sha)];
        assert queues == moved[device := Append(to, sha)];
        data := data.(num := to.next);
      }
      primary := primary[sha := data.(lastUsage := now, device := device)];
      ok := true;
    }

    /** The hash is not part of what the source returns; it says which key was handed out. */
    method GetLastKeyDevice(device: nat, now: nat) returns (k: Handed)
      requires Valid()
      modifies this
      ensures Valid() && k == TakeLast(old(View()), device, now).1
      ensures primary == TakeLast(old(View()), device, now).0.primary
      ensures forall d :: QueueOf(View(), d) == QueueOf(TakeLast(old(View()), device, now).0, d)
      ensures k.Key? && k.record.usage == 1 <==> QueueOf(old(View()), device).records != map[]
      ensures if k.Key? then HandedOut(old(View()), View(), device, now, k)
              else primary == old(primary) && forall sha <- primary :: primary[sha].device != device
    {
      hide Inv, HandedOut;
      TakeLastKeeps(View(), device, now);
      TakeLastHandsOut(View(), device, now);
      FreshFirst(View(), device, now);
      ghost var was := View();
      var q := OpenQueue(device);
      if q.records != map[] {
        LeastExists(q.records.Keys);
        var n :| n in q.records.Keys && forall m <- q.records.Keys :: n <= m;
        assert n == Oldest(q);
        var sha := q.records[n];
        queues := queues[device := Delete(q, n)];
        assert queues == was.queues[device := Delete(q, n)];
        var record := Used(primary[sha], now);
        primary := primary[sha := record];
        return Key(sha, record);
      }
      var rest := primary.Keys;
      while rest != {}
        invariant rest <= primary.Keys && View() == was.(queues := queues) && queues == was.queues[device := q]
        invariant OfDevice(was, device) <= rest
        decreases rest
      {
        GreatestExists(rest);
        var sha :| sha in rest && forall m <- rest :: m <= sha;
        if primary[sha].device == device {
          assert sha in OfDevice(was, device);
          assert sha == LastOf(was, device);
          var record := Used(primary[sha], now);
          primary := primary[sha := record];
          SameQueues(TakeLast(was, device, now).0, View());
          SameHandedOut(was, TakeLast(was, device, now).0, View(), device, now, Key(sha, record));
          return Key(sha, record);
        }
        rest := rest - {sha};
      }
      SameQueues(was, View());
      k := Nothing;
    }
  }
}
