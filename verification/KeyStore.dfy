/** The key database of keyworker: a primary table of keys and, for every device, a queue of the keys
    that have not been used yet.  A key is known by its hash, here a number in the order of the
    table; transactions are atomic. */
module KeyStore {

  datatype Record = Record(key: seq<bv8>, added: nat, lastUsage: nat, usage: nat, device: nat, num: nat)

  /** A queue of numbered records: `next` is the number the next appended record gets. */
  datatype Queue = Queue(records: map<nat, nat>, next: nat)

  datatype Store = Store(primary: map<nat, Record>, queues: map<nat, Queue>)

  const MAX_USAGE: nat := 1000000

  /** The queue of a device is created when it is first asked for. */
  function QueueOf(s: Store, d: nat): Queue { if d in s.queues then s.queues[d] else Queue(map[], 1) }

  function Append(q: Queue, sha: nat): Queue { Queue(q.records[q.next := sha], q.next + 1) }

  function Delete(q: Queue, n: nat): Queue { q.(records := q.records - {n}) }

  // The operations

  /** putKey: a new key is appended to the queue of its device and remembers its number there.  Only
      one byte of its `usage` is set to 0; the others are what the memory of the record held. */
  function Put(s: Store, sha: nat, key: seq<bv8>, device: nat, now: nat, usage: nat): Store {
    if sha in s.primary then s
    else
      var q := QueueOf(s, device);
      Store(s.primary[sha := Record(key, now, now, usage, device, q.next)], s.queues[device := Append(q, sha)])
  }

  datatype AssignResult = Assigned | NotFound | CannotDelete

  /** assignDeviceBySha: an unused key moves from one queue to the other. */
  function Assign(s: Store, sha: nat, device: nat, now: nat): (Store, AssignResult) {
    if sha !in s.primary then (s, NotFound)
    else
      var r := s.primary[sha];
      if r.usage == 0 then
        var from := QueueOf(s, r.device);
        if r.num !in from.records then (s, CannotDelete)
        else
          var queues := s.queues[r.device := Delete(from, r.num)];
          var to := QueueOf(s.(queues := queues), device);
          (Store(s.primary[sha := r.(lastUsage := now, device := device, num := to.next)],
              queues[device := Append(to, sha)]),
           Assigned)
      else (s.(primary := s.primary[sha := r.(lastUsage := now, device := device)]), Assigned)
  }

  datatype Handed = Nothing | Key(sha: nat, record: Record)

  function Used(r: Record, now: nat): Record {
    r.(lastUsage := now, usage := if r.usage < MAX_USAGE then r.usage + 1 else r.usage)
  }

  lemma {:induction false} LeastOf(a: set<nat>) returns (n: nat)
    requires a != {}
    ensures n in a && forall m <- a :: n <= m
    decreases a
  {
    var x :| x in a;
    if a == {x} {
      n := x;
    } else {
      var l := LeastOf(a - {x});
      n := if x < l then x else l;
      assert forall m <- a :: m == x || m in a - {x};
    }
  }

  lemma {:induction false} GreatestOf(a: set<nat>) returns (n: nat)
    requires a != {}
    ensures n in a && forall m <- a :: m <= n
    decreases a
  {
    var x :| x in a;
    if a == {x} {
      n := x;
    } else {
      var l := GreatestOf(a - {x});
      n := if l < x then x else l;
      assert forall m <- a :: m == x || m in a - {x};
    }
  }

  lemma LeastExists(a: set<nat>)
    requires a != {}
    ensures exists n :: n in a && forall m <- a :: n <= m
  {
    var n := LeastOf(a);
  }

  lemma GreatestExists(a: set<nat>)
    requires a != {}
    ensures exists n :: n in a && forall m <- a :: m <= n
  {
    var n := GreatestOf(a);
  }

  /** The record a queue hands out next: the one that was appended first. */
  ghost function Oldest(q: Queue): (n: nat)
    requires q.records != map[]
    ensures n in q.records && forall m <- q.records :: n <= m
  {
    LeastExists(q.records.Keys);
    var n :| n in q.records.Keys && forall m <- q.records.Keys :: n <= m;
    n
  }

  function OfDevice(s: Store, device: nat): set<nat> { set sha <- s.primary | s.primary[sha].device == device }

  /** The last key of a device in the order of the table. */
  ghost function LastOf(s: Store, device: nat): (sha: nat)
    requires OfDevice(s, device) != {}
    ensures sha in OfDevice(s, device) && forall m <- OfDevice(s, device) :: m <= sha
  {
    GreatestExists(OfDevice(s, device));
    var n :| n in OfDevice(s, device) && forall m <- OfDevice(s, device) :: m <= n;
    n
  }

  /** getLastKeyDevice: the oldest unused key of the device, or else the last of its used ones. */
  ghost function TakeLast(s: Store, device: nat, now: nat): (Store, Handed) {
    var q := QueueOf(s, device);
    if q.records != map[] then
      var n := Oldest(q);
      var sha := q.records[n];
      if sha in s.primary then
        var r := Used(s.primary[sha], now);
        (Store(s.primary[sha := r], s.queues[device := Delete(q, n)]), Key(sha, r))
      else (s, Nothing)
    else if OfDevice(s, device) == {} then (s, Nothing)
    else
      var sha := LastOf(s, device);
      var r := Used(s.primary[sha], now);
      (s.(primary := s.primary[sha := r]), Key(sha, r))
  }

  // Agreement of the table and the queues

  /** Record `n` of the queue of device `d` names the key `sha`. */
  predicate Queued(s: Store, d: nat, n: nat, sha: nat) {
    d in s.queues && n in s.queues[d].records && s.queues[d].records[n] == sha
  }

  /** A queued key is unused and belongs to that device at that number; an unused key is queued; and
      numbers in use are below the next one. */
  ghost predicate Inv(s: Store) {
    && (forall d, n, sha :: Queued(s, d, n, sha) ==>
          sha in s.primary && s.primary[sha].usage == 0 && s.primary[sha].device == d && s.primary[sha].num == n)
    && (forall sha <- s.primary :: s.primary[sha].usage == 0 ==>
        Queued(s, s.primary[sha].device, s.primary[sha].num, sha))
    && (forall d <- s.queues, n <- s.queues[d].records :: n < s.queues[d].next)
  }

  const EMPTY := Store(map[], map[])

  /** Storing a new key keeps the agreement if and only if its usage starts at 0. */
  lemma PutKeeps(s: Store, sha: nat, key: seq<bv8>, device: nat, now: nat, usage: nat)
    requires Inv(s)
    ensures Inv(Put(s, sha, key, device, now, usage)) <==> sha in s.primary || usage == 0
  {
    var s' := Put(s, sha, key, device, now, usage);
    if sha !in s.primary {
      var q := QueueOf(s, device);
      forall d, n, k ensures Queued(s', d, n, k) <==> Queued(s, d, n, k) || (d == device && n == q.next && k == sha) {
      }
      assert Queued(s', device, q.next, sha);
    }
  }

  /** The delete in assignDeviceBySha always finds its record. */
  lemma AssignFindsRecord(s: Store, sha: nat, device: nat, now: nat)
    requires Inv(s)
    ensures Assign(s, sha, device, now).1 == if sha in s.primary then Assigned else NotFound
  {
    if sha in s.primary && s.primary[sha].usage == 0 {
      assert Queued(s, s.primary[sha].device, s.primary[sha].num, sha);
    }
  }

  lemma AssignKeeps(s: Store, sha: nat, device: nat, now: nat)
    requires Inv(s)
    ensures Inv(Assign(s, sha, device, now).0)
  {
    var s' := Assign(s, sha, device, now).0;
    AssignFindsRecord(s, sha, device, now);
    if sha in s.primary {
      var r := s.primary[sha];
      if r.usage == 0 {
        assert Queued(s, r.device, r.num, sha);
        var queues := s.queues[r.device := Delete(s.queues[r.device], r.num)];
        var next := QueueOf(s.(queues := queues), device).next;
        forall d, n, k ensures Queued(s', d, n, k) <==>
          (Queued(s, d, n, k) && !(d == r.device && n == r.num)) || (d == device && n == next && k == sha)
        {
        }
      } else {
        forall d, n, k ensures Queued(s', d, n, k) <==> Queued(s, d, n, k) {
        }
      }
    }
  }

  lemma TakeLastKeeps(s: Store, device: nat, now: nat)
    requires Inv(s)
    ensures Inv(TakeLast(s, device, now).0)
  {
    var s' := TakeLast(s, device, now).0;
    var q := QueueOf(s, device);
    if q.records != map[] {
      var o := Oldest(q);
      assert Queued(s, device, o, q.records[o]);
      forall d, n, k ensures Queued(s', d, n, k) <==> Queued(s, d, n, k) && !(d == device && n == o) {
      }
    } else {
      forall d, n, k ensures Queued(s', d, n, k) <==> Queued(s, d, n, k) {
      }
    }
  }

  /** A key is handed out for the first time exactly when the device has an unused one; it is then
      the one that was queued first. */
  lemma FreshFirst(s: Store, device: nat, now: nat)
    requires Inv(s)
    ensures var h := TakeLast(s, device, now).1; var q := QueueOf(s, device);
            && (h.Key? && h.record.usage == 1 <==> q.records != map[])
            && (q.records != map[] ==>
                h.sha == q.records[Oldest(q)] && h.sha in s.primary && s.primary[h.sha].usage == 0)
            && (h.Nothing? <==> OfDevice(s, device) == {})
  {
    var q := QueueOf(s, device);
    if q.records != map[] {
      assert Queued(s, device, Oldest(q), q.records[Oldest(q)]);
      assert q.records[Oldest(q)] in OfDevice(s, device);
    } else if OfDevice(s, device) != {} {
      var sha := LastOf(s, device);
      assert s.primary[sha].usage == 0 ==> Queued(s, device, s.primary[sha].num, sha);
    }
  }

  // What the operations change

  /** Only the record of `sha` differs. */
  ghost predicate OthersKept(s: Store, t: Store, sha: nat) {
    && t.primary.Keys == s.primary.Keys + {sha}
    && forall k <- s.primary :: k != sha ==> t.primary[k] == s.primary[k]
  }

  /** `sha` is queued for `device` behind everything else that is queued there, and for no other device; all
      other entries of the queues are as they were. */
  ghost predicate QueuedLast(s: Store, t: Store, sha: nat, device: nat, num: nat) {
    && (forall d: nat, n: nat, k: nat :: Queued(t, d, n, k) <==>
          (k != sha && Queued(s, d, n, k)) || (k == sha && d == device && n == num))
    && (forall n: nat, k: nat :: k != sha && Queued(t, device, n, k) ==> n < num)
  }

  /** The key has been stored: a new record, and a place at the end of the queue of its device. */
  ghost predicate Stored(s: Store, t: Store, sha: nat, key: seq<bv8>, device: nat, now: nat) {
    && OthersKept(s, t, sha) && sha in t.primary
    && (var r := t.primary[sha];
        && r.key == key && r.added == now && r.lastUsage == now && r.usage == 0 && r.device == device
        && QueuedLast(s, t, sha, device, r.num))
  }

  lemma PutStores(s: Store, sha: nat, key: seq<bv8>, device: nat, now: nat)
    requires Inv(s) && sha !in s.primary
    ensures Stored(s, Put(s, sha, key, device, now, 0), sha, key, device, now)
  {
    var s' := Put(s, sha, key, device, now, 0);
    var q := QueueOf(s, device);
    forall d, n, k ensures Queued(s', d, n, k) <==>
      (k != sha && Queued(s, d, n, k)) || (k == sha && d == device && n == q.next)
    {
      if Queued(s, d, n, k) { assert k in s.primary; }
    }
  }

  /** The key has been assigned: its record names the new device, an unused key has moved to the end of the
      queue of that device, and nothing else has changed. */
  ghost predicate Moved(s: Store, t: Store, sha: nat, device: nat, now: nat)
    requires sha in s.primary
  {
    && OthersKept(s, t, sha) && sha in t.primary
    && (var was := s.primary[sha]; var r := t.primary[sha];
        && r.device == device && r.lastUsage == now && r.key == was.key && r.added == was.added && r.usage == was.usage
        && if was.usage == 0 then QueuedLast(s, t, sha, device, r.num)
           else r.num == was.num && forall d: nat, n: nat, k: nat :: Queued(t, d, n, k) <==> Queued(s, d, n, k))
  }

  /** Assigning a known key does that, and so the new device has a key. */
  lemma AssignMoves(s: Store, sha: nat, device: nat, now: nat, later: nat)
    requires Inv(s) && sha in s.primary
    ensures var (t, r) := Assign(s, sha, device, now);
            r == Assigned && Moved(s, t, sha, device, now) && TakeLast(t, device, later).1.Key?
  {
    var s' := Assign(s, sha, device, now).0;
    AssignFindsRecord(s, sha, device, now);
    AssignKeeps(s, sha, device, now);
    FreshFirst(s', device, later);
    assert sha in OfDevice(s', device);
    var r := s.primary[sha];
    if r.usage == 0 {
      assert Queued(s, r.device, r.num, sha);
      var queues := s.queues[r.device := Delete(s.queues[r.device], r.num)];
      var next := QueueOf(s.(queues := queues), device).next;
      forall d, n, k ensures Queued(s', d, n, k) <==>
        (k != sha && Queued(s, d, n, k)) || (k == sha && d == device && n == next)
      {
      }
    } else {
      forall d, n, k ensures Queued(s', d, n, k) <==> Queued(s, d, n, k) {
      }
    }
  }

  /** A key of the device has been handed out: one use more is recorded, it is no longer queued, and nothing
      else has changed; it was the first in the queue, or, with none queued, the last of the device's keys. */
  ghost predicate HandedOut(s: Store, t: Store, device: nat, now: nat, h: Handed)
    requires h.Key?
  {
    && h.sha in s.primary && s.primary[h.sha].device == device
    && t.primary == s.primary[h.sha := h.record]
    && (var was := s.primary[h.sha];
        h.record == Record(was.key, was.added, now, if was.usage < MAX_USAGE then was.usage + 1 else was.usage,
                           device, was.num))
    && (forall d: nat, n: nat, k: nat :: Queued(t, d, n, k) <==> k != h.sha && Queued(s, d, n, k))
    && (if s.primary[h.sha].usage == 0 then
          forall n: nat, k: nat :: Queued(s, device, n, k) ==> s.primary[h.sha].num <= n
        else
          && (forall n: nat, k: nat :: !Queued(s, device, n, k))
          && (forall k <- s.primary :: s.primary[k].device == device ==> k <= h.sha))
  }

  lemma TakeLastHandsOut(s: Store, device: nat, now: nat)
    requires Inv(s)
    ensures var (t, h) := TakeLast(s, device, now);
            if h.Key? then HandedOut(s, t, device, now, h)
            else t == s && forall k <- s.primary :: s.primary[k].device != device
  {
    var (t, h) := TakeLast(s, device, now);
    var q := QueueOf(s, device);
    FreshFirst(s, device, now);
    if q.records != map[] {
      var o := Oldest(q);
      assert Queued(s, device, o, q.records[o]);
      forall d, n, k ensures Queued(t, d, n, k) <==> Queued(s, d, n, k) && k != h.sha {
      }
    } else if OfDevice(s, device) != {} {
      assert s.primary[h.sha].usage == 0 ==> Queued(s, device, s.primary[h.sha].num, h.sha);
      forall d, n, k ensures Queued(t, d, n, k) <==> Queued(s, d, n, k) && k != h.sha {
        if Queued(s, d, n, k) { assert s.primary[k].usage == 0; }
      }
      forall k <- s.primary | s.primary[k].device == device ensures k <= h.sha { assert k in OfDevice(s, device); }
    } else {
      forall k <- s.primary ensures s.primary[k].device != device {
        assert k !in OfDevice(s, device);
      }
    }
  }

  // Runs

  datatype Op =
    | PutKey(sha: nat, key: seq<bv8>, device: nat, now: nat, usage: nat)
    | AssignDevice(sha: nat, device: nat, now: nat)
    | LastKey(device: nat, now: nat)

  ghost function Step(s: Store, op: Op): (Store, Handed) {
    match op
    case PutKey(sha, key, device, now, usage) => (Put(s, sha, key, device, now, usage), Nothing)
    case AssignDevice(sha, device, now) => (Assign(s, sha, device, now).0, Nothing)
    case LastKey(device, now) => TakeLast(s, device, now)
  }

  ghost function After(ops: seq<Op>): Store {
    if ops == [] then EMPTY else Step(After(ops[..|ops| - 1]), ops[|ops| - 1]).0
  }

  /** Operation `i` stores a new key whose usage does not start at 0. */
  ghost predicate StoresUsed(ops: seq<Op>, i: nat)
    requires i < |ops|
  {
    ops[i].PutKey? && ops[i].usage != 0 && ops[i].sha !in After(ops[..i]).primary
  }

  /** All keys start unused. */
  ghost predicate Clean(ops: seq<Op>) { forall i :: 0 <= i < |ops| ==> !StoresUsed(ops, i) }

  lemma StepInv(s: Store, op: Op)
    requires Inv(s)
    ensures Inv(Step(s, op).0) <==> !(op.PutKey? && op.usage != 0 && op.sha !in s.primary)
  {
    hide Inv, Put, Assign, TakeLast;
    match op
    case PutKey(sha, key, device, now, usage) => PutKeeps(s, sha, key, device, now, usage);
    case AssignDevice(sha, device, now) => AssignKeeps(s, sha, device, now);
    case LastKey(device, now) => TakeLastKeeps(s, device, now);
  }

  lemma CleanPrefix(ops: seq<Op>, i: nat)
    requires Clean(ops) && i <= |ops|
    ensures Clean(ops[..i])
  {
    forall j | 0 <= j < i ensures !StoresUsed(ops[..i], j) {
      assert ops[..i][..j] == ops[..j] && !StoresUsed(ops, j);
    }
  }

  lemma {:induction false} AfterInv(ops: seq<Op>)
    requires Clean(ops)
    ensures Inv(After(ops))
  {
    if ops != [] {
      hide Inv, Step, Clean;
      var k := |ops| - 1;
      CleanPrefix(ops, k);
      AfterInv(ops[..k]);
      StepInv(After(ops[..k]), ops[k]);
      assert !StoresUsed(ops, k) by { LastIsClean(ops); }
    }
  }

  lemma LastIsClean(ops: seq<Op>)
    requires Clean(ops) && ops != []
    ensures !StoresUsed(ops, |ops| - 1)
  {
  }

  /** Table and queues agree at every point of a run if and only if all its keys start unused. */
  lemma {:induction false} AgreesExactly(ops: seq<Op>)
    ensures (forall i :: 0 <= i <= |ops| ==> Inv(After(ops[..i]))) <==> Clean(ops)
  {
    hide Inv, Step;
    if Clean(ops) {
      forall i | 0 <= i <= |ops| ensures Inv(After(ops[..i])) {
        CleanPrefix(ops, i);
        AfterInv(ops[..i]);
      }
    } else if forall i :: 0 <= i <= |ops| ==> Inv(After(ops[..i])) {
      var i :| 0 <= i < |ops| && StoresUsed(ops, i);
      assert ops[..i + 1][..i] == ops[..i];
      StepInv(After(ops[..i]), ops[i]);
    }
  }

  /** A used key never becomes unused again. */
  lemma UsedStaysUsed(s: Store, op: Op, sha: nat)
    requires Inv(s) && sha in s.primary && s.primary[sha].usage > 0
    ensures sha in Step(s, op).0.primary && Step(s, op).0.primary[sha].usage > 0
  {
  }

  lemma {:induction false} UsedForGood(ops: seq<Op>, i: nat, sha: nat)
    requires Clean(ops) && i <= |ops| && sha in After(ops[..i]).primary && After(ops[..i]).primary[sha].usage > 0
    ensures sha in After(ops).primary && After(ops).primary[sha].usage > 0
    decreases |ops|
  {
    hide Inv, Step;
    if i < |ops| {
      var front := ops[..|ops| - 1];
      assert front[..i] == ops[..i];
      CleanPrefix(ops, |front|);
      UsedForGood(front, i, sha);
      AfterInv(front);
      UsedStaysUsed(After(front), ops[|ops| - 1], sha);
    } else {
      assert ops[..i] == ops;
    }
  }

  /** What operation `i` of a run hands out. */
  ghost function Given(ops: seq<Op>, i: nat): Handed
    requires i < |ops|
  {
    Step(After(ops[..i]), ops[i]).1
  }

  /** In any run a key is handed out as unused at most once. */
  lemma FreshOnlyOnce(ops: seq<Op>, i: nat, j: nat)
    requires Clean(ops) && i < j < |ops| && Given(ops, i).Key? && Given(ops, j).Key?
    requires Given(ops, i).record.usage == 1 && Given(ops, j).record.usage == 1
    ensures Given(ops, i).sha != Given(ops, j).sha
  {
    var s, t := After(ops[..i]), After(ops[..j]);
    CleanPrefix(ops, i);
    CleanPrefix(ops, j);
    AfterInv(ops[..i]);
    AfterInv(ops[..j]);
    var sha := Given(ops, i).sha;
    HandedIsUsed(s, ops[i]);
    assert ops[..j][..i + 1] == ops[..i + 1] && ops[..i + 1][..i] == ops[..i];
    UsedForGood(ops[..j], i + 1, sha);
    FreshFirst(t, ops[j].device, ops[j].now);
  }

  lemma HandedIsUsed(s: Store, op: Op)
    requires Inv(s) && Step(s, op).1.Key?
    ensures op.LastKey? && Step(s, op).1.sha in Step(s, op).0.primary
    ensures Step(s, op).0.primary[Step(s, op).1.sha] == Step(s, op).1.record && Step(s, op).1.record.usage > 0
  {
  }
}
