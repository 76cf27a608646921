/** The queue of outstanding packets: what it holds, as a sequence. */
module SdbQueue {
  import opened Mcs

  /** `SDBPacket`. `serial` tells two allocations apart. */
  datatype SdbPacket = SdbPacket(idProcess: nat, priority: int, pkt: Packet, serial: nat)

  type Queue = seq<SdbPacket>

  // ----- operations

  /** Enter at the end and pass everything of lower priority. */
  function Insert(q: Queue, p: SdbPacket): Queue {
    if q == [] || p.priority <= q[|q| - 1].priority then q + [p]
    else Insert(q[..|q| - 1], p) + [q[|q| - 1]]
  }

  /** Position of the first packet with this id; the length when there is none. */
  function Find(q: Queue, id: nat): (i: nat)
    ensures i <= |q|
    ensures i < |q| ==> q[i].pkt.id == id
    ensures forall j | 0 <= j < i :: q[j].pkt.id != id
  {
    if q == [] || q[0].pkt.id == id then 0 else 1 + Find(q[1..], id)
  }

  function RemoveAt(q: Queue, i: nat): Queue
    requires i < |q|
  {
    q[..i] + q[i + 1..]
  }

  function Take(q: Queue, id: nat): Option<SdbPacket> {
    if Find(q, id) < |q| then Some(q[Find(q, id)]) else None
  }

  function Without(q: Queue, id: nat): Queue {
    if Find(q, id) < |q| then RemoveAt(q, Find(q, id)) else q
  }

  // ----- what the order means

  /** Higher priority first; the same priority in order of arrival. */
  predicate Before(a: SdbPacket, b: SdbPacket) {
    a.priority > b.priority || (a.priority == b.priority && a.serial < b.serial)
  }

  predicate Ordered(q: Queue) {
    forall i, j | 0 <= i < j < |q| :: Before(q[i], q[j])
  }

  predicate Descending(q: Queue) {
    forall i, j | 0 <= i < j < |q| :: q[i].priority >= q[j].priority
  }

  function OfPriority(q: Queue, k: int): Queue {
    if q == [] then []
    else (if q[0].priority == k then [q[0]] else []) + OfPriority(q[1..], k)
  }

  // ----- insertion

  /** Where `Insert` puts a packet. */
  lemma {:induction false} InsertPosition(q: Queue, p: SdbPacket) returns (k: nat)
    ensures k <= |q| && Insert(q, p) == q[..k] + [p] + q[k..]
    ensures k > 0 ==> p.priority <= q[k - 1].priority
    ensures forall j | k <= j < |q| :: q[j].priority < p.priority
  {
    if q == [] || p.priority <= q[|q| - 1].priority {
      k := |q|;
    } else {
      var init := q[..|q| - 1];
      k := InsertPosition(init, p);
      assert init[..k] + [p] + init[k..] + [q[|q| - 1]] == q[..k] + [p] + q[k..];
    }
  }

  lemma InsertConserves(q: Queue, p: SdbPacket)
    ensures multiset(Insert(q, p)) == multiset(q) + multiset{p}
  {
    var k := InsertPosition(q, p);
    MultisetInsert(q, p, k);
  }

  lemma MultisetInsert(q: Queue, p: SdbPacket, k: nat)
    requires k <= |q|
    ensures multiset(q[..k] + [p] + q[k..]) == multiset(q) + multiset{p}
  {
    assert q == q[..k] + q[k..];
  }

  lemma InsertDescending(q: Queue, p: SdbPacket)
    requires Descending(q)
    ensures Descending(Insert(q, p))
  {
    var k := InsertPosition(q, p);
  }

  /** A packet younger than those of its own priority keeps the order. */
  lemma InsertOrdered(q: Queue, p: SdbPacket)
    requires Ordered(q) && forall i | 0 <= i < |q| && q[i].priority == p.priority :: q[i].serial < p.serial
    ensures Ordered(Insert(q, p))
  {
    var k := InsertPosition(q, p);
  }

  lemma Associate(a: Queue, b: Queue, c: Queue)
    ensures a + (b + c) == a + b + c
  {
  }

  lemma {:induction false} OfPriorityConcat(a: Queue, b: Queue, k: int)
    ensures OfPriority(a + b, k) == OfPriority(a, k) + OfPriority(b, k)
  {
    if a == [] {
      assert a + b == b;
    } else {
      assert (a + b)[1..] == a[1..] + b;
      OfPriorityConcat(a[1..], b, k);
      Associate(if a[0].priority == k then [a[0]] else [], OfPriority(a[1..], k), OfPriority(b, k));
    }
  }

  lemma {:induction false} OfPriorityNone(q: Queue, k: int)
    requires forall i | 0 <= i < |q| :: q[i].priority != k
    ensures OfPriority(q, k) == []
  {
    if q != [] { OfPriorityNone(q[1..], k); }
  }

  /** First in, first out within a priority: an insertion only appends to its own class. */
  lemma InsertFifo(q: Queue, p: SdbPacket, k: int)
    requires Descending(q)
    ensures OfPriority(Insert(q, p), k) == OfPriority(q + [p], k)
  {
    var i := InsertPosition(q, p);
    if k == p.priority { OfPriorityNone(q[i..], k); }
    OfPrioritySplit(q, p, i, k);
  }

  lemma OfPrioritySplit(q: Queue, p: SdbPacket, i: nat, k: int)
    requires i <= |q| && (k == p.priority ==> OfPriority(q[i..], k) == [])
    ensures OfPriority(q[..i] + [p] + q[i..], k) == OfPriority(q + [p], k)
  {
    OfPriorityConcat(q[..i] + [p], q[i..], k);
    OfPriorityConcat(q[..i], [p], k);
    OfPriorityConcat(q, [p], k);
    OfPriorityConcat(q[..i], q[i..], k);
    assert q == q[..i] + q[i..];
  }

  // ----- sorting by pushing

  function PushAll(ps: Queue): Queue {
    if ps == [] then [] else Insert(PushAll(ps[..|ps| - 1]), ps[|ps| - 1])
  }

  /** `q` is `ps` sorted by descending priority, equals in their original order. */
  ghost predicate StableSort(ps: Queue, q: Queue) {
    Descending(q) && forall k :: OfPriority(q, k) == OfPriority(ps, k)
  }

  /** Draining a run of pushes yields their stable sort. */
  lemma {:induction false} PushesSortStably(ps: Queue)
    ensures StableSort(ps, PushAll(ps)) && multiset(PushAll(ps)) == multiset(ps)
  {
    if ps != [] {
      var init, p := ps[..|ps| - 1], ps[|ps| - 1];
      PushesSortStably(init);
      var q := PushAll(init);
      InsertDescending(q, p);
      InsertConserves(q, p);
      assert ps == init + [p];
      forall k ensures OfPriority(PushAll(ps), k) == OfPriority(ps, k) {
        InsertFifo(q, p, k);
        OfPriorityConcat(q, [p], k);
        OfPriorityConcat(init, [p], k);
      }
    }
  }

  /** A stable sort is unique, so the previous lemma says exactly what comes out. */
  lemma {:induction false} StableSortUnique(ps: Queue, q: Queue, r: Queue)
    requires StableSort(ps, q) && StableSort(ps, r)
    ensures q == r
  {
    SameClasses(q, r);
  }

  lemma {:induction false} SameClasses(q: Queue, r: Queue)
    requires Descending(q) && Descending(r)
    requires forall k :: OfPriority(q, k) == OfPriority(r, k)
    ensures q == r
  {
    HeadInClass(r);
    if q != [] {
      var k := q[0].priority;
      assert OfPriority(q, k)[0] == q[0];
      assert OfPriority(r, k) != [];
      FirstOfClass(r, k);
      FirstOfClass(q, r[0].priority);
      assert r[0] == q[0];
      forall c ensures OfPriority(q[1..], c) == OfPriority(r[1..], c) {
        assert OfPriority(q, c) == OfPriority(r, c);
        var head := if k == c then [q[0]] else [];
        assert head + OfPriority(q[1..], c) == head + OfPriority(r[1..], c);
        assert (head + OfPriority(q[1..], c))[|head|..] == OfPriority(q[1..], c);
        assert (head + OfPriority(r[1..], c))[|head|..] == OfPriority(r[1..], c);
      }
      SameClasses(q[1..], r[1..]);
    }
  }

  lemma HeadInClass(q: Queue)
    ensures q == [] || OfPriority(q, q[0].priority) != []
  {
  }

  /** In a descending queue nothing of priority `k` stands before lower priorities. */
  lemma {:induction false} FirstOfClass(q: Queue, k: int)
    requires Descending(q) && OfPriority(q, k) != []
    ensures q != [] && q[0].priority >= k
    ensures q[0].priority == k ==> OfPriority(q, k)[0] == q[0]
  {
    if q[0].priority < k {
      OfPriorityNone(q, k);
    }
  }

  // ----- removal

  lemma RemoveOrdered(q: Queue, i: nat)
    requires i < |q|
    ensures Ordered(q) ==> Ordered(RemoveAt(q, i))
    ensures Descending(q) ==> Descending(RemoveAt(q, i))
    ensures multiset(q) == multiset(RemoveAt(q, i)) + multiset{q[i]}
  {
    assert q == q[..i] + [q[i]] + q[i + 1..];
  }

  /** The packet an answer finds is the most urgent of those with its id, the oldest of
      the most urgent. */
  lemma TakesMostUrgent(q: Queue, id: nat)
    requires Ordered(q) && Take(q, id).Some?
    ensures var p := Take(q, id).value;
            && p in q && p.pkt.id == id
            && forall o | o in q && o.pkt.id == id && o != p :: Before(p, o)
  {
  }

  // ----- runs

  datatype Op = Push(p: SdbPacket) | Get(id: nat) | Pop

  datatype Log = Log(queue: Queue, pushed: Queue, removed: Queue)

  /** One operation. A pop waits for a packet, so on an empty queue nothing happens. */
  function Apply(l: Log, op: Op): Log {
    match op
    case Push(p) => Log(Insert(l.queue, p), l.pushed + [p], l.removed)
    case Get(id) =>
      if Take(l.queue, id).None? then l
      else Log(Without(l.queue, id), l.pushed, l.removed + [Take(l.queue, id).value])
    case Pop =>
      if l.queue == [] then l
      else Log(l.queue[1..], l.pushed, l.removed + [l.queue[0]])
  }

  function Run(ops: seq<Op>): Log {
    if ops == [] then Log([], [], []) else Apply(Run(ops[..|ops| - 1]), ops[|ops| - 1])
  }

  /** Serials number the pushes. */
  predicate Numbered(ps: Queue) {
    forall i, j | 0 <= i < j < |ps| :: ps[i].serial < ps[j].serial
  }

  ghost predicate Sound(l: Log) {
    && multiset(l.pushed) == multiset(l.queue) + multiset(l.removed)
    && Descending(l.queue)
    && (Numbered(l.pushed) ==> Ordered(l.queue))
  }

  lemma PushSound(l: Log, p: SdbPacket)
    requires Sound(l)
    ensures Sound(Apply(l, Push(p)))
  {
    InsertConserves(l.queue, p);
    InsertDescending(l.queue, p);
    assert multiset(l.pushed + [p]) == multiset(l.pushed) + multiset{p};
    if Numbered(l.pushed + [p]) {
      YoungestIn(l.queue, l.pushed, l.removed, p);
      InsertOrdered(l.queue, p);
    }
  }

  lemma YoungestIn(q: Queue, pushed: Queue, removed: Queue, p: SdbPacket)
    requires multiset(pushed) == multiset(q) + multiset(removed)
    requires Numbered(pushed + [p])
    ensures Numbered(pushed) && forall i | 0 <= i < |q| :: q[i].serial < p.serial
  {
    var all := pushed + [p];
    forall i, j | 0 <= i < j < |pushed| ensures pushed[i].serial < pushed[j].serial {
      assert all[i].serial < all[j].serial;
    }
    forall i | 0 <= i < |q| ensures q[i].serial < p.serial {
      assert q[i] in multiset(q);
      assert q[i] in multiset(pushed);
      var j :| 0 <= j < |pushed| && pushed[j] == q[i];
      assert all[j].serial < all[|pushed|].serial;
    }
  }

  lemma ApplySound(l: Log, op: Op)
    requires Sound(l)
    ensures Sound(Apply(l, op))
  {
    match op
    case Push(p) => PushSound(l, p);
    case Get(id) =>
      if Take(l.queue, id).Some? { RemovalSound(l, Find(l.queue, id)); }
    case Pop =>
      if l.queue != [] {
        RemovalSound(l, 0);
        assert RemoveAt(l.queue, 0) == l.queue[1..];
      }
  }

  lemma RemovalSound(l: Log, i: nat)
    requires Sound(l) && i < |l.queue|
    ensures Sound(Log(RemoveAt(l.queue, i), l.pushed, l.removed + [l.queue[i]]))
  {
    RemoveOrdered(l.queue, i);
    assert multiset(l.removed + [l.queue[i]]) == multiset(l.removed) + multiset{l.queue[i]};
  }

  /** What each operation does to the queue: a push adds its packet, a pop takes the most urgent
      packet and the oldest of those, and a get the most urgent and oldest one with its id. */
  lemma TakesInOrder(ops: seq<Op>, id: nat)
    requires Numbered(Run(ops).pushed)
    ensures var l, pop, get := Run(ops), Apply(Run(ops), Pop), Apply(Run(ops), Get(id));
            && (forall p :: Apply(l, Push(p)).pushed == l.pushed + [p])
            && (if l.queue == [] then pop == l
                else
                  && pop.removed == l.removed + [l.queue[0]] && l.queue == [l.queue[0]] + pop.queue
                  && forall o | o in pop.queue :: Before(l.queue[0], o))
            && (if forall o | o in l.queue :: o.pkt.id != id then get == l
                else
                  && |get.removed| == |l.removed| + 1
                  && var p := get.removed[|l.removed|];
                  && p in l.queue && p.pkt.id == id && multiset(l.queue) == multiset(get.queue) + multiset{p}
                  && forall o | o in l.queue && o.pkt.id == id && o != p :: Before(p, o))
  {
    RunSound(ops);
    var q := Run(ops).queue;
    if q != [] {
      assert q == [q[0]] + q[1..];
    }
    if Take(q, id).Some? {
      TakesMostUrgent(q, id);
      RemoveOrdered(q, Find(q, id));
    }
  }

  /** Over every interleaving of pushes, gets and pops: nothing is lost or invented, and the
      queue stays in order of priority and arrival. */
  lemma {:induction false} RunSound(ops: seq<Op>)
    ensures Sound(Run(ops))
  {
    if ops != [] {
      RunSound(ops[..|ops| - 1]);
      ApplySound(Run(ops[..|ops| - 1]), ops[|ops| - 1]);
    }
  }
}
