/** The client's pending requests: what the list holds, as a sequence with the newest first. */
module PendingList {
  import opened Mcs

  /** `SDBPendingPacket`: `pp_id`, `pp_valid` and, once valid, `pp_pkt`. */
  datatype Pending = Pending(id: uint, valid: bool, pkt: Option<Packet>)

  /** Position of the newest entry with this id; the length when there is none. */
  function Find(s: seq<Pending>, id: uint): (i: nat)
    ensures i <= |s|
    ensures i < |s| ==> s[i].id == id
    ensures forall j | 0 <= j < i :: s[j].id != id
  {
    if s == [] || s[0].id == id then 0 else 1 + Find(s[1..], id)
  }

  function Add(s: seq<Pending>, id: uint): seq<Pending> {
    [Pending(id, false, None)] + s
  }

  function Deliver(s: seq<Pending>, p: Packet): seq<Pending> {
    var i := Find(s, p.id);
    if i == |s| then s else s[i := Pending(p.id, true, Some(p))]
  }

  function Delete(s: seq<Pending>, id: uint): seq<Pending> {
    var i := Find(s, id);
    if i == |s| then s else s[..i] + s[i + 1..]
  }

  // ----- runs

  datatype Op = AddOp(id: uint) | DeliverOp(pkt: Packet) | DeleteOp(id: uint)

  function Step(s: seq<Pending>, op: Op): seq<Pending> {
    match op
    case AddOp(id) => Add(s, id)
    case DeliverOp(p) => Deliver(s, p)
    case DeleteOp(id) => Delete(s, id)
  }

  function Run(s: seq<Pending>, ops: seq<Op>): seq<Pending> {
    if ops == [] then s else Step(Run(s, ops[..|ops| - 1]), ops[|ops| - 1])
  }

  /** A valid entry holds a packet with its own id. */
  predicate Matched(s: seq<Pending>) {
    forall i | 0 <= i < |s| && s[i].valid :: s[i].pkt.Some? && s[i].pkt.value.id == s[i].id
  }

  /** Whatever the clients and the reader do, nobody is handed an answer to another id. */
  lemma {:induction false} RunMatched(ops: seq<Op>)
    ensures Matched(Run([], ops))
  {
    if ops != [] { RunMatched(ops[..|ops| - 1]); }
  }

  /** Requests in flight have different ids. */
  predicate Distinct(s: seq<Pending>) {
    forall i, j | 0 <= i < j < |s| :: s[i].id != s[j].id
  }

  predicate Fresh(s: seq<Pending>, op: Op) {
    op.AddOp? ==> Find(s, op.id) == |s|
  }

  /** Every request of the run is made with an id that is not in flight. */
  predicate FreshRun(s: seq<Pending>, ops: seq<Op>) {
    ops == [] || (FreshRun(s, ops[..|ops| - 1]) && Fresh(Run(s, ops[..|ops| - 1]), ops[|ops| - 1]))
  }

  lemma StepDistinct(s: seq<Pending>, op: Op)
    requires Distinct(s) && Fresh(s, op)
    ensures Distinct(Step(s, op))
  {
  }

  /** The last packet with this id that the run delivers. */
  function LastDelivered(ops: seq<Op>, id: uint): Option<Packet> {
    if ops == [] then None
    else if ops[|ops| - 1].DeliverOp? && ops[|ops| - 1].pkt.id == id then Some(ops[|ops| - 1].pkt)
    else LastDelivered(ops[..|ops| - 1], id)
  }

  /** What a request finds when it looks up its id. */
  function Lookup(s: seq<Pending>, id: uint): Option<Pending> {
    if Find(s, id) < |s| then Some(s[Find(s, id)]) else None
  }

  lemma StepLookup(s: seq<Pending>, op: Op, id: uint)
    requires Lookup(s, id).Some? && op != AddOp(id) && op != DeleteOp(id)
    ensures Lookup(Step(s, op), id) ==
              if op.DeliverOp? && op.pkt.id == id then Some(Pending(id, true, Some(op.pkt))) else Lookup(s, id)
  {
    var i := Find(s, id);
    var s' := Step(s, op);
    match op
    case AddOp(other) =>
      assert s'[1..] == s;
    case DeliverOp(p) =>
      FindIs(s', id, i);
    case DeleteOp(other) =>
      var j := Find(s, other);
      if j < |s| { FindIs(s', id, if j < i then i - 1 else i); }
  }

  lemma FindIs(s: seq<Pending>, id: uint, k: nat)
    requires k < |s| && s[k].id == id && forall j | 0 <= j < k :: s[j].id != id
    ensures Find(s, id) == k
  {
  }

  /** A synchronous send: from the moment its entry is added, through anything the other
      requests and the reader do, the entry holds the last answer with its id and is not
      valid before there is one. */
  lemma {:induction false} SyncSend(s: seq<Pending>, id: uint, mid: seq<Op>)
    requires forall i | 0 <= i < |mid| :: mid[i] != AddOp(id) && mid[i] != DeleteOp(id)
    ensures var answer := LastDelivered(mid, id);
            Lookup(Run(Add(s, id), mid), id) == Some(Pending(id, answer.Some?, answer))
  {
    if mid != [] {
      var init := mid[..|mid| - 1];
      SyncSend(s, id, init);
      StepLookup(Run(Add(s, id), init), mid[|mid| - 1], id);
    }
  }

  /** Its clean-up then takes its own entry away and leaves all others, given that the ids
      in flight differ. */
  lemma DeleteOwn(s: seq<Pending>, id: uint, other: uint)
    requires Distinct(s)
    ensures Lookup(Delete(s, id), other) == if other == id then None else Lookup(s, other)
  {
    var i, j := Find(s, id), Find(s, other);
    var s' := Delete(s, id);
    if i < |s| && other != id && j < |s| {
      FindIs(s', other, if i < j then j - 1 else j);
    } else if Find(s', other) < |s'| {
      assert s'[Find(s', other)] in s;
    }
  }

  lemma {:induction false} FreshRunDistinct(s: seq<Pending>, ops: seq<Op>)
    requires Distinct(s) && FreshRun(s, ops)
    ensures Distinct(Run(s, ops))
  {
    if ops != [] {
      FreshRunDistinct(s, ops[..|ops| - 1]);
      StepDistinct(Run(s, ops[..|ops| - 1]), ops[|ops| - 1]);
    }
  }

  lemma {:induction false} LastDeliveredId(ops: seq<Op>, id: uint)
    ensures LastDelivered(ops, id).Some? ==> LastDelivered(ops, id).value.id == id
  {
    if ops != [] { LastDeliveredId(ops[..|ops| - 1], id); }
  }

  /** `sdb_send_sync` from start to end, among any other requests with ids of their own: what
      it returns answers its own request, and its clean-up disturbs nobody. */
  lemma SyncSendReturns(s: seq<Pending>, id: uint, mid: seq<Op>)
    requires Distinct(s) && Fresh(s, AddOp(id)) && FreshRun(Add(s, id), mid)
    requires forall i | 0 <= i < |mid| :: mid[i] != AddOp(id) && mid[i] != DeleteOp(id)
    ensures var t := Run(Add(s, id), mid);
            && Lookup(t, id).Some?
            && (Lookup(t, id).value.valid <==> exists i | 0 <= i < |mid| :: mid[i].DeliverOp? && mid[i].pkt.id == id)
            && (Lookup(t, id).value.valid ==> Lookup(t, id).value.pkt.Some? && Lookup(t, id).value.pkt.value.id == id)
            && Lookup(Delete(t, id), id) == None
            && forall other: uint | other != id :: Lookup(Delete(t, id), other) == Lookup(t, other)
  {
    var t := Run(Add(s, id), mid);
    SyncSend(s, id, mid);
    LastDeliveredId(mid, id);
    SomeDelivered(mid, id);
    StepDistinct(s, AddOp(id));
    FreshRunDistinct(Add(s, id), mid);
    forall other: uint ensures Lookup(Delete(t, id), other) == if other == id then None else Lookup(t, other) {
      DeleteOwn(t, id, other);
    }
  }

  lemma {:induction false} SomeDelivered(ops: seq<Op>, id: uint)
    ensures LastDelivered(ops, id).Some? <==> exists i | 0 <= i < |ops| :: ops[i].DeliverOp? && ops[i].pkt.id == id
  {
    if ops != [] {
      var init := ops[..|ops| - 1];
      SomeDelivered(init, id);
      if exists i | 0 <= i < |ops| :: ops[i].DeliverOp? && ops[i].pkt.id == id {
        var i :| 0 <= i < |ops| && ops[i].DeliverOp? && ops[i].pkt.id == id;
        assert i == |ops| - 1 || init[i] == ops[i];
      }
    }
  }

  /** When ids do repeat, an answer reaches an entry exactly if no newer one has its id. */
  lemma DeliveryReaches(s: seq<Pending>, p: Packet, k: nat)
    requires k < |s| && s[k].id == p.id
    ensures Deliver(s, p)[k] ==
              if forall j | 0 <= j < k :: s[j].id != p.id then Pending(p.id, true, Some(p)) else s[k]
  {
    if forall j | 0 <= j < k :: s[j].id != p.id { FindIs(s, p.id, k); }
  }
}

/** `Libraries/SDB/sdb.c`: the pending requests as a doubly linked list. */
module LinkedPending {
  import opened Mcs
  import opened PendingList

  class Elem {
    const id: uint
    var valid: bool
    var pkt: Option<Packet>
    var prev: Elem?
    var next: Elem?

    constructor (i: uint)
      ensures id == i && !valid && pkt == None && prev == null && next == null
    {
      id, valid, pkt, prev, next := i, false, None, null, null;
    }
  }

  /** Element `i` of `s` points at its neighbours, and at nothing where there is none. */
  ghost predicate Linked(s: seq<Elem>, i: nat)
    requires i < |s|
    reads s[i]
  {
    && s[i].prev == (if i == 0 then null else s[i - 1])
    && s[i].next == (if i + 1 == |s| then null else s[i + 1])
  }

  ghost predicate Chain(s: seq<Elem>)
    reads s
  {
    && (forall i, j | 0 <= i < j < |s| :: s[i] != s[j])
    && (forall i | 0 <= i < |s| :: Linked(s, i))
  }

  ghost function Contents(s: seq<Elem>): (r: seq<Pending>)
    reads s
    ensures |r| == |s| && forall i | 0 <= i < |s| :: r[i] == Pending(s[i].id, s[i].valid, s[i].pkt)
  {
    seq(|s|, i requires 0 <= i < |s| reads s => Pending(s[i].id, s[i].valid, s[i].pkt))
  }

  lemma ContentsWithout(s: seq<Elem>, k: nat)
    requires k < |s|
    ensures Contents(s[..k] + s[k + 1..]) == Contents(s)[..k] + Contents(s)[k + 1..]
  {
  }

  /** The elements around position `k`. */
  lemma Neighbours(s: seq<Elem>, k: nat)
    requires Chain(s) && k < |s|
    ensures s[k].prev == (if k == 0 then null else s[k - 1]) && s[k].next == (if k + 1 == |s| then null else s[k + 1])
    ensures k > 0 ==> s[k - 1] in s && s[k - 1] != s[k]
    ensures k + 1 < |s| ==> s[k + 1] in s && s[k + 1] != s[k]
  {
    assert Linked(s, k);
  }

  class LinkedPending {
    var first: Elem?
    ghost var elems: seq<Elem>

    ghost predicate Valid()
      reads this, elems
    {
      Chain(elems) && first == (if elems == [] then null else elems[0])
    }

    constructor ()
      ensures Valid() && Contents(elems) == []
    {
      first, elems := null, [];
    }

    /** `add_pending_id`. */
    method AddPending(id: uint) returns (e: Elem)
      requires Valid()
      modifies this, elems
      ensures Valid() && fresh(e) && elems == [e] + old(elems)
      ensures Contents(elems) == Add(old(Contents(elems)), id)
    {
      e := new Elem(id);
      ghost var s := elems;
      if first != null {
        first.prev := e;
      }
      e.next := first;
      e.prev := null;
      first := e;
      elems := [e] + s;
      forall i | 0 <= i < |elems| ensures Linked(elems, i) {
        if i > 0 { assert old(Linked(s, i - 1)); }
      }
    }

    /** `get_pending_packet_id`. */
    method Get(id: uint) returns (e: Elem?, ghost k: nat)
      requires Valid()
      ensures e == (if Find(Contents(elems), id) == |elems| then null else elems[Find(Contents(elems), id)])
      ensures k == Find(Contents(elems), id)
    {
      e, k := first, 0;
      while e != null
        invariant k <= |elems| && e == (if k == |elems| then null else elems[k])
        invariant forall j | 0 <= j < k :: Contents(elems)[j].id != id
        decreases |elems| - k
      {
        if e.id == id {
          FindIs(Contents(elems), id, k);
          return;
        }
        assert Linked(elems, k);
        e, k := e.next, k + 1;
      }
    }

    /** The reader thread with an answer: hand it to the request that waits for it. */
    method DeliverAnswer(p: Packet) returns (found: bool)
      requires Valid()
      modifies elems
      ensures Valid() && found == (Find(old(Contents(elems)), p.id) < |elems|)
      ensures Contents(elems) == Deliver(old(Contents(elems)), p)
    {
      var e;
      ghost var k;
      e, k := Get(p.id);
      found := e != null;
      if found { Fill(e, k, p); }
    }

    method Fill(e: Elem, ghost k: nat, p: Packet)
      requires Valid() && k < |elems| && elems[k] == e && e.id == p.id
      modifies elems
      ensures Valid() && Contents(elems) == old(Contents(elems))[k := Pending(p.id, true, Some(p))]
    {
      ghost var s, was := elems, Contents(elems);
      e.pkt := Some(p);
      e.valid := true;
      ChainKept();
      forall i | 0 <= i < |s| ensures Contents(s)[i] == was[k := Pending(p.id, true, Some(p))][i] {
        assert was[i] == old(Pending(s[i].id, s[i].valid, s[i].pkt));
      }
    }

    /** Links that were not written still make a chain. */
    twostate lemma ChainKept()
      requires old(Chain(elems)) && unchanged(this)
      requires forall i | 0 <= i < |elems| :: elems[i].prev == old(elems[i].prev) && elems[i].next == old(elems[i].next)
      ensures Chain(elems)
    {
      forall i | 0 <= i < |elems| ensures Linked(elems, i) {
        assert old(Linked(elems, i));
      }
    }

    /** `delete_pending_id`. */
    method DeletePending(id: uint)
      requires Valid()
      modifies this, elems
      ensures Valid() && forall i | 0 <= i < |elems| :: elems[i] in old(elems)
      ensures Contents(elems) == Delete(old(Contents(elems)), id)
    {
      var e;
      ghost var k;
      e, k := Get(id);
      if e != null { Remove(e, k); }
    }

    method Remove(e: Elem, ghost k: nat)
      requires Valid() && k < |elems| && elems[k] == e
      modifies this, elems
      ensures Valid() && elems == old(elems)[..k] + old(elems)[k + 1..]
      ensures forall i | 0 <= i < |elems| :: elems[i] in old(elems)
      ensures Contents(elems) == old(Contents(elems))[..k] + old(Contents(elems))[k + 1..]
    {
      ghost var s, was := elems, Contents(elems);
      Unlink(e, k);
      assert Contents(s) == was by {
        forall i | 0 <= i < |s| ensures Contents(s)[i] == was[i] {
          assert was[i] == old(Pending(s[i].id, s[i].valid, s[i].pkt));
        }
      }
      ContentsWithout(s, k);
    }

    method Unlink(e: Elem, ghost k: nat)
      requires Valid() && k < |elems| && elems[k] == e
      modifies this, elems
      ensures Valid() && elems == old(elems)[..k] + old(elems)[k + 1..]
      ensures forall i | 0 <= i < |old(elems)| ::
                old(elems)[i].valid == old(elems[i].valid) && old(elems)[i].pkt == old(elems[i].pkt)
    {
      ghost var s := elems;
      Neighbours(s, k);
      if e.next != null {
        e.next.prev := e.prev;
      }
      if e == first {
        first := e.next;
      } else {
        e.prev.next := e.next;
      }
      elems := s[..k] + s[k + 1..];
      forall i | 0 <= i < |elems| ensures Linked(elems, i) {
        var j := if i < k then i else i + 1;
        assert elems[i] == s[j];
        assert old(Linked(s, j));
      }
    }
  }
}
