/** `sdb_queue.c`: a doubly linked list with a pointer to each end. */
module LinkedQueue {
  import opened Mcs
  import opened SdbQueue

  class Elem {
    const pkt: SdbPacket
    var prev: Elem?
    var next: Elem?

    constructor (p: SdbPacket)
      ensures pkt == p && prev == null && next == null
    {
      pkt, prev, next := p, null, null;
    }
  }

  /** Element `i` of `s` points at its neighbours, and at nothing where there is none. */
  ghost predicate Linked(s: seq<Elem>, i: nat)
    requires i < |s|
    reads s[i]
  {
    && s[i].prev == (if i == 0 then null else s[i - 1])
    && s[i].next == (if i + 1 == |s| then null else s[i + 1])
  }

  predicate Distinct(s: seq<Elem>) {
    forall i, j | 0 <= i < j < |s| :: s[i] != s[j]
  }

  ghost predicate Chain(s: seq<Elem>)
    reads s
  {
    Distinct(s) && forall i | 0 <= i < |s| :: Linked(s, i)
  }

  ghost function Packets(s: seq<Elem>): (q: Queue)
    ensures |q| == |s| && forall i | 0 <= i < |s| :: q[i] == s[i].pkt
  {
    seq(|s|, i requires 0 <= i < |s| => s[i].pkt)
  }

  class LinkedQueue {
    var first: Elem?
    var last: Elem?
    ghost var elems: seq<Elem>

    ghost predicate Valid()
      reads this, elems
    {
      && Chain(elems)
      && first == (if elems == [] then null else elems[0])
      && last == (if elems == [] then null else elems[|elems| - 1])
    }

    ghost function Contents(): Queue
      reads this
    {
      Packets(elems)
    }

    /** `sdb_queue_init`. */
    constructor ()
      ensures Valid() && Contents() == [] && elems == []
    {
      first, last, elems := null, null, [];
    }

    /** `sdb_queue_delete`. */
    method Delete(e: Elem, ghost k: nat)
      requires Valid() && k < |elems| && elems[k] == e
      modifies this, elems
      ensures Valid() && elems == old(elems)[..k] + old(elems)[k + 1..]
      ensures Contents() == RemoveAt(old(Contents()), k)
    {
      Unlink(e, k);
      assert forall i | 0 <= i < |elems| :: elems[i] == old(elems)[if i < k then i else i + 1];
    }

    /** The four cases of taking an element out of the chain. */
    method Unlink(e: Elem, ghost k: nat)
      requires Valid() && k < |elems| && elems[k] == e
      modifies this, elems
      ensures Valid() && elems == old(elems)[..k] + old(elems)[k + 1..]
    {
      ghost var s := elems;
      Neighbours(s, k);
      if e.prev != null {
        e.prev.next := e.next;
      } else {
        first := e.next;
      }
      if e.next == null {
        last := e.prev;
      } else {
        e.next.prev := e.prev;
      }
      elems := s[..k] + s[k + 1..];
      forall i | 0 <= i < |elems| ensures Linked(elems, i) {
        var j := if i < k then i else i + 1;
        assert elems[i] == s[j];
        assert old(Linked(s, j));
      }
    }

    /** `sdb_queue_get_nolock`. */
    method Get(id: nat) returns (r: Option<SdbPacket>)
      requires Valid()
      modifies this, elems
      ensures Valid() && forall i | 0 <= i < |elems| :: elems[i] in old(elems)
      ensures r == Take(old(Contents()), id) && Contents() == Without(old(Contents()), id)
    {
      var e := first;
      ghost var k := 0;
      while e != null && e.pkt.pkt.id != id
        invariant 0 <= k <= |elems| && e == (if k == |elems| then null else elems[k])
        invariant forall j | 0 <= j < k :: Contents()[j].pkt.id != id
        decreases |elems| - k
      {
        assert Linked(elems, k);
        e := e.next;
        k := k + 1;
      }
      FindIs(Contents(), id, k);
      if e == null { return None; }
      r := Some(e.pkt);
      Delete(e, k);
    }

    /** `sdb_queue_pop_block`. The wait for a packet does not load `queue_first` again, so on a queue
        that was empty the null loaded before it is dereferenced: the result is `None`. */
    method Pop() returns (p: Option<SdbPacket>)
      requires Valid()
      modifies this, elems
      ensures Valid() && forall i | 0 <= i < |elems| :: elems[i] in old(elems)
      ensures p.None? <==> old(Contents()) == []
      ensures (if p.None? then [] else [p.value]) + Contents() == old(Contents())
    {
      var e := first;
      if e == null { return None; }
      p := Some(e.pkt);
      Delete(e, 0);
    }

    /** The first half of a push: the element goes to the end. */
    method Append(e: Elem)
      requires Valid() && e !in elems && e.prev == null && e.next == null
      modifies this, elems, e
      ensures Valid() && elems == old(elems) + [e]
    {
      ghost var s := elems;
      if first == null {
        first := e;
      } else {
        e.prev := last;
        last.next := e;
      }
      last := e;
      elems := s + [e];
      forall i | 0 <= i < |elems| ensures Linked(elems, i) {
        if i < |s| { assert old(Linked(s, i)); }
      }
    }

    /** `sdb_queue_push_nolock`: append, then pass every packet of lower priority. */
    method Push(p: SdbPacket)
      requires Valid()
      modifies this, elems
      ensures Valid() && forall i | 0 <= i < |elems| :: elems[i] in old(elems) || fresh(elems[i])
      ensures Contents() == Insert(old(Contents()), p)
    {
      ghost var base := elems;
      var e := new Elem(p);
      Append(e);
      Promote(e, base);
    }

    /** The second half of a push: swap backwards while the one before is less urgent. */
    method Promote(e: Elem, ghost base: seq<Elem>)
      requires Valid() && elems == base + [e]
      modifies this, base, e
      ensures Valid() && forall i | 0 <= i < |elems| :: elems[i] in base + [e]
      ensures Contents() == Insert(Packets(base), e.pkt)
    {
      ghost var k := PassLower(e, base);
      InsertIs(Packets(base), e.pkt, k);
      PacketsInsert(base, e, k);
      InsertedIn(base, e, k);
    }

    /** A push under way: `e` stands before the elements of `base` from `k` on. */
    ghost predicate Passing(e: Elem, base: seq<Elem>, k: nat)
      reads this, elems, e
    {
      && Valid() && k <= |base| && elems == base[..k] + [e] + base[k..]
      && e.prev == (if k == 0 then null else base[k - 1])
    }

    /** `lower` says whether there is a less urgent packet before `e`; none behind it is as urgent. */
    ghost predicate Rising(e: Elem, base: seq<Elem>, k: nat, lower: bool)
      reads this, elems, e
    {
      && Passing(e, base, k) && PassedLower(Packets(base), e.pkt, k)
      && lower == (k > 0 && Packets(base)[k - 1].priority < e.pkt.priority)
    }

    method PassLower(e: Elem, ghost base: seq<Elem>) returns (ghost k: nat)
      requires Valid() && elems == base + [e]
      modifies this, base, e
      ensures Rising(e, base, k, false)
    {
      k := |base|;
      StartPassing(e, base);
      var lower := LowerBefore(e, base, k);
      while lower
        invariant Rising(e, base, k, lower)
        decreases k
      {
        k, lower := PassOne(e, base, k);
      }
    }

    method PassOne(e: Elem, ghost base: seq<Elem>, ghost k: nat) returns (ghost k1: nat, lower: bool)
      requires Rising(e, base, k, true)
      modifies this, base, e
      ensures k1 < k && Rising(e, base, k1, lower)
    {
      StepBack(e, base, k);
      k1 := k - 1;
      lower := LowerBefore(e, base, k1);
    }

    /** The condition of the loop. */
    method LowerBefore(e: Elem, ghost base: seq<Elem>, ghost k: nat) returns (lower: bool)
      requires Passing(e, base, k)
      ensures lower == (k > 0 && Packets(base)[k - 1].priority < e.pkt.priority)
    {
      lower := e.prev != null && e.pkt.priority > e.prev.pkt.priority;
    }

    lemma StartPassing(e: Elem, base: seq<Elem>)
      requires Valid() && elems == base + [e]
      ensures Passing(e, base, |base|)
    {
      assert base[..|base|] == base && base[|base|..] == [];
      Neighbours(elems, |base|);
    }

    method StepBack(e: Elem, ghost base: seq<Elem>, ghost k: nat)
      requires Passing(e, base, k) && k > 0
      modifies this, base, e
      ensures Passing(e, base, k - 1)
    {
      SwapShape(base, e, k);
      InsertedIn(base, e, k);
      SwapBack(e, k);
      Neighbours(elems, k - 1);
    }

    /** The element at `k` changes places with the one before it. */
    method SwapBack(e: Elem, ghost k: nat)
      requires Valid() && 0 < k < |elems| && elems[k] == e
      modifies this, elems
      ensures Valid() && elems == old(elems)[..k - 1] + [e, old(elems)[k - 1]] + old(elems)[k + 1..]
    {
      ghost var s := elems;
      Neighbours(s, k);
      Neighbours(s, k - 1);
      var tmp := e.prev;
      SwapLinks(e, tmp);
      forall i | 0 <= i < |s| && (i + 2 < k || k + 1 < i) ensures Linked(s, i) {
        assert old(Linked(s, i));
      }
      assert k > 1 ==> old(Linked(s, k - 2));
      assert k + 1 < |s| ==> old(Linked(s, k + 1));
      ChainSwapped(s, k);
      elems := s[..k - 1] + [e, tmp] + s[k + 1..];
    }

    /** The stores of one swap. */
    method SwapLinks(e: Elem, tmp: Elem)
      requires e.prev == tmp && tmp.next == e && e != tmp
      requires tmp.prev != e && tmp.prev != tmp && e.next != e && e.next != tmp
      requires tmp.prev != null ==> tmp.prev != e.next
      modifies this`first, this`last, e, tmp, tmp.prev, e.next
      ensures e.prev == old(tmp.prev) && e.next == tmp && tmp.prev == e && tmp.next == old(e.next)
      ensures first == (if e.prev == null then e else old(first))
      ensures last == (if tmp.next == null then tmp else old(last))
      ensures e.prev != null ==> e.prev.next == e && e.prev.prev == old(tmp.prev.prev)
      ensures tmp.next != null ==> tmp.next.prev == tmp && tmp.next.next == old(e.next.next)
    {
      e.prev := tmp.prev;
      if e.prev == null {
        first := e;
      } else {
        e.prev.next := e;
      }
      tmp.next := e.next;
      if tmp.next == null {
        last := tmp;
      } else {
        tmp.next.prev := tmp;
      }
      tmp.prev := e;
      e.next := tmp;
    }
  }

  /** Everything from `k` on is less urgent than `p`. */
  predicate PassedLower(q: Queue, p: SdbPacket, k: nat) {
    k <= |q| && forall j | k <= j < |q| :: q[j].priority < p.priority
  }

  /** The elements `k - 1` and `k` have changed places: far from them nothing is new, and their own
      links and those of their neighbours are set. */
  lemma ChainSwapped(s: seq<Elem>, k: nat)
    requires 0 < k < |s| && Distinct(s)
    requires forall i | 0 <= i < |s| && (i + 2 < k || k + 1 < i) :: Linked(s, i)
    requires s[k].prev == (if k == 1 then null else s[k - 2]) && s[k].next == s[k - 1]
    requires s[k - 1].prev == s[k] && s[k - 1].next == (if k + 1 == |s| then null else s[k + 1])
    requires k > 1 ==> s[k - 2].prev == (if k == 2 then null else s[k - 3]) && s[k - 2].next == s[k]
    requires k + 1 < |s| ==> s[k + 1].prev == s[k - 1] && s[k + 1].next == (if k + 2 == |s| then null else s[k + 2])
    ensures Chain(s[..k - 1] + [s[k], s[k - 1]] + s[k + 1..])
  {
    var t := s[..k - 1] + [s[k], s[k - 1]] + s[k + 1..];
    forall i | 0 <= i < |t| ensures Linked(t, i) {
      if i + 2 < k || k + 1 < i { assert Linked(s, i); }
    }
  }

  /** The elements around position `k`. */
  lemma Neighbours(s: seq<Elem>, k: nat)
    requires Chain(s) && k < |s|
    ensures s[k].prev == if k == 0 then null else s[k - 1]
    ensures s[k].next == if k + 1 == |s| then null else s[k + 1]
    ensures k > 0 ==> s[k - 1] in s && s[k - 1].next == s[k] && s[k - 1] != s[k]
    ensures k + 1 < |s| ==> s[k + 1] in s && s[k + 1].prev == s[k] && s[k + 1] != s[k]
  {
    assert Linked(s, k);
    assert k > 0 ==> Linked(s, k - 1);
    assert k + 1 < |s| ==> Linked(s, k + 1);
  }

  lemma InsertIs(q: Queue, p: SdbPacket, k: nat)
    requires PassedLower(q, p, k) && (k > 0 ==> p.priority <= q[k - 1].priority)
    ensures Insert(q, p) == q[..k] + [p] + q[k..]
    decreases |q|
  {
    if k < |q| {
      var init := q[..|q| - 1];
      InsertIs(init, p, k);
      assert init[..k] == q[..k] && init[k..] + [q[|q| - 1]] == q[k..];
    }
  }

  lemma SwapShape(base: seq<Elem>, e: Elem, k: nat)
    requires 0 < k <= |base|
    ensures var s := base[..k] + [e] + base[k..];
            s[..k - 1] + [e, s[k - 1]] + s[k + 1..] == base[..k - 1] + [e] + base[k - 1..]
  {
  }

  lemma InsertedIn(base: seq<Elem>, e: Elem, k: nat)
    requires k <= |base|
    ensures var s := base[..k] + [e] + base[k..];
            forall i | 0 <= i < |s| :: s[i] in base + [e]
  {
  }

  lemma PacketsInsert(base: seq<Elem>, e: Elem, k: nat)
    requires k <= |base|
    ensures Packets(base[..k] + [e] + base[k..]) == Packets(base)[..k] + [e.pkt] + Packets(base)[k..]
  {
  }

  lemma FindIs(q: Queue, id: nat, k: nat)
    requires k <= |q| && (k < |q| ==> q[k].pkt.id == id)
    requires forall j | 0 <= j < k :: q[j].pkt.id != id
    ensures Find(q, id) == k
  {
  }
}
