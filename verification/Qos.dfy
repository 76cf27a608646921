/** `sdb_qos.c`: the events of all modules in ten singly linked lists, hashed by module id. */
module Qos {
  import opened CText
  import opened Mcs

  const TABLE_MAX := 10

  datatype Kind = In | Out | Ready | Scrap

  /** What is kept of a packet and when it was seen. */
  datatype Event = Event(kind: Kind, id: uint, mcsType: byte, cmd: ushort, dest: Option<seq<byte>>, time: nat)

  datatype Entry = Entry(agent: nat, event: Event)

  function TableHash(agent: nat): (h: nat)
    ensures h < TABLE_MAX
  {
    agent % TABLE_MAX
  }

  // ----- lists as sequences

  /** The events of one agent, in order. */
  function EventsOf(s: seq<Entry>, agent: nat): seq<Event> {
    if s == [] then []
    else EventsOf(s[..|s| - 1], agent) + (if s[|s| - 1].agent == agent then [s[|s| - 1].event] else [])
  }

  /** The entries of all the others, in order. */
  function Others(s: seq<Entry>, agent: nat): seq<Entry> {
    if s == [] then []
    else Others(s[..|s| - 1], agent) + (if s[|s| - 1].agent == agent then [] else [s[|s| - 1]])
  }

  lemma EventsOfSnoc(s: seq<Entry>, e: Entry, agent: nat)
    ensures EventsOf(s + [e], agent) == EventsOf(s, agent) + (if e.agent == agent then [e.event] else [])
    ensures Others(s + [e], agent) == Others(s, agent) + (if e.agent == agent then [] else [e])
  {
    assert (s + [e])[..|s|] == s;
  }

  /** Taking one agent's entries out leaves none of its own and all of everyone else's. */
  lemma {:induction false} OthersKeep(s: seq<Entry>, agent: nat, b: nat)
    ensures EventsOf(Others(s, agent), b) == if b == agent then [] else EventsOf(s, b)
  {
    if s != [] {
      var init, e := s[..|s| - 1], s[|s| - 1];
      OthersKeep(init, agent, b);
      EventsOfSnoc(Others(init, agent), e, b);
      assert Others(init, agent) + [] == Others(init, agent);
    }
  }

  // ----- what one module's log goes through

  /** What the threads do: switch the recording of a module on or off, see an event of it, dump
      its log. */
  datatype Act = On(agent: nat) | Off(agent: nat) | Seen(agent: nat, event: Event) | DumpLog(agent: nat)

  /** Of one module: whether it is recorded, its log, and all that was ever dumped of it. */
  datatype Ledger = Ledger(on: bool, log: seq<Event>, dumped: seq<Event>)

  function Next(l: Ledger, a: nat, act: Act): Ledger {
    if act.agent != a then l
    else
      match act
      case On(_) => l.(on := true)
      case Off(_) => l.(on := false)
      case Seen(_, e) => if l.on then l.(log := l.log + [e]) else l
      case DumpLog(_) => if l.on then l.(log := [], dumped := l.dumped + l.log) else l
  }

  function Course(a: nat, on: bool, acts: seq<Act>): Ledger {
    if acts == [] then Ledger(on, [], []) else Next(Course(a, on, acts[..|acts| - 1]), a, acts[|acts| - 1])
  }

  /** The last switch before act `i` was to on; before any switch it is as at the start. */
  predicate Recorded(a: nat, on: bool, acts: seq<Act>, i: nat)
    requires i <= |acts|
  {
    if i == 0 then on
    else if acts[i - 1] == On(a) then true
    else if acts[i - 1] == Off(a) then false
    else Recorded(a, on, acts, i - 1)
  }

  /** The events of a module that were seen while it was recorded. */
  function Worth(a: nat, on: bool, acts: seq<Act>, n: nat): seq<Event>
    requires n <= |acts|
  {
    if n == 0 then []
    else
      Worth(a, on, acts, n - 1)
      + if acts[n - 1].Seen? && acts[n - 1].agent == a && Recorded(a, on, acts, n - 1) then [acts[n - 1].event] else []
  }

  /** Nothing is lost, kept twice or put out of order: over every interleaving, what was dumped and
      what is still in the log are together the events seen while the module was recorded. */
  lemma {:induction false} NothingLost(a: nat, on: bool, acts: seq<Act>)
    ensures var l := Course(a, on, acts);
            l.dumped + l.log == Worth(a, on, acts, |acts|) && l.on == Recorded(a, on, acts, |acts|)
  {
    if acts != [] {
      var n := |acts| - 1;
      var init := acts[..n];
      NothingLost(a, on, init);
      SamePrefix(a, on, acts, init, n);
      var l := Course(a, on, init);
      match acts[n]
      case Seen(_, e) => assert l.dumped + (l.log + [e]) == l.dumped + l.log + [e];
      case DumpLog(_) => assert l.dumped + l.log + [] == l.dumped + l.log;
      case _ =>
    }
  }

  lemma {:induction false} SamePrefix(a: nat, on: bool, acts: seq<Act>, init: seq<Act>, n: nat)
    requires n <= |init| <= |acts| && init == acts[..|init|]
    ensures Recorded(a, on, acts, n) == Recorded(a, on, init, n) && Worth(a, on, acts, n) == Worth(a, on, init, n)
  {
    if n > 0 { SamePrefix(a, on, acts, init, n - 1); }
  }

  // ----- linked lists

  class Node {
    const entry: Entry
    var next: Node?

    constructor (e: Entry)
      ensures entry == e && next == null
    {
      entry, next := e, null;
    }
  }

  /** Each node leads to the following one and the last to `end`. */
  ghost predicate Leads(s: seq<Node>, end: Node?)
    reads s
  {
    && (forall i, j | 0 <= i < j < |s| :: s[i] != s[j])
    && (forall i {:trigger s[i].next} | 0 <= i < |s| :: s[i].next == if i + 1 == |s| then end else s[i + 1])
  }

  ghost function Entries(s: seq<Node>): (r: seq<Entry>)
    ensures |r| == |s| && forall i | 0 <= i < |s| :: r[i] == s[i].entry
  {
    seq(|s|, i requires 0 <= i < |s| => s[i].entry)
  }

  /** What one more node adds to the output or to what is kept. */
  lemma Visited(all: seq<Entry>, i: nat, agent: nat, kept: seq<Node>, event: Node)
    requires i < |all| && all[i] == event.entry && Entries(kept) == Others(all[..i], agent)
    ensures if event.entry.agent == agent then
              && EventsOf(all[..i + 1], agent) == EventsOf(all[..i], agent) + [event.entry.event]
              && Entries(kept) == Others(all[..i + 1], agent)
            else
              && EventsOf(all[..i + 1], agent) == EventsOf(all[..i], agent)
              && Entries(kept + [event]) == Others(all[..i + 1], agent)
  {
    assert all[..i + 1] == all[..i] + [all[i]];
    EventsOfSnoc(all[..i], all[i], agent);
    assert Entries(kept + [event]) == Entries(kept) + [event.entry];
    assert Entries(kept) + [] == Entries(kept) && EventsOf(all[..i], agent) + [] == EventsOf(all[..i], agent);
  }

  /** `SDBQOSStoreEventIndex`. */
  class Bucket {
    var first: Node?
    var last: Node?
    ghost var nodes: seq<Node>

    ghost predicate Valid()
      reads this, nodes
    {
      && Leads(nodes, null)
      && first == (if nodes == [] then null else nodes[0])
      && last == (if nodes == [] then null else nodes[|nodes| - 1])
    }

    ghost function Contents(): seq<Entry>
      reads this
    {
      Entries(nodes)
    }

    constructor ()
      ensures Valid() && nodes == []
    {
      first, last, nodes := null, null, [];
    }

    /** The end of `register_event`. */
    method Append(e: Entry)
      requires Valid()
      modifies this, nodes
      ensures Valid() && Contents() == old(Contents()) + [e]
      ensures forall i | 0 <= i < |nodes| :: nodes[i] in old(nodes) || fresh(nodes[i])
    {
      var storeEvent := new Node(e);
      ghost var s := nodes;
      if last != null {
        last.next := storeEvent;
        last := storeEvent;
      } else {
        first := storeEvent;
        last := storeEvent;
      }
      nodes := s + [storeEvent];
      forall i | 0 <= i < |s| ensures s[i].next == if i + 1 == |s| then storeEvent else s[i + 1] {
        assert old(s[i].next) == if i + 1 == |s| then null else s[i + 1];
      }
    }

    /** A pass over the nodes `s` that has reached position `i` and kept `kept`. */
    ghost predicate Scanning(s: seq<Node>, i: nat, kept: seq<Node>, event: Node?, oldEvent: Node?)
      reads this, s, kept
    {
      && nodes == s && i <= |s| && event == (if i == |s| then null else s[i])
      && (forall j, k | 0 <= j < k < |s| :: s[j] != s[k])
      && (forall j {:trigger s[j].next} | i <= j < |s| :: s[j].next == if j + 1 == |s| then null else s[j + 1])
      && (forall j | 0 <= j < |kept| :: kept[j] in s[..i] && kept[j] in s)
      && Leads(kept, event)
      && first == (if kept == [] then event else kept[0])
      && oldEvent == (if kept == [] then null else kept[|kept| - 1])
    }

    /** The loop of `sdb_qos_dump_module`: one pass that unlinks the agent's nodes and
        emits their events. */
    method Extract(agent: nat) returns (output: seq<Event>)
      requires Valid()
      modifies this, nodes
      ensures Valid() && forall i | 0 <= i < |nodes| :: nodes[i] in old(nodes)
      ensures output == EventsOf(old(Contents()), agent)
      ensures Contents() == Others(old(Contents()), agent)
    {
      var oldEvent;
      ghost var kept;
      output, oldEvent, kept := Scan(agent);
      Adopt(oldEvent, kept);
    }

    method Adopt(oldEvent: Node?, ghost kept: seq<Node>)
      requires Leads(kept, null) && first == (if kept == [] then null else kept[0])
      requires oldEvent == (if kept == [] then null else kept[|kept| - 1])
      modifies this`last, this`nodes
      ensures Valid() && nodes == kept
    {
      last := oldEvent;
      nodes := kept;
    }

    method Scan(agent: nat) returns (output: seq<Event>, oldEvent: Node?, ghost kept: seq<Node>)
      requires Valid()
      modifies this`first, nodes
      ensures Leads(kept, null) && forall i | 0 <= i < |kept| :: kept[i] in nodes
      ensures first == (if kept == [] then null else kept[0])
      ensures oldEvent == (if kept == [] then null else kept[|kept| - 1])
      ensures output == EventsOf(Contents(), agent) && Entries(kept) == Others(Contents(), agent)
    {
      ghost var s, all, i := nodes, Contents(), 0;
      var event := first;
      kept, oldEvent, output := [], null, [];
      while event != null
        invariant 0 <= i && Scanning(s, i, kept, event, oldEvent)
        invariant output == EventsOf(all[..i], agent) && Entries(kept) == Others(all[..i], agent)
        decreases |s| - i
      {
        Visited(all, i, agent, kept, event);
        if event.entry.agent == agent { output := output + [event.entry.event]; }
        event, oldEvent, kept := Visit(agent, s, i, kept, event, oldEvent);
        i := i + 1;
      }
      assert all[..i] == all;
    }

    /** One turn of the loop, apart from the output. */
    method Visit(agent: nat, ghost s: seq<Node>, ghost i: nat, ghost kept: seq<Node>, event: Node, oldEvent: Node?)
      returns (event1: Node?, oldEvent1: Node?, ghost kept1: seq<Node>)
      requires Scanning(s, i, kept, event, oldEvent)
      modifies this`first, oldEvent
      ensures Scanning(s, i + 1, kept1, event1, oldEvent1)
      ensures kept1 == if event.entry.agent == agent then kept else kept + [event]
    {
      if event.entry.agent == agent {
        event1 := Unlink(s, i, kept, event, oldEvent);
        oldEvent1, kept1 := oldEvent, kept;
      } else {
        Keep(s, i, kept, event, oldEvent);
        event1, oldEvent1, kept1 := event.next, event, kept + [event];
      }
    }

    /** A node of the agent leaves the list. */
    method Unlink(ghost s: seq<Node>, ghost i: nat, ghost kept: seq<Node>, curEvent: Node, oldEvent: Node?)
      returns (event: Node?)
      requires Scanning(s, i, kept, curEvent, oldEvent)
      modifies this`first, oldEvent
      ensures Scanning(s, i + 1, kept, event, oldEvent)
    {
      event := curEvent.next;
      ghost var last := |kept| - 1;
      assert s[i].next == if i + 1 == |s| then null else s[i + 1];
      if oldEvent == null {
        first := event;
      } else {
        oldEvent.next := event;
      }
      forall j | i + 1 <= j < |s| ensures s[j].next == if j + 1 == |s| then null else s[j + 1] {
        assert s[j] !in s[..i];
        assert old(s[j].next) == if j + 1 == |s| then null else s[j + 1];
      }
      forall j | 0 <= j < |kept| ensures kept[j].next == if j + 1 == |kept| then event else kept[j + 1] {
        assert old(kept[j].next) == if j + 1 == |kept| then curEvent else kept[j + 1];
      }
    }

    lemma Keep(s: seq<Node>, i: nat, kept: seq<Node>, event: Node, oldEvent: Node?)
      requires Scanning(s, i, kept, event, oldEvent)
      ensures Scanning(s, i + 1, kept + [event], event.next, event)
    {
      assert s[i] !in s[..i];
      assert s[..i + 1] == s[..i] + [s[i]];
      assert s[i].next == if i + 1 == |s| then null else s[i + 1];
      var k := kept + [event];
      forall j | 0 <= j < |k| ensures k[j].next == if j + 1 == |k| then event.next else k[j + 1] {
        if j < |kept| {
          assert kept[j].next == if j + 1 == |kept| then event else kept[j + 1];
        }
      }
    }
  }

  /** The table and the modules that have events recorded (`qos_enabled`). */
  class QosTable {
    const table: seq<Bucket>
    var enabled: set<nat>

    ghost predicate Valid()
      reads this, table, set i, k | 0 <= i < |table| && 0 <= k < |table[i].nodes| :: table[i].nodes[k]
    {
      && |table| == TABLE_MAX
      && (forall i, j | 0 <= i < TABLE_MAX && 0 <= j < TABLE_MAX && i != j :: Apart(table[i], table[j]))
      && (forall i | 0 <= i < TABLE_MAX :: table[i].Valid())
    }

    /** The event log of one module. */
    ghost function LogOf(agent: nat): seq<Event>
      requires |table| == TABLE_MAX
      reads table
    {
      EventsOf(table[TableHash(agent)].Contents(), agent)
    }

    /** What the table says of one module, whose dumps so far were `dumped`. */
    ghost function LedgerOf(agent: nat, dumped: seq<Event>): Ledger
      requires |table| == TABLE_MAX
      reads this, table
    {
      Ledger(agent in enabled, LogOf(agent), dumped)
    }

    /** Work on one bucket leaves the table in order, and the logs hashed elsewhere alone. */
    twostate lemma OthersStay(h: nat)
      requires old(Valid()) && h < TABLE_MAX && table[h].Valid()
      requires forall k | 0 <= k < |table[h].nodes| ::
                 table[h].nodes[k] in old(table[h].nodes) || fresh(table[h].nodes[k])
      requires forall j | 0 <= j < TABLE_MAX && j != h ::
                 unchanged(table[j]) && forall k | 0 <= k < |table[j].nodes| :: unchanged(table[j].nodes[k])
      ensures Valid() && forall a: nat | TableHash(a) != h :: LogOf(a) == old(LogOf(a))
    {
      forall j | 0 <= j < TABLE_MAX && j != h ensures table[j].Valid() {
        StaysValid(table[j]);
      }
      forall i, j | 0 <= i < TABLE_MAX && 0 <= j < TABLE_MAX && i != j ensures Apart(table[i], table[j]) {
        assert old(Apart(table[i], table[j]));
      }
    }

    /** `sdb_qos_init`, with recording on for the modules in `on`. */
    constructor (on: set<nat>)
      ensures Valid() && enabled == on && forall a: nat :: LogOf(a) == []
    {
      var buckets: seq<Bucket> := [];
      while |buckets| < TABLE_MAX
        invariant |buckets| <= TABLE_MAX
        invariant forall i | 0 <= i < |buckets| :: fresh(buckets[i]) && buckets[i].Valid() && buckets[i].nodes == []
        invariant forall i, j | 0 <= i < j < |buckets| :: buckets[i] != buckets[j]
      {
        var b := new Bucket();
        buckets := buckets + [b];
      }
      table, enabled := buckets, on;
    }

    /** `sdb_qos_start`. */
    method Start(agent: nat)
      requires Valid()
      modifies this`enabled
      ensures Valid() && forall a: nat, d: seq<Event> :: LedgerOf(a, d) == Next(old(LedgerOf(a, d)), a, On(agent))
    {
      enabled := enabled + {agent};
    }

    /** `sdb_qos_stop`. */
    method Stop(agent: nat)
      requires Valid()
      modifies this`enabled
      ensures Valid() && forall a: nat, d: seq<Event> :: LedgerOf(a, d) == Next(old(LedgerOf(a, d)), a, Off(agent))
    {
      enabled := enabled - {agent};
    }

    /** `register_event`: while recording is on, the event goes to the end of the module's
        log, and of no other. */
    method Register(agent: nat, e: Event)
      requires Valid()
      modifies table[TableHash(agent)], table[TableHash(agent)].nodes
      ensures Valid()
      ensures forall a: nat, d: seq<Event> :: LedgerOf(a, d) == Next(old(LedgerOf(a, d)), a, Seen(agent, e))
    {
      if agent in enabled {
        ghost var h := TableHash(agent);
        ghost var was := table[h].Contents();
        table[TableHash(agent)].Append(Entry(agent, e));
        forall j | 0 <= j < TABLE_MAX && j != h ensures unchanged(table[j])
          ensures forall k | 0 <= k < |table[j].nodes| :: unchanged(table[j].nodes[k])
        {
          assert old(Apart(table[h], table[j]));
        }
        OthersStay(h);
        forall a: nat ensures LogOf(a) == if a == agent then old(LogOf(a)) + [e] else old(LogOf(a)) {
          if TableHash(a) == h { EventsOfSnoc(was, Entry(agent, e), a); }
        }
      }
    }

    /** `sdb_qos_dump_module`: the module's log, which is then empty; every other log stays
        as it is. With recording off there is nothing to dump. */
    method Dump(agent: nat) returns (r: Option<seq<Event>>)
      requires Valid()
      modifies table[TableHash(agent)], table[TableHash(agent)].nodes
      ensures Valid()
      ensures r == if agent in enabled then Some(old(LogOf(agent))) else None
      ensures forall a: nat, d: seq<Event> ::
                LedgerOf(a, if a == agent && r.Some? then d + r.value else d) == Next(old(LedgerOf(a, d)), a, DumpLog(agent))
    {
      if agent !in enabled { return None; }
      ghost var h := TableHash(agent);
      ghost var was := table[h].Contents();
      var output := table[TableHash(agent)].Extract(agent);
      forall j | 0 <= j < TABLE_MAX && j != h ensures unchanged(table[j])
        ensures forall k | 0 <= k < |table[j].nodes| :: unchanged(table[j].nodes[k])
      {
        assert old(Apart(table[h], table[j]));
      }
      OthersStay(h);
      forall a: nat ensures LogOf(a) == if a == agent then [] else old(LogOf(a)) {
        if TableHash(a) == h { OthersKeep(was, agent, a); }
      }
      r := Some(output);
    }
  }

  /** A bucket keeps its list when neither it nor a node of it is written. */
  twostate lemma StaysValid(b: Bucket)
    requires old(b.Valid()) && unchanged(b) && forall k | 0 <= k < |b.nodes| :: unchanged(b.nodes[k])
    ensures b.Valid()
  {
    var s := b.nodes;
    forall i | 0 <= i < |s| ensures s[i].next == if i + 1 == |s| then null else s[i + 1] {
      assert old(s[i].next) == if i + 1 == |s| then null else s[i + 1];
    }
  }

  /** Two buckets share no node. */
  ghost predicate Apart(a: Bucket, b: Bucket)
    reads a, b
  {
    a != b && forall i, j | 0 <= i < |a.nodes| && 0 <= j < |b.nodes| :: a.nodes[i] != b.nodes[j]
  }
}
