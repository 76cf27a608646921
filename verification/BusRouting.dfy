/** Routing over every run: whatever request is on its way or has arrived, it is where the
    table sends it and both ends are allowed to talk. */
module BusRouting {
  import opened CText
  import opened Mcs
  import Q = SdbQueue
  import opened Mailbox
  import opened Bus
  import opened BusMailbox

  /** A packet in a queue: a request made by this module, or one routed to it. Payload
      commands stay with their sender. */
  predicate RecordOk(c: Config, dir: seq<Agent>, j: nat, r: Q.SdbPacket)
    requires ValidConfig(c)
  {
    || (r.idProcess == j && r.pkt.kind == PAYLOAD)
    || exists d | 0 <= d < |dir| :: Permitted(c, dir, r.idProcess, r.pkt, d) && (d == j || r.idProcess == j)
  }

  predicate ModOk(c: Config, dir: seq<Agent>, j: nat, m: Mod)
    requires ValidConfig(c)
  {
    && (m.thread.Writing? && !IsAnswer(m.thread.pkt) ==> Permitted(c, dir, j, m.thread.pkt, m.thread.to))
    && (m.mailbox.Some? ==>
          !IsAnswer(Waiting(m).pkt) ==> Permitted(c, dir, Waiting(m).from, Waiting(m).pkt, j))
    && forall k | 0 <= k < |m.queue| :: RecordOk(c, dir, j, m.queue[k])
  }

  predicate RoutesOk(c: Config, s: State)
    requires ValidConfig(c)
  {
    |s.dir| == |s.mods| && forall j | 0 <= j < |s.mods| :: ModOk(c, s.dir, j, s.mods[j])
  }

  // ----- registration does not redirect anything

  lemma {:induction false} FirstNamedStays(dir: seq<Agent>, a: Agent, name: seq<byte>)
    requires FirstNamed(dir, name) < |dir|
    ensures FirstNamed(dir + [a], name) == FirstNamed(dir, name)
  {
    if dir[0].name != name {
      assert (dir + [a])[1..] == dir[1..] + [a];
      FirstNamedStays(dir[1..], a, name);
    }
  }

  lemma PermittedStays(c: Config, dir: seq<Agent>, a: Agent, from: nat, p: Packet, to: nat)
    requires ValidConfig(c) && Permitted(c, dir, from, p, to)
    ensures Permitted(c, dir + [a], from, p, to)
  {
    FirstNamedStays(dir, a, DestinationName(c.table.messages[p.cmd], p));
  }

  lemma ModStays(c: Config, dir: seq<Agent>, a: Agent, j: nat, m: Mod)
    requires ValidConfig(c) && ModOk(c, dir, j, m)
    ensures ModOk(c, dir + [a], j, m)
  {
    if m.thread.Writing? && !IsAnswer(m.thread.pkt) { PermittedStays(c, dir, a, j, m.thread.pkt, m.thread.to); }
    if m.mailbox.Some? {
      var Mail(from, p) := ReadImage(m.mailbox.value);
      if !IsAnswer(p) { PermittedStays(c, dir, a, from, p, j); }
    }
    forall k | 0 <= k < |m.queue| ensures RecordOk(c, dir + [a], j, m.queue[k]) {
      var r := m.queue[k];
      if !(r.idProcess == j && r.pkt.kind == PAYLOAD) {
        var d :| 0 <= d < |dir| && Permitted(c, dir, r.idProcess, r.pkt, d) && (d == j || r.idProcess == j);
        PermittedStays(c, dir, a, r.idProcess, r.pkt, d);
      }
    }
  }

  // ----- queues

  lemma InsertedOk(c: Config, dir: seq<Agent>, j: nat, q: Q.Queue, r: Q.SdbPacket)
    requires ValidConfig(c) && RecordOk(c, dir, j, r) && forall k | 0 <= k < |q| :: RecordOk(c, dir, j, q[k])
    ensures forall k | 0 <= k < |Q.Insert(q, r)| :: RecordOk(c, dir, j, Q.Insert(q, r)[k])
  {
    var i := Q.InsertPosition(q, r);
  }

  // ----- steps

  lemma RequestRoutes(c: Config, s: State, m: nat, p: Packet)
    requires ValidConfig(c) && Enabled(c, s, RequestIn(m, p)) && RoutesOk(c, s)
    ensures RoutesOk(c, StepRequest(c, s, m, p))
  {
    var mod := s.mods[m];
    assert ModOk(c, s.dir, m, mod);
    if p.kind == MESSAGE {
      match RouteMessage(c, s.dir, m, p)
      case To(d) =>
        assert Permitted(c, s.dir, m, p, d);
        InsertedOk(c, s.dir, m, mod.queue, Record(m, p));
      case _ =>
    } else if p.kind == PAYLOAD {
      InsertedOk(c, s.dir, m, mod.queue, Record(m, p));
    }
  }

  lemma ReadRoutes(c: Config, s: State, m: nat)
    requires ValidConfig(c) && Enabled(c, s, ReadMail(m)) && RoutesOk(c, s)
    ensures RoutesOk(c, StepRead(s, m))
  {
    ReadModRoutes(c, s.dir, m, s.mods[m]);
    var s' := StepRead(s, m);
    forall j | 0 <= j < |s'.mods| ensures ModOk(c, s'.dir, j, s'.mods[j]) {
      assert ModOk(c, s.dir, j, s.mods[j]);
    }
  }

  lemma ReadModRoutes(c: Config, dir: seq<Agent>, m: nat, mod: Mod)
    requires ValidConfig(c) && ModOk(c, dir, m, mod) && m < |dir| && mod.mailbox.Some?
    ensures ModOk(c, dir, m, ReadMod(mod))
  {
    var Mail(from, p) := ReadImage(mod.mailbox.value);
    if IsAnswer(p) {
      WithoutOk(c, dir, m, mod.queue, p.id);
    } else {
      InsertedOk(c, dir, m, mod.queue, Record(from, p));
    }
  }

  lemma WithoutOk(c: Config, dir: seq<Agent>, j: nat, q: Q.Queue, id: uint)
    requires ValidConfig(c) && forall k | 0 <= k < |q| :: RecordOk(c, dir, j, q[k])
    ensures forall k | 0 <= k < |Q.Without(q, id)| :: RecordOk(c, dir, j, Q.Without(q, id)[k])
  {
  }

  lemma AnswerRoutes(c: Config, s: State, m: nat, p: Packet)
    requires ValidConfig(c) && Enabled(c, s, AnswerIn(m, p)) && RoutesOk(c, s)
    ensures RoutesOk(c, StepAnswer(c, s, m, p))
  {
    WithoutOk(c, s.dir, m, s.mods[m].queue, p.id);
    var s' := StepAnswer(c, s, m, p);
    forall j | 0 <= j < |s'.mods| ensures ModOk(c, s'.dir, j, s'.mods[j]) {
      assert ModOk(c, s.dir, j, s.mods[j]);
    }
  }

  /** The name ends at the same place wherever it is read. */
  lemma ArrivedPermitted(c: Config, dir: seq<Agent>, from: nat, p: Packet, to: nat)
    requires ValidConfig(c)
    ensures Permitted(c, dir, from, Arrived(p), to) <==> Permitted(c, dir, from, p, to)
  {
    if p.cmd < |c.table.messages| && c.table.messages[p.cmd].destination.Some? {
      var row := c.table.messages[p.cmd];
      assert DestinationName(row, Arrived(p)) == DestinationName(row, p);
    }
  }

  lemma WriteRoutes(c: Config, s: State, m: nat)
    requires ValidConfig(c) && Enabled(c, s, Write(m)) && RoutesOk(c, s) && BoxesOk(c, s)
    ensures RoutesOk(c, StepWrite(c, s, m))
  {
    var Writing(p, to) := s.mods[m].thread;
    WriteShape(c, s, m);
    assert ModOk(c, s.dir, m, s.mods[m]);
    ArrivedPermitted(c, s.dir, m, p, to);
    var s' := StepWrite(c, s, m);
    forall j | 0 <= j < |s'.mods| ensures ModOk(c, s'.dir, j, s'.mods[j]) {
      assert ModOk(c, s.dir, j, s.mods[j]);
    }
  }

  lemma StepRoutes(c: Config, s: State, l: Label)
    requires ValidConfig(c) && Enabled(c, s, l) && RoutesOk(c, s) && BoxesOk(c, s)
    ensures RoutesOk(c, Step(c, s, l))
  {
    match l
    case Register(a) =>
      forall j | 0 <= j < |s.mods| ensures ModOk(c, s.dir + [a], j, s.mods[j]) {
        ModStays(c, s.dir, a, j, s.mods[j]);
      }
    case RequestIn(m, p) => RequestRoutes(c, s, m, p);
    case AnswerIn(m, p) => AnswerRoutes(c, s, m, p);
    case Write(m) => WriteRoutes(c, s, m);
    case ReadMail(m) => ReadRoutes(c, s, m);
  }

  /** In every run, with any ids, for every table and any number of inspected group slots:
      a command in a mailbox or on its way to one is permitted there, and a packet queued
      for another module's sake was routed here. */
  lemma {:induction false} RunRoutes(c: Config, ls: seq<Label>)
    requires ValidConfig(c) && Run(c, ls).Some?
    ensures RoutesOk(c, Run(c, ls).value)
  {
    if ls != [] {
      RunRoutes(c, ls[..|ls| - 1]);
      RunBoxes(c, ls[..|ls| - 1]);
      StepRoutes(c, Run(c, ls[..|ls| - 1]).value, ls[|ls| - 1]);
    }
  }
}
