/** The mailboxes over every run: each packet written is read once, in order and as it was sent, no
    write ever finds the slot full, and a write runs over the end of a mailbox exactly when its
    packet does not fit. */
module BusMailbox {
  import opened CText
  import opened Mcs
  import opened Mailbox
  import opened Bus

  // ----- exactly once, with the right contents

  /** What was written has been read, but for the last packet when the slot is filled: then it is
      in the slot. A thread on its way to a mailbox has nothing in its own. */
  predicate BoxOk(c: Config, m: Mod) {
    && |m.takes| <= |m.puts|
    && (forall i | 0 <= i < |m.takes| :: m.takes[i] == Mail(m.puts[i].from, Arrived(m.puts[i].pkt)))
    && (m.thread.Writing? ==> m.mailbox.None? && Backed(m.thread.pkt))
    && if m.mailbox.None? then |m.puts| == |m.takes|
       else
         && |m.puts| == |m.takes| + 1
         && var last := m.puts[|m.takes|];
         && Backed(last.pkt) && Roomy(c.headerSize, last.pkt)
         && m.mailbox == WriteImage(c.headerSize, last.from, last.pkt)
  }

  predicate BoxesOk(c: Config, s: State) {
    && |s.dir| == |s.mods| && !s.deadlock
    && forall j | 0 <= j < |s.mods| :: BoxOk(c, s.mods[j])
  }

  /** What is in the slot is read as it was sent. */
  lemma SlotReads(c: Config, m: Mod)
    requires BoxOk(c, m) && m.mailbox.Some?
    ensures var last := m.puts[|m.takes|];
            && Backed(last.pkt) && Legible(m.mailbox.value)
            && ReadImage(m.mailbox.value) == Mail(last.from, Arrived(last.pkt))
  {
    var last := m.puts[|m.takes|];
    ReadsBack(c.headerSize, last.from, last.pkt);
  }

  lemma ReadBox(c: Config, m: Mod)
    requires BoxOk(c, m) && m.mailbox.Some?
    ensures BoxOk(c, ReadMod(m))
  {
    SlotReads(c, m);
    EmptiedBox(c, m, ReadImage(m.mailbox.value), ReadMod(m));
  }

  lemma EmptiedBox(c: Config, m: Mod, mail: Mail, r: Mod)
    requires BoxOk(c, m) && m.mailbox.Some? && mail == Mail(m.puts[|m.takes|].from, Arrived(m.puts[|m.takes|].pkt))
    requires r.puts == m.puts && r.takes == m.takes + [mail] && r.thread == m.thread && r.mailbox == None
    ensures BoxOk(c, r)
  {
  }

  lemma StepBoxes(c: Config, s: State, l: Label)
    requires ValidConfig(c) && Enabled(c, s, l) && BoxesOk(c, s)
    ensures BoxesOk(c, Step(c, s, l))
  {
    var s' := Step(c, s, l);
    match l
    case Write(m) => WriteBoxes(c, s, m);
    case ReadMail(m) =>
      ReadBox(c, s.mods[m]);
      forall j | 0 <= j < |s'.mods| ensures BoxOk(c, s'.mods[j]) {
        assert BoxOk(c, s.mods[j]);
      }
    case _ =>
      forall j | 0 <= j < |s'.mods| ensures BoxOk(c, s'.mods[j]) {
        assert j < |s.mods| ==> BoxOk(c, s.mods[j]);
      }
  }

  lemma WriteBoxes(c: Config, s: State, m: nat)
    requires Enabled(c, s, Write(m)) && BoxesOk(c, s)
    ensures BoxesOk(c, StepWrite(c, s, m))
  {
    var s' := StepWrite(c, s, m);
    var Writing(p, to) := s.mods[m].thread;
    assert BoxOk(c, s.mods[m]) && BoxOk(c, s.mods[to]);
    FitsWhenRoomy(c.headerSize, m, p);
    forall j | 0 <= j < |s'.mods| ensures BoxOk(c, s'.mods[j]) {
      assert BoxOk(c, s.mods[j]);
    }
  }

  lemma {:induction false} RunBoxes(c: Config, ls: seq<Label>)
    requires ValidConfig(c) && Run(c, ls).Some?
    ensures BoxesOk(c, Run(c, ls).value)
  {
    if ls != [] {
      RunBoxes(c, ls[..|ls| - 1]);
      StepBoxes(c, Run(c, ls[..|ls| - 1]).value, ls[|ls| - 1]);
    }
  }

  /** The mail in a filled slot. */
  function Waiting(m: Mod): Mail
    requires m.mailbox.Some?
  {
    ReadImage(m.mailbox.value)
  }

  /** A thread fills a mailbox: the packet is read there as it was sent, or the write runs over
      the end and nothing else changes. */
  lemma WriteShape(c: Config, s: State, m: nat)
    requires Enabled(c, s, Write(m)) && BoxesOk(c, s)
    ensures var Writing(p, to) := s.mods[m].thread;
            var sent := s.(mods := s.mods[m := s.mods[m].(thread := Idle)]);
            var s' := StepWrite(c, s, m);
            && s.mods[to].mailbox.None? && Arrived(p).id == p.id && IsAnswer(Arrived(p)) == IsAnswer(p)
            && (IsAnswer(p) ==> Arrived(p) == p)
            && if s'.overrun then s' == sent.(overrun := true)
               else
                 && s'.mods[to].mailbox.Some? && Waiting(s'.mods[to]) == Mail(m, Arrived(p))
                 && s' == sent.(mods := sent.mods[to := PutMod(sent.mods[to], s'.mods[to].mailbox.value, Mail(m, p))])
  {
    var Writing(p, to) := s.mods[m].thread;
    assert BoxOk(c, s.mods[m]);
    FitsWhenRoomy(c.headerSize, m, p);
    if Roomy(c.headerSize, p) { ReadsBack(c.headerSize, m, p); }
    AnswerArrives(p);
  }

  // ----- when a write runs over the end

  /** The packet that step `i` of the run writes to a mailbox, if it is such a step. */
  function WrittenAt(c: Config, ls: seq<Label>, i: nat): Option<Packet>
    requires ValidConfig(c) && i < |ls|
  {
    match Run(c, ls[..i])
    case None => None
    case Some(s) =>
      if ls[i].Write? && Enabled(c, s, ls[i]) then Some(s.mods[ls[i].m].thread.pkt) else None
  }

  predicate AllRoomy(c: Config, ls: seq<Label>)
    requires ValidConfig(c)
  {
    forall i | 0 <= i < |ls| :: WrittenAt(c, ls, i).Some? ==> Roomy(c.headerSize, WrittenAt(c, ls, i).value)
  }

  /** A step runs over the end exactly if it writes a packet that does not fit. */
  lemma StepOverruns(c: Config, s: State, l: Label)
    requires ValidConfig(c) && Enabled(c, s, l) && BoxesOk(c, s)
    ensures Step(c, s, l).overrun <==> l.Write? && !Roomy(c.headerSize, s.mods[l.m].thread.pkt)
  {
    if l.Write? {
      var Writing(p, to) := s.mods[l.m].thread;
      assert BoxOk(c, s.mods[l.m]) && BoxOk(c, s.mods[to]);
      FitsWhenRoomy(c.headerSize, l.m, p);
    }
  }

  lemma {:induction false} RunFits(c: Config, ls: seq<Label>)
    requires ValidConfig(c) && Run(c, ls).Some?
    ensures !Run(c, ls).value.overrun <==> AllRoomy(c, ls)
  {
    if ls != [] {
      var n := |ls| - 1;
      var init := ls[..n];
      RunFits(c, init);
      RunBoxes(c, init);
      StepOverruns(c, Run(c, init).value, ls[n]);
      AllRoomySnoc(c, ls);
    }
  }

  lemma AllRoomySnoc(c: Config, ls: seq<Label>)
    requires ValidConfig(c) && ls != []
    ensures var n := |ls| - 1;
            AllRoomy(c, ls) <==>
              AllRoomy(c, ls[..n]) && (WrittenAt(c, ls, n).Some? ==> Roomy(c.headerSize, WrittenAt(c, ls, n).value))
  {
    var n := |ls| - 1;
    forall i | 0 <= i < n ensures WrittenAt(c, ls, i) == WrittenAt(c, ls[..n], i) {
      assert ls[..n][..i] == ls[..i];
    }
  }

  /** In every run: the packets a module has read are those written to it, in order and each once,
      with the right sender, destination, arguments and data, and at most the last one is still
      waiting, ready to be read like that. The branch that reports a deadlock is never reached. And
      a write runs over the end of a mailbox if and only if one of the packets written has no room
      in it. */
  lemma MailboxExactlyOnce(c: Config, ls: seq<Label>, j: nat)
    requires ValidConfig(c) && Run(c, ls).Some? && j < |Run(c, ls).value.mods|
    ensures var s := Run(c, ls).value;
            var m := s.mods[j];
            && |m.takes| <= |m.puts| <= |m.takes| + 1 && (|m.puts| > |m.takes| <==> m.mailbox.Some?)
            && (forall i | 0 <= i < |m.takes| :: m.takes[i] == Mail(m.puts[i].from, Arrived(m.puts[i].pkt)))
            && (m.mailbox.Some? ==>
                  ReadImage(m.mailbox.value) == Mail(m.puts[|m.takes|].from, Arrived(m.puts[|m.takes|].pkt)))
            && !s.deadlock
            && (!s.overrun <==> AllRoomy(c, ls))
  {
    RunBoxes(c, ls);
    RunFits(c, ls);
    var m := Run(c, ls).value.mods[j];
    assert BoxOk(c, m);
    if m.mailbox.Some? { SlotReads(c, m); }
  }

  // ----- what a client can do about it

  /** Every packet that clients send has room. */
  predicate InputsRoomy(c: Config, ls: seq<Label>) {
    forall l | l in ls :: (l.RequestIn? || l.AnswerIn?) ==> Roomy(c.headerSize, l.pkt)
  }

  predicate ThreadsRoomy(c: Config, s: State) {
    forall j | 0 <= j < |s.mods| :: s.mods[j].thread.Writing? ==> Roomy(c.headerSize, s.mods[j].thread.pkt)
  }

  lemma {:induction false} ThreadsStayRoomy(c: Config, ls: seq<Label>)
    requires ValidConfig(c) && Run(c, ls).Some? && InputsRoomy(c, ls)
    ensures ThreadsRoomy(c, Run(c, ls).value)
  {
    if ls != [] {
      var init, l := ls[..|ls| - 1], ls[|ls| - 1];
      assert InputsRoomy(c, init);
      ThreadsStayRoomy(c, init);
      assert l in ls;
      ThreadsStepRoomy(c, Run(c, init).value, l);
    }
  }

  lemma ThreadsStepRoomy(c: Config, s: State, l: Label)
    requires ValidConfig(c) && Enabled(c, s, l) && ThreadsRoomy(c, s)
    requires l.RequestIn? || l.AnswerIn? ==> Roomy(c.headerSize, l.pkt)
    ensures ThreadsRoomy(c, Step(c, s, l))
  {
    match l
    case RequestIn(m, p) =>
      var t := StepRequest(c, s, m, p).mods[m].thread;
      assert t.Idle? || t.pkt == p;
    case _ =>
  }

  /** Clients that send only packets with room never make a write run over the end. */
  lemma {:induction false} RoomyInputsFit(c: Config, ls: seq<Label>)
    requires ValidConfig(c) && Run(c, ls).Some? && InputsRoomy(c, ls)
    ensures !Run(c, ls).value.overrun
  {
    if ls != [] {
      var init := ls[..|ls| - 1];
      assert InputsRoomy(c, init);
      ThreadsStayRoomy(c, init);
      RunBoxes(c, init);
      StepOverruns(c, Run(c, init).value, ls[|ls| - 1]);
    }
  }

  const NAME: Text := [65]
  const EVERYBODY: seq<Group> := [AnyGroup, AnyGroup, AnyGroup, AnyGroup, AnyGroup]

  /** The size test alone does not prevent it: a structure of 40 bytes and 984 bytes of data pass
      the test, and the write runs four bytes over the end. */
  lemma AdmittedOverruns(data: seq<byte>)
    requires |data| == 984
    ensures var c := Config(Table([MessageRow(Row(0, true), Some(NAME), EVERYBODY, EVERYBODY)], [], []), 1, 40);
            var p := Packet(1, MESSAGE, 0, 0, None, None, 984, Some(data));
            var ls := [Register(Agent(NAME, App)), RequestIn(0, p), Write(0)];
            && ValidConfig(c) && Admitted(c, p)
            && Run(c, ls).Some? && Run(c, ls).value.overrun
  {
    var c := Config(Table([MessageRow(Row(0, true), Some(NAME), EVERYBODY, EVERYBODY)], [], []), 1, 40);
    var p := Packet(1, MESSAGE, 0, 0, None, None, 984, Some(data));
    var ls := [Register(Agent(NAME, App)), RequestIn(0, p), Write(0)];
    assert ls[..2][..1] == ls[..1] && ls[..1][..0] == [] && Run(c, []) == Some(EMPTY);
    var s1 := State([Agent(NAME, App)], [Mod(Idle, None, [], [], [])], map[], [], false, false);
    assert Step(c, EMPTY, ls[0]) == s1;
    assert Run(c, ls[..1]) == Some(s1);
    assert RouteMessage(c, s1.dir, 0, p) == To(0);
    var s2 := StepRequest(c, s1, 0, p);
    assert Run(c, ls[..2]) == Some(s2);
    OneWriteOverruns(c, s2, p);
  }

  lemma OneWriteOverruns(c: Config, s: State, p: Packet)
    requires ValidConfig(c) && |s.dir| == |s.mods| == 1 && !s.overrun && Backed(p) && !Roomy(c.headerSize, p)
    requires s.mods[0].thread == Writing(p, 0) && s.mods[0].mailbox == None
    ensures Enabled(c, s, Write(0)) && Step(c, s, Write(0)).overrun
  {
    FitsWhenRoomy(c.headerSize, 0, p);
  }
}
