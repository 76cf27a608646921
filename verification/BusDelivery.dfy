/** What the bus does for its clients: a request that the table permits and that has room gets to
    the client it is for, the answer gets back to the one that asked, and nothing stays behind. */
module BusDelivery {
  import opened CText
  import opened Mcs
  import Q = SdbQueue
  import LinkedQueue
  import opened Mailbox
  import opened Bus
  import opened BusMailbox
  import BusThread
  import BusAnswers

  // ----- what a thread makes of its client's packets

  /** A command on the socket: it is recorded if it is a permitted message or a known payload
      command, and is on its way to a module exactly if it is a message permitted to go there that
      passes the size test. Otherwise nothing happens. */
  lemma RequestGoesOut(c: Config, s: State, m: nat, p: Packet)
    requires ValidConfig(c) && Enabled(c, s, RequestIn(m, p))
    ensures var s' := Step(c, s, RequestIn(m, p));
            var routed := p.kind == MESSAGE && exists d :: Permitted(c, s.dir, m, p, d);
            && (!routed && !(p.kind == PAYLOAD && p.cmd < |c.table.payloads|) ==> s' == s)
            && (routed || (p.kind == PAYLOAD && p.cmd < |c.table.payloads|) ==>
                  s'.mods[m].queue == Q.Insert(s.mods[m].queue, Q.SdbPacket(m, 0, p, 0)))
            && forall d ::
                 s'.mods[m].thread == Writing(p, d) <==>
                   && p.kind == MESSAGE && Permitted(c, s.dir, m, p, d)
                   && c.headerSize + p.nargs + p.dataSize <= 1024
  {
    forall d ensures RouteMessage(c, s.dir, m, p) == To(d) <==> Permitted(c, s.dir, m, p, d) {
      BusThread.RouteIsPermitted(c, s.dir, m, p, d);
    }
    match RouteMessage(c, s.dir, m, p)
    case To(d) => assert Permitted(c, s.dir, m, p, d);
    case _ =>
  }

  /** An answer on the socket: the first record with its id leaves the queue, and the answer is on
      its way to the module that record came from, if there is such a module and the answer passes
      the size test. Without a record nothing happens. */
  lemma AnswerGoesBack(c: Config, s: State, m: nat, p: Packet, k: nat)
    requires ValidConfig(c) && Enabled(c, s, AnswerIn(m, p))
    requires k <= |s.mods[m].queue| && (k < |s.mods[m].queue| ==> s.mods[m].queue[k].pkt.id == p.id)
    requires forall j | 0 <= j < k :: s.mods[m].queue[j].pkt.id != p.id
    ensures var s', mod := Step(c, s, AnswerIn(m, p)), s.mods[m];
            if k == |mod.queue| then s' == s
            else
              var to := mod.queue[k].idProcess;
              s' == s.(mods := s.mods[m := mod.(
                queue := mod.queue[..k] + mod.queue[k + 1..],
                thread := if to < |s.mods| && c.headerSize + p.nargs + p.dataSize <= 1024 then Writing(p, to) else Idle)])
  {
    LinkedQueue.FindIs(s.mods[m].queue, p.id, k);
    if k == |s.mods[m].queue| {
      assert s.mods[m := s.mods[m]] == s.mods;
    }
  }

  // ----- from one thread to another

  predicate Has(q: Q.Queue, id: uint) {
    exists k | 0 <= k < |q| :: q[k].pkt.id == id
  }

  /** What a packet that arrives does to a module: a request is recorded, an answer takes the
      first record with its id. */
  function Reached(mod: Mod, from: nat, p: Packet): Mod {
    mod.(puts := mod.puts + [Mail(from, p)], takes := mod.takes + [Mail(from, Arrived(p))],
         queue := if IsAnswer(p) then Q.Without(mod.queue, p.id)
                  else Q.Insert(mod.queue, Q.SdbPacket(from, 0, Arrived(p), 0)))
  }

  /** A packet with room is on its way to a module that can be written to. */
  predicate Sending(c: Config, s: State, m: nat, p: Packet, to: nat) {
    && |s.dir| == |s.mods| && !s.overrun && m < |s.mods| && to < |s.mods|
    && s.mods[m].thread == Writing(p, to) && Backed(p) && Roomy(c.headerSize, p)
    && s.mods[to].mailbox.None? && (to == m || s.mods[to].thread.Idle?)
  }

  function Filled(c: Config, s: State, m: nat, p: Packet, to: nat): State
    requires Sending(c, s, m, p, to) && WriteImage(c.headerSize, m, p).Some?
  {
    var sent := s.mods[m := s.mods[m].(thread := Idle)];
    s.(mods := sent[to := PutMod(sent[to], WriteImage(c.headerSize, m, p).value, Mail(m, p))])
  }

  /** The module it goes to has read it, and its client has got it if it is a request, or an
      answer to one in the queue. */
  function Passed(s: State, m: nat, p: Packet, to: nat): State
    requires m < |s.mods| && to < |s.mods|
  {
    var sent := s.mods[m := s.mods[m].(thread := Idle)];
    s.(mods := sent[to := Reached(sent[to], m, p)],
       delivered := s.delivered + if IsAnswer(p) && Has(sent[to].queue, p.id) then [Delivery(to, m, p)] else [])
  }

  lemma HopWrite(c: Config, s: State, m: nat, p: Packet, to: nat)
    requires ValidConfig(c) && Sending(c, s, m, p, to)
    ensures WriteImage(c.headerSize, m, p).Some?
    ensures Enabled(c, s, Write(m)) && Step(c, s, Write(m)) == Filled(c, s, m, p, to)
  {
    ReadsBack(c.headerSize, m, p);
  }

  lemma HopRead(c: Config, s: State, m: nat, p: Packet, to: nat)
    requires ValidConfig(c) && Sending(c, s, m, p, to) && WriteImage(c.headerSize, m, p).Some?
    ensures var s1 := Filled(c, s, m, p, to);
            Enabled(c, s1, ReadMail(to)) && Step(c, s1, ReadMail(to)) == Passed(s, m, p, to)
  {
    var sent := s.mods[m := s.mods[m].(thread := Idle)];
    var put := PutMod(sent[to], WriteImage(c.headerSize, m, p).value, Mail(m, p));
    ReadReaches(c, sent[to], m, p, to);
    assert sent[to := put][to := ReadMod(put)] == sent[to := ReadMod(put)];
  }

  /** A packet with room that is on its way can be written and read. */
  lemma Hop(c: Config, s: State, m: nat, p: Packet, to: nat)
    requires ValidConfig(c) && Sending(c, s, m, p, to)
    ensures Enabled(c, s, Write(m)) && Enabled(c, Step(c, s, Write(m)), ReadMail(to))
    ensures Step(c, Step(c, s, Write(m)), ReadMail(to)) == Passed(s, m, p, to)
  {
    HopWrite(c, s, m, p, to);
    HopRead(c, s, m, p, to);
  }

  lemma ReadReaches(c: Config, mod: Mod, m: nat, p: Packet, to: nat)
    requires Backed(p) && Roomy(c.headerSize, p) && WriteImage(c.headerSize, m, p).Some? && mod.mailbox.None?
    ensures var put := PutMod(mod, WriteImage(c.headerSize, m, p).value, Mail(m, p));
            && ReadMod(put) == Reached(mod, m, p)
            && Handed(put, to) == if IsAnswer(p) && Has(mod.queue, p.id) then [Delivery(to, m, p)] else []
  {
    ReadsBack(c.headerSize, m, p);
    AnswerArrives(p);
    TakeIsHas(mod.queue, p.id);
  }

  lemma TakeIsHas(q: Q.Queue, id: uint)
    ensures Q.Take(q, id).Some? <==> Has(q, id)
  {
  }

  // ----- records

  lemma InsertedFound(q: Q.Queue, r: Q.SdbPacket) returns (k: nat)
    requires !Has(q, r.pkt.id)
    ensures var q1 := Q.Insert(q, r);
            k < |q1| && q1[k] == r && q1[..k] + q1[k + 1..] == q && forall j | 0 <= j < k :: q1[j].pkt.id != r.pkt.id
    ensures Has(Q.Insert(q, r), r.pkt.id) && Q.Without(Q.Insert(q, r), r.pkt.id) == q
  {
    k := Q.InsertPosition(q, r);
    SplitAt(q, r, k);
    assert q[..k] + q[k..] == q;
    LinkedQueue.FindIs(Q.Insert(q, r), r.pkt.id, k);
  }

  /** Two records of equal urgency under the same id: the first one is found, and without it the
      second one is as if inserted alone. */
  lemma InsertedTwice(q: Q.Queue, r: Q.SdbPacket, r': Q.SdbPacket) returns (k: nat)
    requires !Has(q, r.pkt.id) && r'.pkt.id == r.pkt.id && r'.priority == r.priority
    ensures var q2 := Q.Insert(Q.Insert(q, r), r');
            && k < |q2| && q2[k] == r && q2[..k] + q2[k + 1..] == Q.Insert(q, r')
            && forall j | 0 <= j < k :: q2[j].pkt.id != r.pkt.id
  {
    k := Q.InsertPosition(q, r);
    LinkedQueue.InsertIs(q, r', k);
    SplitAt(q, r, k);
    assert LinkedQueue.PassedLower(Q.Insert(q, r), r', k + 1);
    LinkedQueue.InsertIs(Q.Insert(q, r), r', k + 1);
    TwoAt(q, r, r', k);
  }

  lemma SplitAt(q: Q.Queue, r: Q.SdbPacket, k: nat)
    requires k <= |q|
    ensures var q1 := q[..k] + [r] + q[k..];
            && q1[k] == r && q1[..k] == q[..k] && q1[k + 1..] == q[k..] && q1[..k + 1] == q[..k] + [r]
            && forall j | 0 <= j < k :: q1[j] == q[j]
  {
  }

  lemma TwoAt(q: Q.Queue, r: Q.SdbPacket, r': Q.SdbPacket, k: nat)
    requires k <= |q|
    ensures var q1 := q[..k] + [r] + q[k..];
            var q2 := q1[..k + 1] + [r'] + q1[k + 1..];
            q2[k] == r && q2[..k] + q2[k + 1..] == q[..k] + [r'] + q[k..] && forall j | 0 <= j < k :: q2[j] == q[j]
  {
    SplitAt(q, r, k);
  }

  // ----- there and back

  /** The three steps can be taken one after the other and end in this state. */
  predicate Leads(c: Config, s: State, a: Label, b: Label, e: Label, end: State)
    requires ValidConfig(c)
  {
    && Enabled(c, s, a) && Enabled(c, Step(c, s, a), b) && Enabled(c, Step(c, Step(c, s, a), b), e)
    && Step(c, Step(c, Step(c, s, a), b), e) == end
  }

  /** The request at its destination: recorded there, and with its sender. */
  function Asked(s: State, o: nat, d: nat, req: Packet): State
    requires o < |s.mods| && d < |s.mods|
  {
    var kept := s.mods[o := s.mods[o].(queue := Q.Insert(s.mods[o].queue, Q.SdbPacket(o, 0, req, 0)))];
    s.(mods := kept[d := Reached(kept[d], o, req)], reqs := s.reqs[req.id := Request(o, Some(d), req)])
  }

  /** Both modules can be talked to, and the request may be made. */
  predicate Askable(c: Config, s: State, o: nat, d: nat, req: Packet)
    requires ValidConfig(c)
  {
    && |s.dir| == |s.mods| && !s.overrun && Ready(s, o) && Ready(s, d)
    && req.kind == MESSAGE && Permitted(c, s.dir, o, req, d)
    && Backed(req) && Roomy(c.headerSize, req)
  }

  lemma Outward(c: Config, s: State, o: nat, d: nat, req: Packet)
    requires ValidConfig(c) && Askable(c, s, o, d, req)
    ensures Leads(c, s, RequestIn(o, req), Write(o), ReadMail(d), Asked(s, o, d, req))
  {
    BusThread.RouteIsPermitted(c, s.dir, o, req, d);
    var s1 := Accept(s, o, req, Some(d), Writing(req, d));
    assert Step(c, s, RequestIn(o, req)) == s1;
    Hop(c, s1, o, req, d);
    OutwardPassed(c, s, o, d, req);
  }

  lemma OutwardPassed(c: Config, s: State, o: nat, d: nat, req: Packet)
    requires ValidConfig(c) && Askable(c, s, o, d, req)
    ensures Passed(Accept(s, o, req, Some(d), Writing(req, d)), o, req, d) == Asked(s, o, d, req)
  {
    var s1 := Accept(s, o, req, Some(d), Writing(req, d));
    var kept := s.mods[o := s.mods[o].(queue := Q.Insert(s.mods[o].queue, Q.SdbPacket(o, 0, req, 0)))];
    assert s1.mods[o := s1.mods[o].(thread := Idle)] == kept;
    assert s1.delivered + [] == s1.delivered;
  }

  /** The answer with its requester: the record at `k` is gone, and so is the requester's own. */
  function Answered(s: State, o: nat, d: nat, ans: Packet, k: nat): State
    requires o < |s.mods| && d < |s.mods| && k < |s.mods[d].queue|
  {
    var gone := s.mods[d := s.mods[d].(queue := s.mods[d].queue[..k] + s.mods[d].queue[k + 1..])];
    s.(mods := gone[o := Reached(gone[o], d, ans)], delivered := s.delivered + [Delivery(o, d, ans)])
  }

  lemma Back(c: Config, s: State, o: nat, d: nat, ans: Packet, k: nat)
    requires ValidConfig(c) && |s.dir| == |s.mods| && !s.overrun && Ready(s, o) && Ready(s, d)
    requires IsAnswer(ans) && Backed(ans) && Roomy(c.headerSize, ans)
    requires Findable(s, o, d, ans.id, k)
    ensures Leads(c, s, AnswerIn(d, ans), Write(d), ReadMail(o), Answered(s, o, d, ans, k))
  {
    AnswerGoesBack(c, s, d, ans, k);
    var s1 := Step(c, s, AnswerIn(d, ans));
    Hop(c, s1, d, ans, o);
    var gone := s.mods[d := s.mods[d].(queue := s.mods[d].queue[..k] + s.mods[d].queue[k + 1..])];
    assert s1.mods[d := s1.mods[d].(thread := Idle)] == gone;
  }

  /** Every thread, mailbox and queue is as it was, and these two have been read. */
  predicate Settled(s: State, s': State, o: nat, d: nat, req: Packet, ans: Packet) {
    && |s'.mods| == |s.mods|
    && forall j | 0 <= j < |s.mods| ::
         && s'.mods[j].thread == s.mods[j].thread && s'.mods[j].mailbox == s.mods[j].mailbox
         && s'.mods[j].queue == s.mods[j].queue
         && s'.mods[j].takes == s.mods[j].takes + (if j == d then [Mail(o, Arrived(req))] else [])
                                                + (if j == o then [Mail(d, ans)] else [])
  }

  /** The record that the answer finds at its sender, and the one it then finds at the requester. */
  predicate Findable(s: State, o: nat, d: nat, id: uint, k: nat) {
    && o < |s.mods| && d < |s.mods|
    && var q := s.mods[d].queue;
    && k < |q| && q[k].pkt.id == id && q[k].idProcess == o && (forall j | 0 <= j < k :: q[j].pkt.id != id)
    && Has(if o == d then q[..k] + q[k + 1..] else s.mods[o].queue, id)
  }

  /** Asking and answering another module leaves all queues as they were. */
  lemma AskedOther(s: State, o: nat, d: nat, req: Packet, ans: Packet) returns (k: nat)
    requires o < |s.mods| && d < |s.mods| && o != d
    requires !IsAnswer(req) && Backed(req) && IsAnswer(ans) && Backed(ans) && ans.id == req.id
    requires !Has(s.mods[o].queue, req.id) && !Has(s.mods[d].queue, req.id)
    ensures Findable(Asked(s, o, d, req), o, d, ans.id, k)
    ensures Settled(s, Answered(Asked(s, o, d, req), o, d, ans, k), o, d, req, ans)
  {
    AnswerArrives(req);
    AnswerArrives(ans);
    var mine, theirs := Q.SdbPacket(o, 0, req, 0), Q.SdbPacket(o, 0, Arrived(req), 0);
    k := InsertedFound(s.mods[d].queue, theirs);
    var _ := InsertedFound(s.mods[o].queue, mine);
    var s1 := Asked(s, o, d, req);
    assert s1.mods[d].queue == Q.Insert(s.mods[d].queue, theirs) && s1.mods[o].queue == Q.Insert(s.mods[o].queue, mine);
    OtherSettled(s, s1, o, d, req, ans, k);
  }

  lemma OtherSettled(s: State, s1: State, o: nat, d: nat, req: Packet, ans: Packet, k: nat)
    requires o < |s.mods| && d < |s.mods| && o != d && s1 == Asked(s, o, d, req) && k < |s1.mods[d].queue|
    requires IsAnswer(ans) && Arrived(ans) == ans
    requires s1.mods[d].queue[..k] + s1.mods[d].queue[k + 1..] == s.mods[d].queue
    requires Q.Without(s1.mods[o].queue, ans.id) == s.mods[o].queue
    ensures Settled(s, Answered(s1, o, d, ans, k), o, d, req, ans)
  {
    var s2 := Answered(s1, o, d, ans, k);
    assert s2.mods[o] == Reached(s1.mods[o], d, ans);
    assert s2.mods[d] == s1.mods[d].(queue := s.mods[d].queue);
  }

  /** The same for asking oneself: there are two records then. */
  lemma AskedSelf(s: State, o: nat, req: Packet, ans: Packet) returns (k: nat)
    requires o < |s.mods|
    requires !IsAnswer(req) && Backed(req) && IsAnswer(ans) && Backed(ans) && ans.id == req.id
    requires !Has(s.mods[o].queue, req.id)
    ensures Findable(Asked(s, o, o, req), o, o, ans.id, k)
    ensures Settled(s, Answered(Asked(s, o, o, req), o, o, ans, k), o, o, req, ans)
  {
    AnswerArrives(req);
    AnswerArrives(ans);
    var mine, theirs := Q.SdbPacket(o, 0, req, 0), Q.SdbPacket(o, 0, Arrived(req), 0);
    k := InsertedTwice(s.mods[o].queue, mine, theirs);
    var _ := InsertedFound(s.mods[o].queue, theirs);
    var s1 := Asked(s, o, o, req);
    assert s1.mods[o].queue == Q.Insert(Q.Insert(s.mods[o].queue, mine), theirs);
    SelfSettled(s, s1, o, req, ans, k);
  }

  lemma SelfSettled(s: State, s1: State, o: nat, req: Packet, ans: Packet, k: nat)
    requires o < |s.mods| && s1 == Asked(s, o, o, req) && k < |s1.mods[o].queue|
    requires IsAnswer(ans) && Arrived(ans) == ans
    requires Q.Without(s1.mods[o].queue[..k] + s1.mods[o].queue[k + 1..], ans.id) == s.mods[o].queue
    ensures Settled(s, Answered(s1, o, o, ans, k), o, o, req, ans)
  {
    var s2 := Answered(s1, o, o, ans, k);
    assert s2.mods[o] == Reached(s1.mods[o].(queue := s1.mods[o].queue[..k] + s1.mods[o].queue[k + 1..]), o, ans);
  }

  lemma RunSnoc(c: Config, ls: seq<Label>, l: Label)
    requires ValidConfig(c) && Run(c, ls).Some? && Enabled(c, Run(c, ls).value, l)
    ensures Run(c, ls + [l]) == Some(Step(c, Run(c, ls).value, l))
  {
    assert (ls + [l])[..|ls|] == ls;
  }

  function Trip(o: nat, d: nat, req: Packet, ans: Packet): seq<Label> {
    [RequestIn(o, req), Write(o), ReadMail(d), AnswerIn(d, ans), Write(d), ReadMail(o)]
  }

  /** After any run with distinct ids, for any request under a new id that the table permits and
      that has room, between modules that wait for work, to oneself included, and any answer with
      that id that has room: the six steps there and back can be taken. The other client gets the
      request, the requester exactly this answer as one from that module, and every thread,
      mailbox and queue of the bus is then as it was. */
  lemma RequestAndReturn(c: Config, ls: seq<Label>, o: nat, d: nat, req: Packet, ans: Packet)
    requires ValidConfig(c) && Run(c, ls).Some? && DistinctIds(c, ls)
    requires Askable(c, Run(c, ls).value, o, d, req) && req.id !in Run(c, ls).value.reqs
    requires IsAnswer(ans) && Backed(ans) && Roomy(c.headerSize, ans) && ans.id == req.id
    ensures Run(c, ls + Trip(o, d, req, ans)).Some?
    ensures var s, s' := Run(c, ls).value, Run(c, ls + Trip(o, d, req, ans)).value;
            && s'.delivered == s.delivered + [Delivery(o, d, ans)] && s'.reqs == s.reqs[req.id := Request(o, Some(d), req)]
            && s'.dir == s.dir && s'.deadlock == s.deadlock && !s'.overrun && Settled(s, s', o, d, req, ans)
  {
    var s := Run(c, ls).value;
    NoRecord(c, ls, o, req.id);
    NoRecord(c, ls, d, req.id);
    Outward(c, s, o, d, req);
    var k;
    if o == d { k := AskedSelf(s, o, req, ans); } else { k := AskedOther(s, o, d, req, ans); }
    Back(c, Asked(s, o, d, req), o, d, ans, k);
    SixSteps(c, ls, o, d, req, ans, Asked(s, o, d, req), Answered(Asked(s, o, d, req), o, d, ans, k));
  }

  lemma SixSteps(c: Config, ls: seq<Label>, o: nat, d: nat, req: Packet, ans: Packet, s3: State, s6: State)
    requires ValidConfig(c) && Run(c, ls).Some?
    requires Leads(c, Run(c, ls).value, RequestIn(o, req), Write(o), ReadMail(d), s3)
    requires Leads(c, s3, AnswerIn(d, ans), Write(d), ReadMail(o), s6)
    ensures Run(c, ls + Trip(o, d, req, ans)) == Some(s6)
  {
    ThreeSteps(c, ls, RequestIn(o, req), Write(o), ReadMail(d), s3);
    var half := ls + [RequestIn(o, req), Write(o), ReadMail(d)];
    ThreeSteps(c, half, AnswerIn(d, ans), Write(d), ReadMail(o), s6);
    assert half + [AnswerIn(d, ans), Write(d), ReadMail(o)] == ls + Trip(o, d, req, ans);
  }

  lemma NoRecord(c: Config, ls: seq<Label>, j: nat, id: uint)
    requires ValidConfig(c) && Run(c, ls).Some? && DistinctIds(c, ls)
    requires j < |Run(c, ls).value.mods| && id !in Run(c, ls).value.reqs
    ensures !Has(Run(c, ls).value.mods[j].queue, id)
  {
    var s := Run(c, ls).value;
    BusAnswers.RunKeeps(c, ls);
    assert BusAnswers.ModOk(s.reqs, j, s.mods[j]);
  }

  lemma ThreeSteps(c: Config, ls: seq<Label>, a: Label, b: Label, e: Label, s3: State)
    requires ValidConfig(c) && Run(c, ls).Some? && Leads(c, Run(c, ls).value, a, b, e, s3)
    ensures Run(c, ls + [a, b, e]) == Some(s3)
  {
    RunSnoc(c, ls, a);
    RunSnoc(c, ls + [a], b);
    RunSnoc(c, ls + [a] + [b], e);
    assert ls + [a] + [b] + [e] == ls + [a, b, e];
  }
}
