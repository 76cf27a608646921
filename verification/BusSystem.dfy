/** All module threads together, on their queues and memory: each thing one of them does is a step
    of the bus, so that what holds in every run of the bus holds for them. */
module BusSystem {
  import opened CText
  import opened Mcs
  import opened Mailbox
  import opened Bus
  import opened BusMailbox
  import opened BusThread

  // ----- threads that share nothing

  /** Neither of the two writes anything that the other one has. */
  ghost predicate Apart(a: ModuleThread, b: ModuleThread)
    reads a.queue, b.queue
  {
    && a != b && a.queue != b.queue && a.region != b.region && a.region.bytes != b.region.bytes
    && forall i, j | 0 <= i < |a.queue.elems| && 0 <= j < |b.queue.elems| :: a.queue.elems[i] != b.queue.elems[j]
  }

  /** Thread `i` has this value. */
  ghost predicate Stands(c: Config, t: ModuleThread, i: nat, mod: Mod)
    reads t, t.queue, t.queue.elems, t.region, t.region.bytes
  {
    t.Valid() && t.id == i && t.region.headerSize == c.headerSize && t.Value() == mod
  }

  /** The threads have these values, each on its own memory. */
  ghost predicate AllStand(c: Config, ts: seq<ModuleThread>, mods: seq<Mod>)
    reads ts, set i | 0 <= i < |ts| :: ts[i].queue,
          set i, k | 0 <= i < |ts| && 0 <= k < |ts[i].queue.elems| :: ts[i].queue.elems[k],
          set i | 0 <= i < |ts| :: ts[i].region, set i | 0 <= i < |ts| :: ts[i].region.bytes
  {
    && |mods| == |ts|
    && (forall i | 0 <= i < |ts| :: Stands(c, ts[i], i, mods[i]))
    && forall i, j | 0 <= i < |ts| && 0 <= j < |ts| && i != j :: Apart(ts[i], ts[j])
  }

  /** Thread `m` stands anew, the others as before. */
  lemma Assemble(c: Config, ts: seq<ModuleThread>, mods: seq<Mod>, m: nat, mod: Mod)
    requires |mods| == |ts| && m < |ts| && Stands(c, ts[m], m, mod)
    requires forall j | 0 <= j < |ts| && j != m :: Stands(c, ts[j], j, mods[j])
    requires forall i, j | 0 <= i < |ts| && 0 <= j < |ts| && i != j :: Apart(ts[i], ts[j])
    ensures AllStand(c, ts, mods[m := mod])
  {
  }

  /** One more thread. */
  lemma OneMore(c: Config, ts: seq<ModuleThread>, mods: seq<Mod>, t: ModuleThread, mod: Mod)
    requires AllStand(c, ts, mods) && Stands(c, t, |ts|, mod)
    requires forall i | 0 <= i < |ts| :: Apart(ts[i], t) && Apart(t, ts[i])
    ensures AllStand(c, ts + [t], mods + [mod])
  {
    var all := ts + [t];
    forall i | 0 <= i < |all| ensures Stands(c, all[i], i, (mods + [mod])[i]) {
      if i < |ts| { assert Stands(c, ts[i], i, mods[i]); }
    }
    forall i, j | 0 <= i < |all| && 0 <= j < |all| && i != j ensures Apart(all[i], all[j]) {
      if i < |ts| && j < |ts| { assert Apart(ts[i], ts[j]); }
    }
  }

  /** A write in two strokes: the sender is done, then the slot is filled, or not. */
  lemma WriteInTwo(c: Config, s: State, m: nat, sent: seq<Mod>, o: Outcome)
    requires Enabled(c, s, Write(m)) && sent == s.mods[m := s.mods[m].(thread := Idle)]
    requires o == OutcomeOf(c, sent[s.mods[m].thread.to], m, s.mods[m].thread.pkt)
    ensures var Writing(p, to) := s.mods[m].thread;
            StepWrite(c, s, m) ==
              s.(mods := sent[to := ReceiveMod(c, sent[to], m, p)],
                 deadlock := s.deadlock || o == Deadlocked, overrun := o == Overran)
  {
    var to := s.mods[m].thread.to;
    assert sent[to := sent[to]] == sent;
  }

  function OutcomeOf(c: Config, mod: Mod, from: nat, p: Packet): Outcome {
    if mod.mailbox.Some? then Deadlocked
    else if WriteImage(c.headerSize, from, p).None? then Overran
    else Written
  }

  function ReceiveMod(c: Config, mod: Mod, from: nat, p: Packet): Mod {
    if OutcomeOf(c, mod, from, p) == Written then PutMod(mod, WriteImage(c.headerSize, from, p).value, Mail(from, p)) else mod
  }

  function CommandMod(fate: Fate, mod: Mod, m: nat, p: Packet): Mod {
    if fate.Kept? then AcceptMod(mod, m, p, fate.thread) else mod
  }

  /** The threads of the bus, and what their clients said of themselves. */
  class System {
    const c: Config
    var dir: seq<Agent>
    var threads: seq<ModuleThread>

    /** The threads are in this state of the bus. */
    ghost predicate Represents(s: State)
      reads this, threads, set i | 0 <= i < |threads| :: threads[i].queue,
            set i, k | 0 <= i < |threads| && 0 <= k < |threads[i].queue.elems| :: threads[i].queue.elems[k],
            set i | 0 <= i < |threads| :: threads[i].region, set i | 0 <= i < |threads| :: threads[i].region.bytes
    {
      ValidConfig(c) && s.dir == dir && |dir| == |threads| && AllStand(c, threads, s.mods)
    }

    constructor (config: Config)
      requires ValidConfig(config)
      ensures c == config && Represents(EMPTY)
    {
      c, dir, threads := config, [], [];
    }

    // ----- one thread moves

    /** Thread `m` can be written without touching the others. */
    ghost predicate Alone(m: nat)
      requires m < |threads|
      reads this, threads, set i | 0 <= i < |threads| :: threads[i].queue
    {
      forall j | 0 <= j < |threads| && j != m ::
        && threads[j] != threads[m] && threads[j].queue != threads[m].queue
        && threads[j].region != threads[m].region && threads[j].region.bytes != threads[m].region.bytes
        && forall k | 0 <= k < |threads[j].queue.elems| :: threads[j].queue.elems[k] !in threads[m].queue.elems
    }

    /** Nothing of the others has been written, and thread `m` has taken no element from anywhere. */
    twostate predicate Only(m: nat)
      requires m < |threads|
      reads this, threads, set i | 0 <= i < |threads| :: threads[i].queue,
            set i, k | 0 <= i < |threads| && 0 <= k < |threads[i].queue.elems| :: threads[i].queue.elems[k],
            set i | 0 <= i < |threads| :: threads[i].region, set i | 0 <= i < |threads| :: threads[i].region.bytes
    {
      && unchanged(`threads)
      && (forall k | 0 <= k < |threads[m].queue.elems| ::
            threads[m].queue.elems[k] in old(threads[m].queue.elems) || fresh(threads[m].queue.elems[k]))
      && forall j | 0 <= j < |threads| && j != m ::
           && unchanged(threads[j]) && unchanged(threads[j].queue)
           && unchanged(threads[j].region) && unchanged(threads[j].region.bytes)
           && forall k | 0 <= k < |threads[j].queue.elems| :: unchanged(threads[j].queue.elems[k])
    }

    /** Everyone is valid, and thread `m` shares nothing with the others. */
    ghost predicate Peers(m: nat)
      reads this, threads, set i | 0 <= i < |threads| :: threads[i].queue,
            set i, k | 0 <= i < |threads| && 0 <= k < |threads[i].queue.elems| :: threads[i].queue.elems[k],
            set i | 0 <= i < |threads| :: threads[i].region
    {
      && m < |threads| && threads[m].Valid()
      && forall j | 0 <= j < |threads| && j != m :: threads[j].Valid() && Apart(threads[m], threads[j])
    }

    /** The others have the values they had, and thread `m` still shares nothing with them. */
    twostate predicate Kept(m: nat)
      reads this, threads, set i | 0 <= i < |threads| :: threads[i].queue,
            set i, k | 0 <= i < |threads| && 0 <= k < |threads[i].queue.elems| :: threads[i].queue.elems[k],
            set i | 0 <= i < |threads| :: threads[i].region, set i | 0 <= i < |threads| :: threads[i].region.bytes
    {
      && unchanged(`threads) && old(Peers(m))
      && forall j | 0 <= j < |threads| && j != m ::
           && threads[j].Valid() && threads[j].Value() == old(threads[j].Value()) && unchanged(threads[j].queue)
           && Apart(threads[m], threads[j]) && Apart(threads[j], threads[m])
    }

    /** What thread `m` has queued, no other has. */
    lemma NotShared(m: nat)
      requires Peers(m)
      ensures Alone(m)
    {
      forall j | 0 <= j < |threads| && j != m
        ensures forall k | 0 <= k < |threads[j].queue.elems| :: threads[j].queue.elems[k] !in threads[m].queue.elems
      {
        assert Apart(threads[m], threads[j]);
      }
    }

    /** Only thread `m` has moved. */
    twostate lemma OneMoved(m: nat)
      requires unchanged(`threads) && old(Peers(m)) && Only(m)
      ensures Kept(m)
    {
      forall j | 0 <= j < |threads| && j != m ensures Apart(threads[m], threads[j]) && Apart(threads[j], threads[m]) {
        var a, b := threads[m].queue, threads[j].queue;
        forall i, k | 0 <= i < |a.elems| && 0 <= k < |b.elems| ensures a.elems[i] != b.elems[k] {
          assert b.elems[k] == old(b.elems[k]);
        }
      }
    }

    method ActCommand(m: nat, p: Packet) returns (fate: Fate)
      requires Peers(m) && ValidConfig(c) && m < |dir| && threads[m].id == m && !IsAnswer(p) && threads[m].thread.Idle?
      modifies threads[m], threads[m].queue, threads[m].queue.elems
      ensures Kept(m) && threads[m].Valid() && fate == FateOf(c, dir, m, p)
      ensures threads[m].Value() == CommandMod(fate, old(threads[m].Value()), m, p)
    {
      NotShared(m);
      fate := threads[m].ProcessCommand(c, dir, p);
      OneMoved(m);
    }

    method DoAnswer(m: nat, p: Packet)
      requires m < |threads| && threads[m].Valid() && Alone(m) && IsAnswer(p) && threads[m].thread.Idle?
      modifies threads[m], threads[m].queue, threads[m].queue.elems
      ensures Only(m) && threads[m].Valid()
      ensures threads[m].Value() == AnswerMod(c, |threads|, old(threads[m].Value()), p)
    {
      var t := threads[m];
      t.ProcessAnswer(c, |threads|, p);
    }

    method ActAnswer(m: nat, p: Packet)
      requires Peers(m) && IsAnswer(p) && threads[m].thread.Idle?
      modifies threads[m], threads[m].queue, threads[m].queue.elems
      ensures Kept(m) && threads[m].Valid()
      ensures threads[m].Value() == AnswerMod(c, |threads|, old(threads[m].Value()), p)
    {
      NotShared(m);
      DoAnswer(m, p);
      OneMoved(m);
    }

    method ActMail(m: nat)
      requires Peers(m) && threads[m].region.valid && Legible(threads[m].region.Slot().value)
      modifies threads[m], threads[m].region, threads[m].queue, threads[m].queue.elems
      ensures Kept(m) && threads[m].Valid()
      ensures threads[m].Value() == ReadMod(old(threads[m].Value()))
    {
      NotShared(m);
      threads[m].ProcessSdb();
      OneMoved(m);
    }

    method ActIdle(m: nat)
      requires Peers(m)
      modifies threads[m]
      ensures Kept(m) && threads[m].Valid()
      ensures threads[m].Value() == old(threads[m].Value()).(thread := Idle)
    {
      threads[m].thread := Idle;
      OneMoved(m);
    }

    method ActReceive(m: nat, from: nat, p: Packet) returns (o: Outcome)
      requires Peers(m) && threads[m].id == m && threads[m].region.headerSize == c.headerSize && Backed(p)
      requires from != m ==> !threads[m].region.valid
      modifies threads[m], threads[m].region, threads[m].region.bytes
      ensures Kept(m) && threads[m].Valid() && o == OutcomeOf(c, old(threads[m].Value()), from, p)
      ensures threads[m].Value() == ReceiveMod(c, old(threads[m].Value()), from, p)
    {
      o := threads[m].Receive(from, p);
      OneMoved(m);
    }

    method MoveCommand(m: nat, p: Packet, ghost mods: seq<Mod>) returns (fate: Fate)
      requires AllStand(c, threads, mods) && ValidConfig(c) && m < |threads| == |dir| && !IsAnswer(p) && mods[m].thread.Idle?
      modifies threads[m], threads[m].queue, threads[m].queue.elems
      ensures fate == FateOf(c, dir, m, p) && AllStand(c, threads, mods[m := CommandMod(fate, mods[m], m, p)])
    {
      assert Stands(c, threads[m], m, mods[m]);
      fate := ActCommand(m, p);
      forall j | 0 <= j < |threads| && j != m ensures Stands(c, threads[j], j, mods[j]) {
        assert old(Stands(c, threads[j], j, mods[j]));
      }
      Assemble(c, threads, mods, m, CommandMod(fate, mods[m], m, p));
    }

    method MoveAnswer(m: nat, p: Packet, ghost mods: seq<Mod>)
      requires AllStand(c, threads, mods) && m < |threads| && IsAnswer(p) && mods[m].thread.Idle?
      modifies threads[m], threads[m].queue, threads[m].queue.elems
      ensures AllStand(c, threads, mods[m := AnswerMod(c, |threads|, mods[m], p)])
    {
      assert Stands(c, threads[m], m, mods[m]);
      ActAnswer(m, p);
      forall j | 0 <= j < |threads| && j != m ensures Stands(c, threads[j], j, mods[j]) {
        assert old(Stands(c, threads[j], j, mods[j]));
      }
      Assemble(c, threads, mods, m, AnswerMod(c, |threads|, mods[m], p));
    }

    method MoveMail(m: nat, ghost mods: seq<Mod>)
      requires AllStand(c, threads, mods) && m < |threads| && mods[m].mailbox.Some? && BoxOk(c, mods[m])
      modifies threads[m], threads[m].region, threads[m].queue, threads[m].queue.elems
      ensures AllStand(c, threads, mods[m := ReadMod(mods[m])])
    {
      assert Stands(c, threads[m], m, mods[m]);
      SlotReads(c, mods[m]);
      ActMail(m);
      forall j | 0 <= j < |threads| && j != m ensures Stands(c, threads[j], j, mods[j]) {
        assert old(Stands(c, threads[j], j, mods[j]));
      }
      Assemble(c, threads, mods, m, ReadMod(mods[m]));
    }

    /** The sender is done with its packet. */
    method MoveIdle(m: nat, ghost mods: seq<Mod>)
      requires AllStand(c, threads, mods) && m < |threads|
      modifies threads[m]
      ensures AllStand(c, threads, mods[m := mods[m].(thread := Idle)])
    {
      assert Stands(c, threads[m], m, mods[m]);
      ActIdle(m);
      forall j | 0 <= j < |threads| && j != m ensures Stands(c, threads[j], j, mods[j]) {
        assert old(Stands(c, threads[j], j, mods[j]));
      }
      Assemble(c, threads, mods, m, mods[m].(thread := Idle));
    }

    method MoveReceive(m: nat, from: nat, p: Packet, ghost mods: seq<Mod>) returns (o: Outcome)
      requires AllStand(c, threads, mods) && m < |threads| && Backed(p) && (from != m ==> mods[m].mailbox.None?)
      modifies threads[m], threads[m].region, threads[m].region.bytes
      ensures o == OutcomeOf(c, mods[m], from, p) && AllStand(c, threads, mods[m := ReceiveMod(c, mods[m], from, p)])
    {
      assert Stands(c, threads[m], m, mods[m]);
      o := ActReceive(m, from, p);
      forall j | 0 <= j < |threads| && j != m ensures Stands(c, threads[j], j, mods[j]) {
        assert old(Stands(c, threads[j], j, mods[j]));
      }
      Assemble(c, threads, mods, m, ReceiveMod(c, mods[m], from, p));
    }

    // ----- the steps

    /** A connection and its handshake. */
    method Join(a: Agent, ghost s: State) returns (ghost s': State)
      requires Represents(s) && Enabled(c, s, Register(a))
      modifies this
      ensures s' == Step(c, s, Register(a)) && Represents(s')
    {
      var t := NewThread(s.mods);
      ghost var mod := Mod(Idle, None, [], [], []);
      OneMore(c, threads, s.mods, t, mod);
      Extend(a, t, s.mods + [mod]);
      s' := s.(dir := s.dir + [a], mods := s.mods + [mod]);
    }

    method Extend(a: Agent, t: ModuleThread, ghost mods: seq<Mod>)
      requires AllStand(c, threads + [t], mods)
      modifies this`dir, this`threads
      ensures dir == old(dir) + [a] && threads == old(threads) + [t] && AllStand(c, threads, mods)
    {
      dir, threads := dir + [a], threads + [t];
    }

    method NewThread(ghost mods: seq<Mod>) returns (t: ModuleThread)
      requires AllStand(c, threads, mods)
      ensures AllStand(c, threads, mods) && Stands(c, t, |threads|, Mod(Idle, None, [], [], []))
      ensures forall i | 0 <= i < |threads| :: Apart(threads[i], t) && Apart(t, threads[i])
    {
      t := new ModuleThread(|threads|, c.headerSize);
      forall j | 0 <= j < |threads| ensures Stands(c, threads[j], j, mods[j]) {
        assert old(Stands(c, threads[j], j, mods[j]));
      }
    }

    /** `process_pkt_socket` of thread `m` with a command. */
    method OnRequest(m: nat, p: Packet, ghost s: State) returns (ghost s': State)
      requires Represents(s) && Enabled(c, s, RequestIn(m, p))
      modifies threads[m], threads[m].queue, threads[m].queue.elems
      ensures s' == Step(c, s, RequestIn(m, p)) && Represents(s')
    {
      var fate := MoveCommand(m, p, s.mods);
      s' := StepRequest(c, s, m, p);
      assert s'.mods == s.mods[m := CommandMod(fate, s.mods[m], m, p)];
    }

    /** `process_pkt_socket` of thread `m` with an answer. */
    method OnAnswer(m: nat, p: Packet, ghost s: State) returns (ghost s': State)
      requires Represents(s) && Enabled(c, s, AnswerIn(m, p))
      modifies threads[m], threads[m].queue, threads[m].queue.elems
      ensures s' == Step(c, s, AnswerIn(m, p)) && Represents(s')
    {
      MoveAnswer(m, p, s.mods);
      s' := StepAnswer(c, s, m, p);
    }

    /** `process_pkt_sdb` of thread `m`. */
    method OnMail(m: nat, ghost s: State) returns (ghost s': State)
      requires Represents(s) && Enabled(c, s, ReadMail(m)) && BoxesOk(c, s)
      modifies threads[m], threads[m].region, threads[m].queue, threads[m].queue.elems
      ensures s' == Step(c, s, ReadMail(m)) && Represents(s')
    {
      MoveMail(m, s.mods);
      s' := StepRead(s, m);
    }

    /** `sdb_module_write_mcs_packet` of thread `m`, when it can go on. */
    method OnWrite(m: nat, ghost s: State) returns (o: Outcome, ghost s': State)
      requires Represents(s) && Enabled(c, s, Write(m)) && BoxesOk(c, s)
      modifies threads[m], threads[threads[m].thread.to],
               threads[threads[m].thread.to].region, threads[threads[m].thread.to].region.bytes
      ensures s' == Step(c, s, Write(m)) && Represents(s')
      ensures s'.overrun == (o == Overran) && (s'.deadlock <==> s.deadlock || o == Deadlocked)
    {
      assert Stands(c, threads[m], m, s.mods[m]) && BoxOk(c, s.mods[m]);
      var p, to := threads[m].thread.pkt, threads[m].thread.to;
      MoveIdle(m, s.mods);
      ghost var sent := s.mods[m := s.mods[m].(thread := Idle)];
      o := MoveReceive(to, m, p, sent);
      WriteInTwo(c, s, m, sent, o);
      s' := StepWrite(c, s, m);
    }
  }
}
