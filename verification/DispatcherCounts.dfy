/** What the dispatcher's two counters count, told by the states of a run alone. */
module DispatcherCounts {
  import opened Common
  import opened DispatcherModel
  import opened DispatcherInvariant

  /** The blocks whose held bit goes from clear to set. */
  ghost function NewlyHeld<P>(s: System<P>, s': System<P>): set<int> {
    set j | 0 <= j < 6 && j < |s.states| && j < |s'.states| && !s.states[j].held && s'.states[j].held
  }

  /** Some packet is in the queue of a block and was not there before. */
  ghost predicate Entered<P>(s: System<P>, s': System<P>) {
    exists j, p :: 0 <= j < 6 && j < |s.lists| && j < |s'.lists| && p in s'.lists[j] && p !in s.lists[j]
  }

  /** How often a held bit is set in a run. */
  ghost function TimesHeld<P>(run: seq<System<P>>): nat {
    if |run| < 2 then 0 else |NewlyHeld(run[0], run[1])| + TimesHeld(run[1..])
  }

  /** In how many turns of a run a packet enters a queue. */
  ghost function TimesQueued<P>(run: seq<System<P>>): nat {
    if |run| < 2 then 0 else (if Entered(run[0], run[1]) then 1 else 0) + TimesQueued(run[1..])
  }

  ghost predicate Counts<P>(s: System<P>, s': System<P>) {
    && s'.holdCount == s.holdCount + |NewlyHeld(s, s')|
    && s'.queueCount == s.queueCount + if Entered(s, s') then 1 else 0
  }

  /** Within a turn, before anything is queued or held: the queue of the block that runs may have
      lost a packet and no other queue has changed. */
  ghost predicate Quiet<P>(s: System<P>, m: System<P>) {
    && |s.lists| == |m.lists| == 12 && |s.states| == |m.states| == 6 && 0 <= s.cur < 6
    && (forall j :: 0 <= j < 6 ==> m.states[j].held == s.states[j].held)
    && (forall j :: 0 <= j < 6 && j != s.cur ==> m.lists[j] == s.lists[j])
    && (forall p :: p in m.lists[s.cur] ==> p in s.lists[s.cur])
    && m.holdCount == s.holdCount && m.queueCount == s.queueCount
  }

  lemma QuietCounts<P>(s: System<P>, m: System<P>)
    requires Quiet(s, m)
    ensures Counts(s, m)
  {
    assert NewlyHeld(s, m) == {};
  }

  lemma HoldCounts<P>(s: System<P>, m: System<P>)
    requires Quiet(s, m) && Shaped(m) && m.cur >= 0 && !m.states[m.cur].held
    ensures Counts(s, HoldCurrent(m))
  {
    assert NewlyHeld(s, HoldCurrent(m)) == {m.cur};
  }

  lemma QueueCounts<P>(s: System<P>, m: System<P>, p: P)
    requires Quiet(s, m) && Shaped(m) && m.cur >= 0 && p in m.content && 0 <= m.content[p].id < 6
    requires m.content[p].id != s.cur && p !in m.lists[m.content[p].id]
    ensures Counts(s, Queue(m, p))
  {
    var t := m.content[p].id;
    assert NewlyHeld(s, Queue(m, p)) == {};
    assert p in Queue(m, p).lists[t];
  }

  lemma NotThere<P>(s: System<P>, p: P)
    requires Conserved(s, {p}) && p in s.content
    ensures forall l :: 0 <= l < |s.lists| ==> p !in s.lists[l]
  {
    InHandElsewhere(s, p);
  }

  lemma FirstNotElsewhere<P>(s: System<P>, l: int, j: int)
    requires Shaped(s) && Conserved(s, {}) && 0 <= l < 12 && 0 <= j < 12 && j != l && s.lists[l] != []
    ensures s.lists[l][0] in s.content && s.lists[l][0] !in s.lists[j]
  {
  }

  lemma DeviceCounts<P>(s: System<P>, m: System<P>, packet: Option<P>)
    requires Quiet(s, m) && Running(m) && m.cur == s.cur && (m.cur == ID_DEVICE_A || m.cur == ID_DEVICE_B)
    requires packet.None? ==> Kept(m, {})
    requires packet.Some? ==> Kept(m, {packet.value}) && packet.value in m.content
    ensures Counts(s, RunDevice(m, packet))
  {
    hide Distinct, Somewhere, AllFit, BitsMatch, TasksOk, Fits, Conserved, Counts, Queue, HoldCurrent;
    var l := Slot(m.cur);
    match packet {
      case Some(p) =>
        HoldCounts(s, SetList(m, l, [p]));
      case None =>
        if m.lists[l] == [] {
          QuietCounts(s, SuspendCurrent(m));
        } else {
          var p := m.lists[l][0];
          FitsThere(m, l);
          FirstNotElsewhere(m, l, m.cur - 2);
          QueueCounts(s, SetList(m, l, []), p);
        }
    }
  }

  /** Whom the first packet in a place is addressed to. */
  lemma FitsThere<P>(s: System<P>, l: int)
    requires Kept(s, {}) && Works(ID_HANDLER_A) <= l < 12 && s.lists[l] != []
    ensures s.lists[l][0] in s.content
    ensures s.content[s.lists[l][0]].id ==
            if l == Works(ID_HANDLER_A) || l == Works(ID_HANDLER_B) then ID_WORKER
            else if l == Devices(ID_HANDLER_A) then ID_DEVICE_A
            else if l == Devices(ID_HANDLER_B) then ID_DEVICE_B
            else l - 8
  {
    assert Fits(l, s.content[s.lists[l][0]]);
  }

  lemma WorkerCounts<P>(s: System<P>, m: System<P>, packet: Option<P>)
    requires Quiet(s, m) && Running(m) && m.cur == s.cur == ID_WORKER
    requires packet.None? ==> Kept(m, {})
    requires packet.Some? ==> Kept(m, {packet.value}) && packet.value in m.content
    ensures Counts(s, RunWorker(m, packet))
  {
    hide Distinct, Somewhere, AllFit, BitsMatch, TasksOk, Fits, Conserved, Counts, Queue, Letters;
    match packet {
      case None =>
        QuietCounts(s, SuspendCurrent(m));
      case Some(p) =>
        NotThere(m, p);
        var v := if m.v1 == ID_HANDLER_A then ID_HANDLER_B else ID_HANDLER_A;
        var (a2, w) := Letters(m.content[p].a2, m.v2, DATA_SIZE);
        QueueCounts(s, SetContent(m, p, Content(v, m.content[p].kind, 0, a2)).(v1 := v, v2 := w), p);
    }
  }

  lemma ServeCounts<P>(s: System<P>, m: System<P>)
    requires Quiet(s, m) && Running(m) && m.cur == s.cur && (m.cur == ID_HANDLER_A || m.cur == ID_HANDLER_B)
    requires Kept(m, {})
    ensures Counts(s, Serve(m))
  {
    hide Distinct, Somewhere, AllFit, BitsMatch, TasksOk, Fits, Conserved, Counts, Queue;
    var l, l' := Works(m.cur), Devices(m.cur);
    var works, devices := m.lists[l], m.lists[l'];
    if works == [] {
      QuietCounts(s, SuspendCurrent(m));
    } else {
      var w := works[0];
      FitsThere(m, l);
      if m.content[w].a1 >= DATA_SIZE {
        FirstNotElsewhere(m, l, ID_WORKER);
        QueueCounts(s, SetList(m, l, works[1..]), w);
      } else if devices == [] {
        QuietCounts(s, SuspendCurrent(m));
      } else {
        var v := devices[0];
        FitsThere(m, l');
        FirstNotElsewhere(m, l', m.cur + 2);
        FirstNotElsewhere(m, l, l');
        var m' := PassLetter(SetList(m, l', devices[1..]), v, w);
        assert m'.content[v].id == m.cur + 2 && v in m'.content && Shaped(m');
        QueueCounts(s, m', v);
      }
    }
  }

  lemma HandlerCounts<P>(s: System<P>, m: System<P>, packet: Option<P>)
    requires Quiet(s, m) && Running(m) && m.cur == s.cur && (m.cur == ID_HANDLER_A || m.cur == ID_HANDLER_B)
    requires packet.None? ==> Kept(m, {})
    requires packet.Some? ==> Kept(m, {packet.value}) && packet.value in m.content
    requires packet.Some? ==> Fits(m.cur, m.content[packet.value])
    ensures Counts(s, RunHandler(m, packet))
  {
    hide Distinct, Somewhere, AllFit, BitsMatch, TasksOk, Fits, Conserved, Counts, Serve;
    match packet {
      case None =>
        ServeCounts(s, m);
      case Some(p) =>
        FileKept(m, p);
        ServeCounts(s, File(m, p));
    }
  }

  lemma IdleCounts<P>(s: System<P>)
    requires Quiet(s, s) && Kept(s, {}) && s.cur == ID_IDLE && s.count > 0
    ensures Counts(s, RunIdle(s))
  {
    hide Distinct, Somewhere, AllFit, BitsMatch, Fits, Conserved, Counts;
    if s.count == 1 {
      HoldCounts(s.(count := 0), s.(count := 0));
      SameBefore(s, s.(count := 0), RunIdle(s));
    } else {
      ReleaseCounts(s, RunIdle(s), if s.seed % 2 == 0 then ID_DEVICE_A else ID_DEVICE_B);
    }
  }

  lemma ReleaseCounts<P>(s: System<P>, s': System<P>, id: int)
    requires Shaped(s) && 0 <= id < 6 && s'.lists == s.lists && s'.states == s.states[id := s.states[id].(held := false)]
    requires s'.holdCount == s.holdCount && s'.queueCount == s.queueCount
    ensures Counts(s, s')
  {
    assert NewlyHeld(s, s') == {};
  }

  /** One turn moves the counters by what happens in it. */
  lemma StepCounts<P>(s: System<P>)
    requires Inv(s) && s.cur >= 0
    ensures Counts(s, Step(s))
  {
    hide Distinct, Somewhere, AllFit, BitsMatch, SlotsSafe, TasksOk, Fits, Conserved, Counts;
    hide RunHandler, RunWorker, RunDevice, RunIdle;
    var s0 := s.(curId := s.cur);
    SamePackets(s, s0, {});
    Skipped(s);
    if HeldOrSuspended(s.states[s.cur]) {
      QuietCounts(s, Step(s));
    } else if s.cur == ID_IDLE {
      InvBounds(s);
      IdleNotRunnable(s0);
      IdleCounts(s0);
      SameBefore(s, s0, Step(s));
    } else if s.states[s.cur] == SUSPENDED_RUNNABLE {
      TakeKept(s0);
      TaskCounts(s, Take(s0), Some(s.lists[s.cur][0]));
    } else {
      AwakeHasPacket(s0);
      TaskCounts(s, s0, None);
    }
  }

  lemma SameBefore<P>(s: System<P>, s0: System<P>, s': System<P>)
    requires Counts(s0, s') && s0 == s.(curId := s0.curId, count := s0.count)
    ensures Counts(s, s')
  {
    assert NewlyHeld(s, s') == NewlyHeld(s0, s');
    assert Entered(s, s') <==> Entered(s0, s');
  }

  lemma TaskCounts<P>(s: System<P>, m: System<P>, packet: Option<P>)
    requires Quiet(s, m) && Running(m) && m.cur == s.cur
    requires packet.None? ==> Kept(m, {})
    requires packet.Some? ==> Kept(m, {packet.value}) && packet.value in m.content
    requires packet.Some? ==> Fits(m.cur, m.content[packet.value])
    ensures Counts(s, RunTask(m, packet))
  {
    hide Distinct, Somewhere, AllFit, BitsMatch, SlotsSafe, TasksOk, Fits, Conserved, Counts;
    hide RunHandler, RunWorker, RunDevice;
    if s.cur == ID_WORKER {
      WorkerCounts(s, m, packet);
    } else if s.cur <= ID_HANDLER_B {
      HandlerCounts(s, m, packet);
    } else {
      DeviceCounts(s, m, packet);
    }
  }

  /** Over every run the hold count grows by the number of times a held bit is set, and the
      queue count by the number of turns in which a packet enters a queue. */
  lemma {:induction false} RunCounts<P>(s: System<P>)
    requires Inv(s)
    ensures var r := Run(s);
            && r != []
            && r[|r| - 1].holdCount == s.holdCount + TimesHeld(r)
            && r[|r| - 1].queueCount == s.queueCount + TimesQueued(r)
    decreases s.count, TotalWeight(s, 12), Awake(s.states), s.cur + 1
  {
    hide Kept, TotalWeight, Awake, Step, NewlyHeld, Entered;
    InvBounds(s);
    if s.cur < 0 {
    } else {
      StepKeeps(s);
      StepCounts(s);
      InvBounds(Step(s));
      RunCounts(Step(s));
      assert Run(s)[1..] == Run(Step(s));
      assert Run(Step(s))[0] == Step(s);
    }
  }
}
