/** What every step of the dispatcher keeps, and why a run ends. */
module DispatcherInvariant {
  import opened Common
  import opened DispatcherModel

  // ----- one lemma for each thing a task does

  /** Putting the packet in hand at the end of one of a handler's own lists. */
  lemma FileKept<P>(s: System<P>, p: P)
    requires Kept(s, {p}) && p in s.content && (s.cur == ID_HANDLER_A || s.cur == ID_HANDLER_B)
    requires Fits(s.cur, s.content[p])
    ensures Kept(File(s, p), {})
    ensures TotalWeight(File(s, p), 12) < TotalWeight(s, 12) + Weight(s.cur, s.content[p], false)
  {
    hide Distinct, Somewhere, TotalWeight, ListWeight;
    var l := if s.content[p].kind == Work then Works(s.cur) else Devices(s.cur);
    PutConserved(s, l, p);
    WeightsElsewhere(s, File(s, p), l);
    ListWeightPut(s.lists[l], p, l, s.content, false);
  }

  /** What handing over the packet p does to the lists, the weights and the states. */
  ghost predicate MayQueue<P>(s: System<P>, p: P) {
    && Kept(s, {p}) && p in s.content && s.cur >= 0 && 1 <= s.content[p].id < 6
    && Fits(s.content[p].id, s.content[p].(id := s.curId))
  }

  /** The addressee's list and the packet's address, without the states. */
  ghost function Delivered<P>(s: System<P>, p: P): System<P>
    requires Shaped(s) && p in s.content && 0 <= s.content[p].id < 6
  {
    var t := s.content[p].id;
    SetList(SetContent(s, p, s.content[p].(id := s.curId)), t, s.lists[t] + [p])
  }

  lemma DeliveredLists<P>(s: System<P>, p: P)
    requires MayQueue(s, p)
    ensures Shaped(Delivered(s, p)) && Conserved(Delivered(s, p), {}) && AllFit(Delivered(s, p))
    ensures TotalWeight(Delivered(s, p), 12) == TotalWeight(s, 12) + Weight(s.content[p].id, s.content[p], false)
  {
    hide BitsMatch, SlotsSafe, TasksOk;
    InHandElsewhere(s, p);
    hide Distinct, Somewhere, TotalWeight, ListWeight;
    var t, s0, s' := s.content[p].id, SetContent(s, p, s.content[p].(id := s.curId)), Delivered(s, p);
    DeliveredFit(s, p);
    ContentConserved(s, s0, {p});
    PutConserved(s0, t, p);
    hide AllFit, Conserved, Fits;
    DeliveredWeight(s, p);
  }

  lemma DeliveredWeight<P>(s: System<P>, p: P)
    requires Shaped(s) && p in s.content && 1 <= s.content[p].id < 6
    requires forall l, i :: 0 <= l < 12 && 0 <= i < |s.lists[l]| ==> s.lists[l][i] != p
    ensures TotalWeight(Delivered(s, p), 12) == TotalWeight(s, 12) + Weight(s.content[p].id, s.content[p], false)
  {
    hide TotalWeight, ListWeight;
    var t, s' := s.content[p].id, Delivered(s, p);
    WeightsElsewhere(s, s', t);
    ListWeightPut(s.lists[t], p, t, s'.content, false);
    ListWeightSame(s.lists[t], t, s.content, s'.content, false);
  }

  lemma DeliveredFit<P>(s: System<P>, p: P)
    requires MayQueue(s, p)
    requires forall l, i :: 0 <= l < |s.lists| && 0 <= i < |s.lists[l]| ==> s.lists[l][i] != p
    ensures AllFit(Delivered(s, p))
  {
    hide BitsMatch, SlotsSafe, TasksOk, Conserved;
    var t, c, s' := s.content[p].id, s.content[p].(id := s.curId), Delivered(s, p);
    hide Fits;
    forall l, i | 0 <= l < 12 && 0 <= i < |s'.lists[l]| ensures Fits(l, s'.content[s'.lists[l][i]]) {
      if l != t || i < |s.lists[l]| {
        assert s'.lists[l][i] == s.lists[l][i];
      }
    }
  }

  /** Only states, the control and counters differ. */
  lemma SamePackets<P>(s: System<P>, s': System<P>, hand: set<P>)
    requires Shaped(s) && Conserved(s, hand) && AllFit(s)
    requires s'.lists == s.lists && s'.content == s.content && |s'.states| == 6 && -1 <= s'.cur < 6
    ensures Shaped(s') && Conserved(s', hand) && AllFit(s')
    ensures (forall d :: 4 <= d < 6 ==> s'.states[d].held == s.states[d].held) ==>
              TotalWeight(s', 12) == TotalWeight(s, 12)
  {
    hide Distinct, Somewhere, TotalWeight, ListWeight, Fits;
    if forall d :: 4 <= d < 6 ==> s'.states[d].held == s.states[d].held {
      hide AllFit;
      WeightsElsewhere(s, s', -1);
    }
  }

  /** Handing the packet in hand to the block it is addressed to. */
  lemma QueueKept<P>(s: System<P>, p: P)
    requires MayQueue(s, p)
    ensures Kept(Queue(s, p), {})
    ensures Queue(s, p).cur >= 0 && Queue(s, p).count == s.count
    ensures TotalWeight(Queue(s, p), 12) == TotalWeight(s, 12) + Weight(s.content[p].id, s.content[p], false)
  {
    hide Distinct, Somewhere, TotalWeight, ListWeight, AllFit, Conserved, Fits, BitsMatch, SlotsSafe, TasksOk;
    DeliveredLists(s, p);
    SamePackets(Delivered(s, p), Queue(s, p), {});
    QueueStates(s, p);
  }

  lemma QueueStates<P>(s: System<P>, p: P)
    requires MayQueue(s, p)
    ensures BitsMatch(Queue(s, p)) && SlotsSafe(Queue(s, p)) && TasksOk(Queue(s, p))
  {
    hide AllFit, Conserved, Fits;
    var t := s.content[p].id;
    assert Queue(s, p).lists == s.lists[t := s.lists[t] + [p]];
  }

  lemma InHandElsewhere<P>(s: System<P>, p: P)
    requires Conserved(s, {p}) && p in s.content
    ensures forall l, i :: 0 <= l < |s.lists| && 0 <= i < |s.lists[l]| ==> s.lists[l][i] != p
  {
    assert !Somewhere(s.lists, p);
  }

  lemma SuspendKept<P>(s: System<P>)
    requires Kept(s, {}) && s.cur > 0 && (s.cur >= ID_DEVICE_A ==> s.lists[Slot(s.cur)] == [])
    requires !s.states[s.cur].suspended
    ensures Kept(SuspendCurrent(s), {})
    ensures TotalWeight(SuspendCurrent(s), 12) == TotalWeight(s, 12)
    ensures Awake(SuspendCurrent(s).states) < Awake(s.states)
  {
    hide Distinct, Somewhere, TotalWeight, ListWeight, AllFit, Conserved, Fits;
    SamePackets(s, SuspendCurrent(s), {});
    AwakeChange(s.states, s.cur, s.states[s.cur].(suspended := true));
  }

  /** A device with an empty slot keeps the packet and is held. */
  lemma AcceptKept<P>(s: System<P>, p: P)
    requires Kept(s, {p}) && p in s.content && (s.cur == ID_DEVICE_A || s.cur == ID_DEVICE_B)
    requires s.lists[Slot(s.cur)] == [] && !s.states[s.cur].suspended && Fits(s.cur, s.content[p])
    ensures Kept(RunDevice(s, Some(p)), {})
    ensures TotalWeight(RunDevice(s, Some(p)), 12) == TotalWeight(s, 12)
  {
    hide Distinct, Somewhere, TotalWeight, ListWeight;
    var l := Slot(s.cur);
    assert s.lists[l] + [p] == [p];
    PutConserved(s, l, p);
    SlotFits(s, p);
    hide Fits;
    SamePackets(SetList(s, l, [p]), RunDevice(s, Some(p)), {});
    hide AllFit, Conserved;
    AcceptedWeight(s, p);
  }

  lemma AcceptedWeight<P>(s: System<P>, p: P)
    requires Shaped(s) && p in s.content && (s.cur == ID_DEVICE_A || s.cur == ID_DEVICE_B)
    requires s.lists[Slot(s.cur)] == []
    ensures TotalWeight(RunDevice(s, Some(p)), 12) == TotalWeight(s, 12)
  {
    hide TotalWeight, ListWeight;
    var l, s' := Slot(s.cur), RunDevice(s, Some(p));
    WeightsElsewhere(s, s', l);
    ListWeightPut([], p, l, s.content, true);
    assert [] + [p] == [p];
    assert WeightAt(s', l) == ListWeight([], l, s.content, true);
    EmptyWeight(l, s.content, true);
    EmptyWeight(l, s.content, HeldAt(s, l));
  }

  lemma EmptyWeight<P>(l: int, content: map<P, Content>, held: bool)
    ensures ListWeight([], l, content, held) == 0
  {
  }

  lemma SlotFits<P>(s: System<P>, p: P)
    requires Shaped(s) && AllFit(s) && p in s.content && (s.cur == ID_DEVICE_A || s.cur == ID_DEVICE_B)
    requires Fits(s.cur, s.content[p])
    ensures AllFit(SetList(s, Slot(s.cur), [p]))
  {
  }

  /** Taking the first packet off the current block's queue. */
  lemma TakeKept<P>(s: System<P>)
    requires Kept(s, {}) && s.cur >= 0 && s.states[s.cur] == SUSPENDED_RUNNABLE
    ensures s.cur > 0 && s.lists[s.cur] != []
    ensures var p := s.lists[s.cur][0];
            && p in s.content && Kept(Take(s), {p}) && Fits(s.cur, s.content[p])
            && TotalWeight(s, 12) == TotalWeight(Take(s), 12) + Weight(s.cur, s.content[p], false)
    ensures s.cur >= ID_DEVICE_A ==> Take(s).lists[Slot(s.cur)] == []
  {
    hide Distinct, Somewhere, TotalWeight, ListWeight, Fits, AllFit, Conserved, BitsMatch, SlotsSafe, TasksOk;
    IdleQueueEmpty(s);
    TakenStates(s);
    TakenLists(s);
    SamePackets(SetList(s, s.cur, s.lists[s.cur][1..]), Take(s), {s.lists[s.cur][0]});
  }

  lemma IdleQueueEmpty<P>(s: System<P>)
    requires Kept(s, {}) && s.cur >= 0 && s.states[s.cur] == SUSPENDED_RUNNABLE
    ensures s.cur > 0 && s.lists[s.cur] != []
  {
    hide Conserved, Fits, SlotsSafe, AllFit;
  }

  lemma TakenStates<P>(s: System<P>)
    requires Kept(s, {}) && s.cur > 0 && s.states[s.cur] == SUSPENDED_RUNNABLE && s.lists[s.cur] != []
    ensures Shaped(Take(s)) && BitsMatch(Take(s)) && SlotsSafe(Take(s)) && TasksOk(Take(s))
    ensures s.cur >= ID_DEVICE_A ==> Take(s).lists[Slot(s.cur)] == []
  {
    hide AllFit, Conserved, Fits;
  }

  lemma TakenLists<P>(s: System<P>)
    requires Kept(s, {}) && s.cur > 0 && s.lists[s.cur] != []
    ensures var p, s1 := s.lists[s.cur][0], SetList(s, s.cur, s.lists[s.cur][1..]);
            && p in s.content && Shaped(s1) && Conserved(s1, {p}) && AllFit(s1) && Fits(s.cur, s.content[p])
            && TotalWeight(s, 12) == TotalWeight(s1, 12) + Weight(s.cur, s.content[p], false)
  {
    hide Distinct, Somewhere, TotalWeight, ListWeight, Fits, BitsMatch, SlotsSafe, TasksOk;
    var s1 := SetList(s, s.cur, s.lists[s.cur][1..]);
    DropConserved(s, s.cur);
    assert AllFit(s1) by {
      hide Conserved;
    }
    hide AllFit, Conserved;
    WeightsElsewhere(s, s1, s.cur);
    ListWeightDrop(s.lists[s.cur], s.cur, s.content, false);
  }

  // ----- the tasks

  /** One turn brings the run closer to its end. */
  ghost predicate Closer<P>(s: System<P>, s': System<P>)
    requires |s.lists| == |s'.lists| == 12
  {
    var (w, w', a, a') := (TotalWeight(s, 12), TotalWeight(s', 12), Awake(s.states), Awake(s'.states));
    || s'.count < s.count
    || (s'.count == s.count && (w' < w || (w' == w && (a' < a || (a' == a && s'.cur < s.cur)))))
  }

  /** What running the current block, not suspended now and with a packet of the given weight
      in hand, achieves. */
  ghost predicate Moved<P>(s: System<P>, s': System<P>, inHand: nat) {
    && Shaped(s) && Kept(s', {}) && s'.cur >= 0 && s'.count == s.count
    && var (w, w') := (TotalWeight(s, 12) + inHand, TotalWeight(s', 12));
    (w' < w || (inHand == 0 && w' == w && Awake(s'.states) < Awake(s.states)))
  }

  /** The current block runs under its own identity. */
  ghost predicate Running<P>(s: System<P>) {
    0 < s.cur < |s.states| && s.curId == s.cur && !s.states[s.cur].suspended && !s.states[s.cur].held
  }

  lemma DeviceRuns<P>(s: System<P>, packet: Option<P>)
    requires Running(s) && (s.cur == ID_DEVICE_A || s.cur == ID_DEVICE_B)
    requires packet.None? ==> Kept(s, {})
    requires packet.Some? ==> Kept(s, {packet.value}) && packet.value in s.content
    requires packet.Some? ==> s.lists[Slot(s.cur)] == [] && Fits(s.cur, s.content[packet.value])
    ensures Moved(s, RunDevice(s, packet), if packet.Some? then Weight(s.cur, s.content[packet.value], false) else 0)
  {
    hide Distinct, Somewhere, TotalWeight, ListWeight, Conserved, AllFit, BitsMatch, TasksOk;
    match packet {
      case Some(p) =>
        AcceptKept(s, p);
      case None =>
        if s.lists[Slot(s.cur)] == [] {
          SuspendKept(s);
        } else {
          SlotEmptied(s);
          QueueKept(SetList(s, Slot(s.cur), []), s.lists[Slot(s.cur)][0]);
        }
    }
  }

  /** A released device passes its packet on to its handler. */
  lemma SlotEmptied<P>(s: System<P>)
    requires Running(s) && (s.cur == ID_DEVICE_A || s.cur == ID_DEVICE_B) && Kept(s, {})
    requires s.lists[Slot(s.cur)] != []
    ensures var p, s1 := s.lists[Slot(s.cur)][0], SetList(s, Slot(s.cur), []);
            && MayQueue(s1, p) && Weight(s.content[p].id, s.content[p], false) < 16
            && TotalWeight(s, 12) == TotalWeight(s1, 12) + 16
  {
    var l := Slot(s.cur);
    var p, s1 := s.lists[l][0], SetList(s, l, []);
    assert s.lists[l][1..] == [];
    hide Distinct, Somewhere, TotalWeight, ListWeight, AllFit, Conserved;
    DropConserved(s, l);
    EmptiedFits(s, l);
    EmptiedWeight(s, l);
  }

  lemma EmptiedWeight<P>(s: System<P>, l: int)
    requires Shaped(s) && 0 <= l < 12 && |s.lists[l]| == 1
    ensures TotalWeight(s, 12) ==
            TotalWeight(SetList(s, l, []), 12) + Weight(l, s.content[s.lists[l][0]], HeldAt(s, l))
  {
    hide TotalWeight, ListWeight;
    assert s.lists[l][1..] == [];
    WeightsElsewhere(s, SetList(s, l, []), l);
    ListWeightDrop(s.lists[l], l, s.content, HeldAt(s, l));
    EmptyWeight(l, s.content, HeldAt(s, l));
  }

  lemma EmptiedFits<P>(s: System<P>, l: int)
    requires AllFit(s) && 0 <= l < |s.lists| && s.lists[l] != [] && s.lists[l][0] in s.content
    ensures AllFit(SetList(s, l, [])) && AllFit(SetList(s, l, s.lists[l][1..])) && Fits(l, s.content[s.lists[l][0]])
  {
    hide Fits;
  }

  lemma {:induction false} LettersAreLetters(a2: map<int, int>, v: int, n: nat)
    requires 0 <= v <= 26
    ensures 0 <= Letters(a2, v, n).1 <= 26
    ensures forall k :: 0 <= k < n ==> k in Letters(a2, v, n).0 && 1 <= Letters(a2, v, n).0[k] <= 26
  {
    if n == 0 {
    } else {
      LettersAreLetters(a2, v, n - 1);
    }
  }

  /** The worker writes the letters 1 to 26 round and round, and nothing else into the payload. */
  lemma {:induction false} LettersInTurn(a2: map<int, int>, v: int, n: nat)
    requires 0 <= v <= 26
    ensures Letters(a2, v, n).1 == if n == 0 then v else (v + n - 1) % 26 + 1
    ensures forall k :: 0 <= k < n ==> k in Letters(a2, v, n).0 && Letters(a2, v, n).0[k] == (v + k) % 26 + 1
    ensures forall k :: !(0 <= k < n) ==>
              (k in Letters(a2, v, n).0 <==> k in a2) && (k in a2 ==> Letters(a2, v, n).0[k] == a2[k])
  {
    if n == 0 {
    } else {
      LettersInTurn(a2, v, n - 1);
    }
  }

  lemma WorkerRuns<P>(s: System<P>, packet: Option<P>)
    requires Running(s) && s.cur == ID_WORKER
    requires packet.None? ==> Kept(s, {})
    requires packet.Some? ==> Kept(s, {packet.value}) && packet.value in s.content
    requires packet.Some? ==> Fits(s.cur, s.content[packet.value])
    ensures Moved(s, RunWorker(s, packet), if packet.Some? then 2 else 0)
  {
    hide Distinct, Somewhere, TotalWeight, ListWeight, Conserved, AllFit, BitsMatch, SlotsSafe, Letters;
    match packet {
      case None =>
        SuspendKept(s);
      case Some(p) =>
        LettersAreLetters(s.content[p].a2, s.v2, DATA_SIZE);
        var v := if s.v1 == ID_HANDLER_A then ID_HANDLER_B else ID_HANDLER_A;
        var (a2, w) := Letters(s.content[p].a2, s.v2, DATA_SIZE);
        var c := Content(v, s.content[p].kind, 0, a2);
        RewriteInHand(s, p, c);
        hide TasksOk;
        var s1 := SetContent(s, p, c);
        var s2 := s1.(v1 := v, v2 := w);
        TasksOnly(s1, s2, p);
        QueueKept(s2, p);
    }
  }

  /** A work packet leaves the worker with the next four letters and none passed on, for the
      handler that did not get the packet before. */
  lemma WorkerWrites<P>(s: System<P>, p: P)
    requires Running(s) && s.cur == ID_WORKER && Kept(s, {p}) && p in s.content
    ensures var s' := RunWorker(s, Some(p));
            && Shaped(s') && p in s'.content && s'.content[p].a1 == 0 && s'.content[p].kind == s.content[p].kind
            && (forall k :: 0 <= k < DATA_SIZE ==> k in s'.content[p].a2 && s'.content[p].a2[k] == (s.v2 + k) % 26 + 1)
            && s'.v2 == (s.v2 + DATA_SIZE - 1) % 26 + 1
            && s'.v1 == ID_HANDLER_A + ID_HANDLER_B - s.v1 && s'.lists[s'.v1] == s.lists[s'.v1] + [p]
  {
    hide Conserved, AllFit, BitsMatch, SlotsSafe, Letters;
    LettersInTurn(s.content[p].a2, s.v2, DATA_SIZE);
    assert Shaped(RunWorker(s, Some(p))) by {
      hide TasksOk;
    }
  }

  lemma TasksOnly<P>(s: System<P>, s': System<P>, p: P)
    requires Kept(s, {p}) && s' == s.(v1 := s'.v1, v2 := s'.v2)
    requires (s'.v1 == ID_HANDLER_A || s'.v1 == ID_HANDLER_B) && 0 <= s'.v2 <= 26
    ensures Kept(s', {p}) && TotalWeight(s', 12) == TotalWeight(s, 12)
  {
    hide Distinct, Somewhere, TotalWeight, ListWeight, Fits, AllFit, Conserved;
    SamePackets(s, s', {p});
  }

  /** The packet in hand may be written to freely. */
  lemma RewriteInHand<P>(s: System<P>, p: P, c: Content)
    requires Kept(s, {p}) && p in s.content
    ensures Kept(SetContent(s, p, c), {p})
    ensures TotalWeight(SetContent(s, p, c), 12) == TotalWeight(s, 12)
  {
    InHandElsewhere(s, p);
    hide Distinct, Somewhere, TotalWeight, ListWeight, Fits;
    ContentConserved(s, SetContent(s, p, c), {p});
    hide Conserved;
    WeightsElsewhere(s, SetContent(s, p, c), -1);
  }

  /** Taking the first packet off one of a handler's own lists. */
  lemma HandlerDrops<P>(s: System<P>, l: int)
    requires Kept(s, {}) && Works(ID_HANDLER_A) <= l <= Devices(ID_HANDLER_B) && s.lists[l] != []
    ensures var p, s1 := s.lists[l][0], SetList(s, l, s.lists[l][1..]);
            && p in s.content && Kept(s1, {p}) && Fits(l, s.content[p])
            && TotalWeight(s, 12) == TotalWeight(s1, 12) + Weight(l, s.content[p], false)
  {
    hide Distinct, Somewhere, TotalWeight, ListWeight, Fits, AllFit, Conserved, Weight;
    DropConserved(s, l);
    DroppedFits(s, l);
    hide BitsMatch, SlotsSafe, TasksOk;
    DroppedStates(s, l);
    DroppedWeight(s, l);
  }

  lemma DroppedStates<P>(s: System<P>, l: int)
    requires Shaped(s) && BitsMatch(s) && SlotsSafe(s) && TasksOk(s)
    requires Works(ID_HANDLER_A) <= l <= Devices(ID_HANDLER_B) && s.lists[l] != []
    ensures var s1 := SetList(s, l, s.lists[l][1..]); Shaped(s1) && BitsMatch(s1) && SlotsSafe(s1) && TasksOk(s1)
  {
  }

  lemma DroppedWeight<P>(s: System<P>, l: int)
    requires Shaped(s) && Works(ID_HANDLER_A) <= l <= Devices(ID_HANDLER_B) && s.lists[l] != []
    ensures TotalWeight(s, 12) ==
            TotalWeight(SetList(s, l, s.lists[l][1..]), 12) + Weight(l, s.content[s.lists[l][0]], false)
  {
    hide TotalWeight, ListWeight;
    WeightsElsewhere(s, SetList(s, l, s.lists[l][1..]), l);
    ListWeightDrop(s.lists[l], l, s.content, false);
  }

  lemma DroppedFits<P>(s: System<P>, l: int)
    requires AllFit(s) && 0 <= l < |s.lists| && s.lists[l] != [] && s.lists[l][0] in s.content
    ensures AllFit(SetList(s, l, s.lists[l][1..])) && Fits(l, s.content[s.lists[l][0]])
  {
    hide Fits;
  }

  /** The first packet of a work list is advanced by one letter. */
  lemma WorkAdvanced<P>(s: System<P>, l: int, hand: set<P>)
    requires Kept(s, hand) && (l == Works(ID_HANDLER_A) || l == Works(ID_HANDLER_B)) && s.lists[l] != []
    requires s.lists[l][0] in s.content && s.content[s.lists[l][0]].a1 < DATA_SIZE
    ensures var w := s.lists[l][0];
            var s' := SetContent(s, w, s.content[w].(a1 := s.content[w].a1 + 1));
            Kept(s', hand) && TotalWeight(s', 12) <= TotalWeight(s, 12) + 3
  {
    var w := s.lists[l][0];
    var s' := SetContent(s, w, s.content[w].(a1 := s.content[w].a1 + 1));
    hide TotalWeight, ListWeight, BitsMatch, SlotsSafe, TasksOk, Weight;
    FirstOnlyThere(s, l);
    hide Distinct, Somewhere;
    SameKeys(s, w, s'.content[w]);
    ContentConserved(s, s', hand);
    hide Conserved;
    AdvancedFits(s, l, w, s');
    hide AllFit, Fits;
    SameStates(s, s');
    AdvancedWeight(s, l, w, s');
  }

  lemma AdvancedWeight<P>(s: System<P>, l: int, w: P, s': System<P>)
    requires Shaped(s) && (l == Works(ID_HANDLER_A) || l == Works(ID_HANDLER_B)) && s.lists[l] != []
    requires w == s.lists[l][0] && s.content[w].a1 < DATA_SIZE
    requires s' == SetContent(s, w, s.content[w].(a1 := s.content[w].a1 + 1))
    requires forall m, i :: 0 <= m < 12 && 0 <= i < |s.lists[m]| && m != l ==> s.lists[m][i] != w
    requires forall p :: p in s.lists[l][1..] ==> p != w
    ensures TotalWeight(s', 12) <= TotalWeight(s, 12) + 3
  {
    hide TotalWeight, ListWeight;
    WeightsElsewhere(s, s', l);
    ListWeightDrop(s.lists[l], l, s.content, false);
    ListWeightDrop(s.lists[l], l, s'.content, false);
    ListWeightSame(s.lists[l][1..], l, s.content, s'.content, false);
  }

  lemma SameStates<P>(s: System<P>, s': System<P>)
    requires Shaped(s) && Shaped(s') && s' == s.(content := s'.content)
    ensures BitsMatch(s) ==> BitsMatch(s')
    ensures SlotsSafe(s) ==> SlotsSafe(s')
    ensures TasksOk(s) ==> TasksOk(s')
  {
  }

  lemma FirstOnlyThere<P>(s: System<P>, l: int)
    requires Shaped(s) && Distinct(s.lists) && 0 <= l < 12 && s.lists[l] != []
    ensures forall m, i :: 0 <= m < 12 && 0 <= i < |s.lists[m]| && m != l ==> s.lists[m][i] != s.lists[l][0]
    ensures forall p :: p in s.lists[l][1..] ==> p != s.lists[l][0]
  {
  }

  lemma AdvancedFits<P>(s: System<P>, l: int, w: P, s': System<P>)
    requires Shaped(s) && AllFit(s) && (l == Works(ID_HANDLER_A) || l == Works(ID_HANDLER_B)) && s.lists[l] != []
    requires w == s.lists[l][0] && w in s.content && s.content[w].a1 < DATA_SIZE
    requires s' == SetContent(s, w, s.content[w].(a1 := s.content[w].a1 + 1))
    requires forall m, i :: 0 <= m < 12 && 0 <= i < |s.lists[m]| && m != l ==> s.lists[m][i] != w
    ensures AllFit(s')
  {
    assert Fits(l, s'.content[w]);
    hide Fits;
    forall m, i | 0 <= m < 12 && 0 <= i < |s.lists[m]| ensures Fits(m, s'.content[s.lists[m][i]]) {
      if s.lists[m][i] != w {
        assert Fits(m, s.content[s.lists[m][i]]);
      }
    }
  }

  lemma ServeRuns<P>(s: System<P>)
    requires Running(s) && (s.cur == ID_HANDLER_A || s.cur == ID_HANDLER_B) && Kept(s, {})
    ensures Moved(s, Serve(s), 0)
  {
    hide Distinct, Somewhere, TotalWeight, ListWeight, Conserved, AllFit, BitsMatch, SlotsSafe, TasksOk;
    var l, l' := Works(s.cur), Devices(s.cur);
    var works, devices := s.lists[l], s.lists[l'];
    if works == [] {
      SuspendKept(s);
    } else {
      HandlerDrops(s, l);
      if s.content[works[0]].a1 >= DATA_SIZE {
        QueueKept(SetList(s, l, works[1..]), works[0]);
      } else if devices == [] {
        SuspendKept(s);
      } else {
        LetterPassed(s);
      }
    }
  }

  /** A device packet takes a letter of the first work packet to the device. */
  lemma LetterPassed<P>(s: System<P>)
    requires Running(s) && (s.cur == ID_HANDLER_A || s.cur == ID_HANDLER_B) && Kept(s, {})
    requires s.lists[Works(s.cur)] != [] && s.content[s.lists[Works(s.cur)][0]].a1 < DATA_SIZE
    requires s.lists[Devices(s.cur)] != []
    ensures Moved(s, Serve(s), 0)
    ensures var w, v, s' := s.lists[Works(s.cur)][0], s.lists[Devices(s.cur)][0], Serve(s);
            var c := s.content[w];
            && c.a1 in c.a2 && 1 <= c.a2[c.a1] <= 26
            && s'.content[v].a1 == c.a2[c.a1] && s'.content[w] == c.(a1 := c.a1 + 1)
            && s'.lists[s.cur + 2] == s.lists[s.cur + 2] + [v]
  {
    hide Distinct, Somewhere, TotalWeight, ListWeight, Conserved, AllFit, BitsMatch, SlotsSafe, TasksOk;
    var l, l' := Works(s.cur), Devices(s.cur);
    var w, v := s.lists[l][0], s.lists[l'][0];
    HandlerDrops(s, l);
    HandlerDrops(s, l');
    NotInHand(s, l, l');
    var s1 := SetList(s, l', s.lists[l'][1..]);
    var c := s.content[w];
    var s2 := SetContent(s1, v, s.content[v].(a1 := if c.a1 in c.a2 then c.a2[c.a1] else 0));
    RewriteInHand(s1, v, s2.content[v]);
    WorkAdvanced(s2, l, {v});
    var s3 := SetContent(s2, w, s2.content[w].(a1 := c.a1 + 1));
    QueueKept(s3, v);
  }

  lemma NotInHand<P>(s: System<P>, l: int, l': int)
    requires Shaped(s) && Conserved(s, {}) && 0 <= l < 12 && 0 <= l' < 12 && l != l'
    requires s.lists[l] != [] && s.lists[l'] != []
    ensures s.lists[l][0] != s.lists[l'][0]
  {
  }

  lemma HandlerRuns<P>(s: System<P>, packet: Option<P>)
    requires Running(s) && (s.cur == ID_HANDLER_A || s.cur == ID_HANDLER_B)
    requires packet.None? ==> Kept(s, {})
    requires packet.Some? ==> Kept(s, {packet.value}) && packet.value in s.content
    requires packet.Some? ==> Fits(s.cur, s.content[packet.value])
    ensures Moved(s, RunHandler(s, packet),
                  if packet.Some? then Weight(s.cur, s.content[packet.value], false) else 0)
  {
    hide Conserved, AllFit, BitsMatch, SlotsSafe, TasksOk, TotalWeight, Serve, Fits;
    if packet.Some? {
      FileKept(s, packet.value);
      ServeRuns(File(s, packet.value));
    } else {
      ServeRuns(s);
    }
  }

  lemma IdleRuns<P>(s: System<P>)
    requires Kept(s, {}) && s.cur == ID_IDLE && s.count > 0
    ensures Inv(RunIdle(s)) && RunIdle(s).count == s.count - 1
  {
    hide Distinct, Somewhere, TotalWeight, ListWeight, AllFit, Conserved, Fits;
    SamePackets(s, RunIdle(s), {});
  }

  /** One turn of the loop keeps the invariant and brings the end closer. */
  lemma StepKeeps<P>(s: System<P>)
    requires Inv(s) && s.cur >= 0
    ensures Inv(Step(s)) && Closer(s, Step(s))
    ensures Step(s).count == s.count - (if s.cur == ID_IDLE then 1 else 0)
    ensures Step(s).content.Keys == s.content.Keys
  {
    hide Distinct, Somewhere, TotalWeight, ListWeight, AllFit, Conserved, Fits, BitsMatch, SlotsSafe;
    StepKeepsPackets(s);
    if HeldOrSuspended(s.states[s.cur]) {
      SamePackets(s, Step(s), {});
      Skipped(s);
    } else {
      var s0 := s.(curId := s.cur);
      SamePackets(s, s0, {});
      Skipped(s);
      if s.cur == ID_IDLE {
        IdleNotRunnable(s0);
        IdleRuns(s0);
      } else {
        BlockRuns(s0);
      }
    }
  }

  /** The bits do not depend on the control. */
  lemma Skipped<P>(s: System<P>)
    requires Shaped(s) && BitsMatch(s) && SlotsSafe(s) && TasksOk(s)
    ensures forall s': System<P> :: Shaped(s') && s' == s.(cur := s'.cur, curId := s'.curId) ==>
              BitsMatch(s') && SlotsSafe(s') && TasksOk(s')
  {
  }

  lemma IdleNotRunnable<P>(s: System<P>)
    requires Kept(s, {}) && s.cur == ID_IDLE
    ensures !s.states[0].runnable
  {
    if s.states[0] == SUSPENDED_RUNNABLE {
      IdleQueueEmpty(s);
    }
    assert s.lists[0] != [] ==> !Fits(0, s.content[s.lists[0][0]]);
  }

  lemma BlockRuns<P>(s: System<P>)
    requires Kept(s, {}) && 0 < s.cur == s.curId && !HeldOrSuspended(s.states[s.cur])
    ensures s.states[s.cur] == SUSPENDED_RUNNABLE ==> s.lists[s.cur] != []
    ensures Moved(s, RunBlock(s), 0)
  {
    hide Distinct, Somewhere, TotalWeight, ListWeight, AllFit, Conserved, Fits, BitsMatch, SlotsSafe, TasksOk;
    hide RunHandler, RunWorker, RunDevice;
    if s.states[s.cur] == SUSPENDED_RUNNABLE {
      TakeKept(s);
      var p := s.lists[s.cur][0];
      TaskRuns(Take(s), Some(p));
    } else {
      AwakeHasPacket(s);
      TaskRuns(s, None);
    }
  }

  /** A block that runs without a packet is not suspended. */
  lemma AwakeHasPacket<P>(s: System<P>)
    requires Kept(s, {}) && s.cur >= 0 && !HeldOrSuspended(s.states[s.cur])
    requires s.states[s.cur] != SUSPENDED_RUNNABLE
    ensures !s.states[s.cur].suspended
  {
  }

  lemma TaskRuns<P>(s: System<P>, packet: Option<P>)
    requires Running(s) && |s.states| == 6
    requires packet.None? ==> Kept(s, {})
    requires packet.Some? ==> Kept(s, {packet.value}) && packet.value in s.content
    requires packet.Some? ==> Fits(s.cur, s.content[packet.value])
    requires packet.Some? && s.cur >= ID_DEVICE_A ==> s.lists[Slot(s.cur)] == []
    ensures Moved(s, RunTask(s, packet), if packet.Some? then Weight(s.cur, s.content[packet.value], false) else 0)
  {
    hide Distinct, Somewhere, TotalWeight, ListWeight, AllFit, Conserved, Fits, BitsMatch, SlotsSafe, TasksOk;
    hide RunHandler, RunWorker, RunDevice;
    if s.cur == ID_WORKER {
      WorkerRuns(s, packet);
    } else if s.cur <= ID_HANDLER_B {
      HandlerRuns(s, packet);
    } else {
      DeviceRuns(s, packet);
    }
  }

  lemma SameKeys<P>(s: System<P>, p: P, c: Content)
    requires p in s.content
    ensures SetContent(s, p, c).content.Keys == s.content.Keys
  {
    assert s.content.Keys + {p} == s.content.Keys;
  }

  lemma QueueKeys<P>(s: System<P>, p: P)
    requires Shaped(s) && s.cur >= 0 && p in s.content
    ensures Queue(s, p).content.Keys == s.content.Keys
  {
    SameKeys(s, p, s.content[p].(id := s.curId));
  }

  lemma LetterKeys<P>(s: System<P>, v: P, w: P)
    requires v in s.content && w in s.content
    ensures PassLetter(s, v, w).content.Keys == s.content.Keys
  {
    var c := s.content[w];
    var c' := s.content[v].(a1 := if c.a1 in c.a2 then c.a2[c.a1] else 0);
    SameKeys(s, v, c');
    var s1 := SetContent(s, v, c');
    SameKeys(s1, w, s1.content[w].(a1 := c.a1 + 1));
  }

  lemma ServeKeys<P>(s: System<P>)
    requires Shaped(s) && (s.cur == ID_HANDLER_A || s.cur == ID_HANDLER_B)
    ensures Serve(s).content.Keys == s.content.Keys
  {
    hide Queue;
    var works, devices := s.lists[Works(s.cur)], s.lists[Devices(s.cur)];
    if works != [] {
      var w, count := works[0], s.content[works[0]].a1;
      if count >= DATA_SIZE {
        QueueKeys(SetList(s, Works(s.cur), works[1..]), w);
      } else if devices != [] {
        var v := devices[0];
        var s1 := SetList(s, Devices(s.cur), devices[1..]);
        LetterKeys(s1, v, w);
        QueueKeys(PassLetter(s1, v, w), v);
      }
    }
  }

  lemma TaskKeys<P>(s: System<P>, packet: Option<P>)
    requires Shaped(s) && s.cur >= 0
    requires packet.Some? ==> packet.value in s.content
    ensures RunTask(s, packet).content.Keys == s.content.Keys
  {
    hide Queue, Serve, Letters;
    if s.cur == ID_WORKER && packet.Some? {
      var p := packet.value;
      var v := if s.v1 == ID_HANDLER_A then ID_HANDLER_B else ID_HANDLER_A;
      var (a2, w) := Letters(s.content[p].a2, s.v2, DATA_SIZE);
      var c := Content(v, s.content[p].kind, 0, a2);
      SameKeys(s, p, c);
      QueueKeys(SetContent(s, p, c).(v1 := v, v2 := w), p);
    } else if s.cur == ID_HANDLER_A || s.cur == ID_HANDLER_B {
      ServeKeys(if packet.Some? then File(s, packet.value) else s);
    } else if s.cur >= ID_DEVICE_A && packet.None? && s.lists[Slot(s.cur)] != [] {
      QueueKeys(SetList(s, Slot(s.cur), []), s.lists[Slot(s.cur)][0]);
    }
  }

  lemma StepKeepsPackets<P>(s: System<P>)
    requires Inv(s) && s.cur >= 0
    ensures Step(s).content.Keys == s.content.Keys
  {
    hide Distinct, Somewhere, AllFit, Fits, BitsMatch, SlotsSafe, TasksOk, RunTask;
    if !HeldOrSuspended(s.states[s.cur]) {
      var s0 := s.(curId := s.cur);
      if s.states[s.cur] == SUSPENDED_RUNNABLE {
        IdleQueueEmpty(s);
        TaskKeys(Take(s0), Some(s.lists[s.cur][0]));
      } else {
        TaskKeys(s0, None);
      }
    }
  }

  lemma InvBounds<P>(s: System<P>)
    requires Inv(s)
    ensures s.count >= 0 && -1 <= s.cur < 6 && |s.lists| == 12
  {
  }

  // ----- whole runs

  /** The states of a run, in order, from s until there is no current block. */
  ghost function Run<P>(s: System<P>): seq<System<P>>
    requires Inv(s)
    decreases s.count, TotalWeight(s, 12), Awake(s.states), s.cur + 1
  {
    if s.cur < 0 then [s]
    else
      StepKeeps(s);
      [s] + Run(Step(s))
  }

  function IdleTurns<P>(run: seq<System<P>>): nat {
    if run == [] then 0 else (if run[0].cur == ID_IDLE then 1 else 0) + IdleTurns(run[1..])
  }

  /** Every run is finite.  It ends exactly when the idle task has run as often as it was asked
      to; in each of its states every packet is in exactly one place. */
  lemma {:induction false} RunEnds<P>(s: System<P>)
    requires Inv(s)
    ensures var r := Run(s);
            && r != [] && r[0] == s && r[|r| - 1].cur == -1 && r[|r| - 1].count == 0
            && IdleTurns(r) == s.count
            && (forall i :: 0 <= i < |r| - 1 ==> r[i].cur >= 0 && r[i].count > 0)
            && (forall i :: 0 <= i < |r| ==> Inv(r[i]) && r[i].content.Keys == s.content.Keys)
    decreases s.count, TotalWeight(s, 12), Awake(s.states), s.cur + 1
  {
    hide Kept, TotalWeight, Awake, Step;
    InvBounds(s);
    if s.cur < 0 {
    } else {
      StepKeeps(s);
      InvBounds(Step(s));
      RunEnds(Step(s));
    }
  }

  // ----- the start

  /** What runRichards sets up: work packets w for the worker, device packets a and b for the
      handlers, and the idle task to run count times. */
  ghost function Initial<P>(w: seq<P>, a: seq<P>, b: seq<P>, count: int): System<P> {
    System([[], w, a, b, [], [], [], [], [], [], [], []],
           [RUNNING, Asleep(w), Asleep(a), Asleep(b), SUSPENDED, SUSPENDED],
           map p | p in w + a + b :: InitialContent(w, a, p),
           1, count, ID_HANDLER_A, 0, ID_DEVICE_B, -1, 0, 0)
  }

  function Asleep<P>(queue: seq<P>): State {
    if |queue| == 0 then SUSPENDED else SUSPENDED_RUNNABLE
  }

  function InitialContent<P(==)>(w: seq<P>, a: seq<P>, p: P): Content {
    if p in w then Content(ID_WORKER, Work, 0, map[])
    else Content(if p in a then ID_DEVICE_A else ID_DEVICE_B, Device, 0, map[])
  }

  /** Any number of distinct packets, and any count from 1 on, make a good start. */
  lemma InitialIsGood<P>(w: seq<P>, a: seq<P>, b: seq<P>, count: int)
    requires NoDuplicates(w + a + b) && count >= 1
    ensures Inv(Initial(w, a, b, count))
  {
    InitialDistinct(w, a, b);
    InitialConserved(w, a, b, count);
    InitialFits(w, a, b, count);
    hide Distinct, Somewhere, Conserved, NoDuplicates, AllFit, InitialContent;
  }

  lemma InitialFits<P>(w: seq<P>, a: seq<P>, b: seq<P>, count: int)
    requires forall p :: p in a ==> p !in w
    requires forall p :: p in b ==> p !in w && p !in a
    ensures AllFit(Initial(w, a, b, count))
  {
    var s := Initial(w, a, b, count);
    forall l, i | 0 <= l < 12 && 0 <= i < |s.lists[l]| ensures Fits(l, s.content[s.lists[l][i]]) {
      assert s.lists[l][i] in (if l == 1 then w else if l == 2 then a else b);
    }
  }

  lemma InitialConserved<P>(w: seq<P>, a: seq<P>, b: seq<P>, count: int)
    requires Distinct([[], w, a, b, [], [], [], [], [], [], [], []])
    ensures Conserved(Initial(w, a, b, count), {})
  {
    var s := Initial(w, a, b, count);
    forall p | p in s.content ensures Somewhere(s.lists, p) {
      if p in w {
        var i :| 0 <= i < |w| && w[i] == p;
        assert s.lists[1][i] == p;
      } else if p in a {
        var i :| 0 <= i < |a| && a[i] == p;
        assert s.lists[2][i] == p;
      } else {
        var i :| 0 <= i < |b| && b[i] == p;
        assert s.lists[3][i] == p;
      }
    }
  }

  lemma InitialDistinct<P>(w: seq<P>, a: seq<P>, b: seq<P>)
    requires NoDuplicates(w + a + b)
    ensures Distinct([[], w, a, b, [], [], [], [], [], [], [], []])
    ensures forall p :: p in a ==> p !in w
    ensures forall p :: p in b ==> p !in w && p !in a
  {
    var lists, all := [[], w, a, b, [], [], [], [], [], [], [], []], w + a + b;
    forall l, i, l', i' | 0 <= l < 12 && 0 <= i < |lists[l]| && 0 <= l' < 12 && 0 <= i' < |lists[l']|
      && lists[l][i] == lists[l'][i']
      ensures l == l' && i == i'
    {
      var (o, o') := (if l == 1 then 0 else if l == 2 then |w| else |w| + |a|,
                      if l' == 1 then 0 else if l' == 2 then |w| else |w| + |a|);
      assert all[o + i] == lists[l][i] && all[o' + i'] == lists[l'][i'];
    }
    forall p | p in a ensures p !in w {
      var i :| 0 <= i < |a| && a[i] == p;
      assert all[|w| + i] == p;
      assert forall k :: 0 <= k < |w| ==> all[k] == w[k];
    }
    forall p | p in b ensures p !in w && p !in a {
      var i :| 0 <= i < |b| && b[i] == p;
      assert all[|w| + |a| + i] == p;
      assert forall k :: 0 <= k < |w| ==> all[k] == w[k];
      assert forall k :: 0 <= k < |a| ==> all[|w| + k] == a[k];
    }
  }

  /** The state in which the run from s ends. */
  ghost function Outcome<P>(s: System<P>): System<P>
    requires Inv(s)
    decreases s.count, TotalWeight(s, 12), Awake(s.states), s.cur + 1
  {
    if s.cur < 0 then s
    else
      StepKeeps(s);
      Outcome(Step(s))
  }

  /** The outcome is the last state of the run. */
  lemma {:induction false} OutcomeIsLast<P>(s: System<P>)
    requires Inv(s)
    ensures Run(s) != [] && Run(s)[|Run(s)| - 1] == Outcome(s)
    decreases s.count, TotalWeight(s, 12), Awake(s.states), s.cur + 1
  {
    hide Kept, TotalWeight, Awake, Step;
    InvBounds(s);
    if s.cur < 0 {
    } else {
      StepKeeps(s);
      InvBounds(Step(s));
      OutcomeIsLast(Step(s));
    }
  }

  lemma {:induction false} OutcomeKeys<P>(s: System<P>)
    requires Inv(s)
    ensures Outcome(s).content.Keys == s.content.Keys
    decreases s.count, TotalWeight(s, 12), Awake(s.states), s.cur + 1
  {
    hide Kept, TotalWeight, Awake, Step;
    InvBounds(s);
    if s.cur < 0 {
    } else {
      StepKeeps(s);
      InvBounds(Step(s));
      OutcomeKeys(Step(s));
    }
  }

  /** However the dispatcher is loaded, its run ends with the idle task's count used up and
      every packet still in exactly one place. */
  lemma DispatcherEnds<P>(w: seq<P>, a: seq<P>, b: seq<P>, count: int)
    requires NoDuplicates(w + a + b) && count >= 1
    ensures Inv(Initial(w, a, b, count))
    ensures var r := Run(Initial(w, a, b, count));
            && r != [] && r[|r| - 1].cur == -1 && r[|r| - 1].count == 0 && IdleTurns(r) == count
            && forall i :: 0 <= i < |r| ==>
                 Conserved(r[i], {}) && r[i].content.Keys == (set p | p in w + a + b)
  {
    InitialIsGood(w, a, b, count);
    RunEnds(Initial(w, a, b, count));
    assert Initial(w, a, b, count).content.Keys == (set p | p in w + a + b);
  }
}
