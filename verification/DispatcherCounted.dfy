/** The dispatcher with packets counted instead of named, and the proof that it follows the state
    machine turn by turn while the idle task is not running. */
module DispatcherCounted {
  import opened Common
  import opened DispatcherModel
  import opened DispatcherInvariant

  // ----- the counted machine

  /** What belongs to a handler and its device: packets queued for the handler, all of one kind; its
      work packets and how many letters of the first are passed on; its device packets; those
      queued for the device, and whether the device has one pending. */
  datatype Side = Side(queued: nat, work: bool, handler: State, works: nat, passed: nat, devices: nat,
                       pending: nat, slot: bool, device: State)

  datatype Census = Census(ok: bool, cur: int, idle: State, worker: State, workerQueue: nat, toB: bool,
                             a: Side, b: Side, queues: int, holds: int)

  function SideOf(m: Census, h: int): Side {
    if h == ID_HANDLER_A then m.a else m.b
  }

  function WithSide(m: Census, h: int, s: Side): Census {
    if h == ID_HANDLER_A then m.(a := s) else m.(b := s)
  }

  function StateAt(m: Census, i: int): State {
    if i == ID_IDLE then m.idle
    else if i == ID_WORKER then m.worker
    else if i == ID_HANDLER_A then m.a.handler
    else if i == ID_HANDLER_B then m.b.handler
    else if i == ID_DEVICE_A then m.a.device
    else m.b.device
  }

  function Higher(i: int, j: int): int {
    if i > j then i else j
  }

  /** The state of a block that has taken a packet off its queue. */
  function Awakened(left: int): State {
    if left == 0 then RUNNING else RUNNABLE
  }

  function ToHandler(m: Census, h: int, work: bool): Census {
    var s, m' := SideOf(m, h), m.(queues := m.queues + 1);
    if s.queued == 0 then
      WithSide(m', h, s.(queued := 1, work := work, handler := s.handler.(runnable := true))).(cur := Higher(h, m.cur))
    else WithSide(m', h, s.(queued := s.queued + 1)).(ok := m.ok && s.work == work)
  }

  function ToWorker(m: Census): Census {
    var m' := m.(workerQueue := m.workerQueue + 1, queues := m.queues + 1);
    if m.workerQueue == 0 then m'.(worker := m.worker.(runnable := true), cur := Higher(ID_WORKER, m.cur)) else m'
  }

  function ToDevice(m: Census, h: int): Census {
    var s, m' := SideOf(m, h), m.(queues := m.queues + 1);
    if s.pending == 0 then
      WithSide(m', h, s.(pending := 1, device := s.device.(runnable := true))).(cur := Higher(h + 2, m.cur))
    else WithSide(m', h, s.(pending := s.pending + 1))
  }

  function WorkerActs(m: Census, given: bool): Census {
    if given then ToHandler(m.(toB := !m.toB), if m.toB then ID_HANDLER_B else ID_HANDLER_A, true)
    else m.(worker := m.worker.(suspended := true))
  }

  function WorkerTurn(m: Census): Census {
    if m.worker == SUSPENDED_RUNNABLE && m.workerQueue > 0 then
      WorkerActs(m.(workerQueue := m.workerQueue - 1, worker := Awakened(m.workerQueue - 1)), true)
    else WorkerActs(m, false)
  }

  function Filed(s: Side, work: bool): Side {
    if work then s.(works := s.works + 1, passed := if s.works == 0 then 0 else s.passed)
    else s.(devices := s.devices + 1)
  }

  function Serving(m: Census, h: int): Census {
    var s := SideOf(m, h);
    if s.works > 0 && s.passed >= DATA_SIZE then ToWorker(WithSide(m, h, s.(works := s.works - 1, passed := 0)))
    else if s.works > 0 && s.devices > 0 then
      ToDevice(WithSide(m, h, s.(devices := s.devices - 1, passed := s.passed + 1)), h)
    else WithSide(m, h, s.(handler := s.handler.(suspended := true)))
  }

  function HandlerTurn(m: Census, h: int): Census {
    var s := SideOf(m, h);
    if s.handler == SUSPENDED_RUNNABLE && s.queued > 0 then
      var t := s.(queued := s.queued - 1, work := s.work || s.queued == 1, handler := Awakened(s.queued - 1));
      Serving(WithSide(m, h, Filed(t, s.work)), h)
    else Serving(m, h)
  }

  function DeviceActs(m: Census, h: int, given: bool): Census {
    var s := SideOf(m, h);
    if given then
      WithSide(m, h, s.(device := s.device.(held := true), slot := true)).(holds := m.holds + 1, cur := m.cur - 1)
    else if s.slot then ToHandler(WithSide(m, h, s.(slot := false)), h, false)
    else WithSide(m, h, s.(device := s.device.(suspended := true)))
  }

  function DeviceTurn(m: Census, h: int): Census {
    var s := SideOf(m, h);
    if s.device == SUSPENDED_RUNNABLE && s.pending > 0 then
      DeviceActs(WithSide(m, h, s.(pending := s.pending - 1, device := Awakened(s.pending - 1))), h, true)
    else DeviceActs(m, h, false)
  }

  /** One turn of the loop while the idle task is not running. */
  function Turn(m: Census): Census {
    if HeldOrSuspended(StateAt(m, m.cur)) then m.(cur := m.cur - 1)
    else if m.cur == ID_WORKER then WorkerTurn(m)
    else if m.cur == ID_HANDLER_A || m.cur == ID_HANDLER_B then HandlerTurn(m, m.cur)
    else DeviceTurn(m, m.cur - 2)
  }

  function Turns(m: Census, n: nat): Census
    decreases n
  {
    if n == 0 then m else if m.cur <= 0 || !m.ok then m.(ok := false) else Turns(Turn(m), n - 1)
  }

  /** The idle task releases one device. */
  function Released(m: Census, odd: bool): Census {
    if odd then m.(b := m.b.(device := m.b.device.(held := false)), cur := ID_DEVICE_B)
    else m.(a := m.a.(device := m.a.device.(held := false)), cur := ID_DEVICE_A)
  }

  // ----- what a counted state says about a state

  ghost predicate AllKind<P>(ps: seq<P>, content: map<P, Content>, kind: Kind) {
    forall i :: 0 <= i < |ps| ==> ps[i] in content && content[ps[i]].kind == kind
  }

  ghost predicate Untouched<P>(ps: seq<P>, content: map<P, Content>) {
    forall i :: 0 <= i < |ps| ==> ps[i] in content && content[ps[i]].a1 == 0
  }

  /** Only the first of the work packets may have passed letters on. */
  ghost predicate Progress<P>(ps: seq<P>, content: map<P, Content>, passed: nat) {
    ps != [] ==> ps[0] in content && content[ps[0]].a1 == passed && Untouched(ps[1..], content)
  }

  ghost predicate SideIs<P>(s: System<P>, h: int, d: Side)
    requires Shaped(s) && (h == ID_HANDLER_A || h == ID_HANDLER_B)
  {
    && |s.lists[h]| == d.queued && AllKind(s.lists[h], s.content, if d.work then Work else Device)
    && |s.lists[Works(h)]| == d.works && Progress(s.lists[Works(h)], s.content, d.passed)
    && |s.lists[Devices(h)]| == d.devices
    && |s.lists[h + 2]| == d.pending && |s.lists[Slot(h + 2)]| == (if d.slot then 1 else 0)
    && s.states[h] == d.handler && s.states[h + 2] == d.device
  }

  ghost predicate Counted<P>(s: System<P>, m: Census) {
    && Shaped(s) && m.ok && s.cur == m.cur && s.states[ID_IDLE] == m.idle && s.states[ID_WORKER] == m.worker
    && |s.lists[ID_WORKER]| == m.workerQueue && s.v1 == (if m.toB then ID_HANDLER_A else ID_HANDLER_B)
    && SideIs(s, ID_HANDLER_A, m.a) && SideIs(s, ID_HANDLER_B, m.b)
    && s.queueCount == m.queues && s.holdCount == m.holds
  }

  /** The packets in the two lists that matter say the same. */
  ghost predicate Alike<P>(s: System<P>, s': System<P>, h: int)
    requires Shaped(s) && (h == ID_HANDLER_A || h == ID_HANDLER_B)
  {
    && (forall p :: p in s.lists[h] ==> p in s'.content && s'.content[p].kind == s.content[p].kind)
    && (forall p :: p in s.lists[Works(h)] ==> p in s'.content && s'.content[p].a1 == s.content[p].a1)
  }

  lemma SideSame<P>(s: System<P>, s': System<P>, h: int, d: Side)
    requires Shaped(s) && Shaped(s') && (h == ID_HANDLER_A || h == ID_HANDLER_B) && SideIs(s, h, d)
    requires Alike(s, s', h)
    requires s'.lists[h] == s.lists[h] && s'.lists[Works(h)] == s.lists[Works(h)]
    requires s'.lists[Devices(h)] == s.lists[Devices(h)] && s'.lists[h + 2] == s.lists[h + 2]
    requires s'.lists[Slot(h + 2)] == s.lists[Slot(h + 2)]
    requires s'.states[h] == s.states[h] && s'.states[h + 2] == s.states[h + 2]
    ensures SideIs(s', h, d)
  {
  }

  // ----- queueing

  /** Packets keep their kind and the letters passed on. */
  ghost predicate SamePlan<P>(s: System<P>, s': System<P>) {
    forall p :: p in s.content ==>
      p in s'.content && s'.content[p].kind == s.content[p].kind && s'.content[p].a1 == s.content[p].a1
  }

  lemma QueueParts<P>(s: System<P>, p: P)
    requires Shaped(s) && s.cur >= 0 && p in s.content && 0 <= s.content[p].id < 6
    ensures var t, s' := s.content[p].id, Queue(s, p);
            && Shaped(s') && s'.lists == s.lists[t := s.lists[t] + [p]] && SamePlan(s, s')
            && s'.states == (if s.lists[t] == [] then s.states[t := s.states[t].(runnable := true)] else s.states)
            && s'.cur == (if s.lists[t] == [] then Higher(t, s.cur) else s.cur)
            && s'.v1 == s.v1 && s'.queueCount == s.queueCount + 1 && s'.holdCount == s.holdCount
  {
    var t, s' := s.content[p].id, Queue(s, p);
    forall l, i | 0 <= l < 12 && 0 <= i < |s'.lists[l]| ensures s'.lists[l][i] in s'.content {
      if l == t && i == |s.lists[t]| {
      } else {
        assert s'.lists[l][i] == s.lists[l][i];
      }
    }
  }

  /** A side whose places are not touched. */
  lemma SideUntouched<P>(s: System<P>, s': System<P>, h: int, d: Side, t: int)
    requires Shaped(s) && Shaped(s') && (h == ID_HANDLER_A || h == ID_HANDLER_B) && SideIs(s, h, d) && SamePlan(s, s')
    requires forall l :: 0 <= l < 12 && l != t ==> s'.lists[l] == s.lists[l]
    requires forall j :: 0 <= j < 6 && j != t ==> s'.states[j] == s.states[j]
    requires t != h && t != h + 2 && t != Works(h) && t != Devices(h) && t != Slot(h + 2)
    ensures SideIs(s', h, d)
  {
    hide SideIs;
    SideSame(s, s', h, d);
  }

  lemma QueuedOnSide<P>(s: System<P>, s': System<P>, p: P, h: int, d: Side, work: bool)
    requires Shaped(s) && Shaped(s') && (h == ID_HANDLER_A || h == ID_HANDLER_B) && SideIs(s, h, d) && SamePlan(s, s')
    requires p in s.content && s.content[p].kind == (if work then Work else Device) && (d.queued > 0 ==> d.work == work)
    requires s'.lists == s.lists[h := s.lists[h] + [p]]
    requires s'.states == (if s.lists[h] == [] then s.states[h := s.states[h].(runnable := true)] else s.states)
    ensures SideIs(s', h, if d.queued == 0 then d.(queued := 1, work := work, handler := d.handler.(runnable := true))
                          else d.(queued := d.queued + 1))
  {
  }

  lemma PendingOnSide<P>(s: System<P>, s': System<P>, p: P, h: int, d: Side)
    requires Shaped(s) && Shaped(s') && (h == ID_HANDLER_A || h == ID_HANDLER_B) && SideIs(s, h, d) && SamePlan(s, s')
    requires s'.lists == s.lists[h + 2 := s.lists[h + 2] + [p]]
    requires s'.states ==
             (if s.lists[h + 2] == [] then s.states[h + 2 := s.states[h + 2].(runnable := true)] else s.states)
    ensures SideIs(s', h, if d.pending == 0 then d.(pending := 1, device := d.device.(runnable := true))
                          else d.(pending := d.pending + 1))
  {
  }

  function Other(h: int): int {
    if h == ID_HANDLER_A then ID_HANDLER_B else ID_HANDLER_A
  }

  lemma QueueToHandler<P>(s: System<P>, m: Census, p: P, h: int, work: bool)
    requires Shaped(s) && s.cur >= 0 && Counted(s, m) && p in s.content
    requires s.content[p].id == h && (h == ID_HANDLER_A || h == ID_HANDLER_B)
    requires s.content[p].kind == (if work then Work else Device) && ToHandler(m, h, work).ok
    ensures Shaped(Queue(s, p)) && Counted(Queue(s, p), ToHandler(m, h, work))
  {
    QueueParts(s, p);
    assert |s.lists[h]| == SideOf(m, h).queued;
    hide Queue, SideIs, Shaped, SamePlan;
    SideUntouched(s, Queue(s, p), Other(h), SideOf(m, Other(h)), h);
    QueuedOnSide(s, Queue(s, p), p, h, SideOf(m, h), work);
  }

  lemma QueueToWorker<P>(s: System<P>, m: Census, p: P)
    requires Shaped(s) && s.cur >= 0 && Counted(s, m) && p in s.content && s.content[p].id == ID_WORKER
    ensures Shaped(Queue(s, p)) && Counted(Queue(s, p), ToWorker(m))
  {
    QueueParts(s, p);
    hide Queue, SideIs, SamePlan;
    SideUntouched(s, Queue(s, p), ID_HANDLER_A, m.a, ID_WORKER);
    SideUntouched(s, Queue(s, p), ID_HANDLER_B, m.b, ID_WORKER);
  }

  lemma QueueToDevice<P>(s: System<P>, m: Census, p: P, h: int)
    requires Shaped(s) && s.cur >= 0 && Counted(s, m) && p in s.content
    requires s.content[p].id == h + 2 && (h == ID_HANDLER_A || h == ID_HANDLER_B)
    ensures Shaped(Queue(s, p)) && Counted(Queue(s, p), ToDevice(m, h))
  {
    QueueParts(s, p);
    assert |s.lists[h + 2]| == SideOf(m, h).pending;
    hide Queue, SideIs, Shaped, SamePlan;
    SideUntouched(s, Queue(s, p), Other(h), SideOf(m, Other(h)), h + 2);
    PendingOnSide(s, Queue(s, p), p, h, SideOf(m, h));
  }

  // ----- taking a packet and going to sleep

  lemma TakeFromHandler<P>(s: System<P>, m: Census)
    requires Shaped(s) && Counted(s, m) && (s.cur == ID_HANDLER_A || s.cur == ID_HANDLER_B) && s.lists[s.cur] != []
    ensures var d := SideOf(m, s.cur);
            && d.queued > 0 && Shaped(Take(s)) && Take(s).content == s.content
            && Counted(Take(s), WithSide(m, s.cur, d.(queued := d.queued - 1, work := d.work || d.queued == 1,
                                                      handler := Awakened(d.queued - 1))))
  {
    var h, s' := s.cur, Take(s);
    assert AllKind(s'.lists[h], s'.content, if SideOf(m, h).work then Work else Device);
    assert s'.lists[h] == [] ==> AllKind(s'.lists[h], s'.content, Work);
    assert SamePlan(s, s');
    hide SamePlan, AllKind, Progress;
    SideUntouched(s, s', Other(h), SideOf(m, Other(h)), h);
  }

  lemma TakeFromWorker<P>(s: System<P>, m: Census)
    requires Shaped(s) && Counted(s, m) && s.cur == ID_WORKER && s.lists[s.cur] != []
    ensures m.workerQueue > 0 && Shaped(Take(s)) && Take(s).content == s.content
    ensures Counted(Take(s), m.(workerQueue := m.workerQueue - 1, worker := Awakened(m.workerQueue - 1)))
  {
    hide SideIs;
    SideUntouched(s, Take(s), ID_HANDLER_A, m.a, ID_WORKER);
    SideUntouched(s, Take(s), ID_HANDLER_B, m.b, ID_WORKER);
  }

  lemma TakeFromDevice<P>(s: System<P>, m: Census)
    requires Shaped(s) && Counted(s, m) && (s.cur == ID_DEVICE_A || s.cur == ID_DEVICE_B) && s.lists[s.cur] != []
    ensures var h, d := s.cur - 2, SideOf(m, s.cur - 2);
            && d.pending > 0 && Shaped(Take(s)) && Take(s).content == s.content
            && Counted(Take(s), WithSide(m, h, d.(pending := d.pending - 1, device := Awakened(d.pending - 1))))
  {
    var h, s' := s.cur - 2, Take(s);
    assert SamePlan(s, s');
    hide SamePlan, AllKind, Progress;
    SideUntouched(s, s', Other(h), SideOf(m, Other(h)), s.cur);
  }

  lemma HandlerSleeps<P>(s: System<P>, m: Census)
    requires Shaped(s) && Counted(s, m) && (s.cur == ID_HANDLER_A || s.cur == ID_HANDLER_B)
    ensures var d := SideOf(m, s.cur);
            Counted(SuspendCurrent(s), WithSide(m, s.cur, d.(handler := d.handler.(suspended := true))))
  {
    var h, s' := s.cur, SuspendCurrent(s);
    assert SamePlan(s, s');
    hide SamePlan, AllKind, Progress;
    SideUntouched(s, s', Other(h), SideOf(m, Other(h)), h);
  }

  lemma WorkerSleeps<P>(s: System<P>, m: Census)
    requires Shaped(s) && Counted(s, m) && s.cur == ID_WORKER
    ensures Counted(SuspendCurrent(s), m.(worker := m.worker.(suspended := true)))
  {
    hide SideIs;
    SideUntouched(s, SuspendCurrent(s), ID_HANDLER_A, m.a, ID_WORKER);
    SideUntouched(s, SuspendCurrent(s), ID_HANDLER_B, m.b, ID_WORKER);
  }

  lemma DeviceSleeps<P>(s: System<P>, m: Census)
    requires Shaped(s) && Counted(s, m) && (s.cur == ID_DEVICE_A || s.cur == ID_DEVICE_B)
    ensures var h, d := s.cur - 2, SideOf(m, s.cur - 2);
            Counted(SuspendCurrent(s), WithSide(m, h, d.(device := d.device.(suspended := true))))
  {
    var h, s' := s.cur - 2, SuspendCurrent(s);
    assert SamePlan(s, s');
    hide SamePlan, AllKind, Progress;
    SideUntouched(s, s', Other(h), SideOf(m, Other(h)), s.cur);
  }

  // ----- the tasks

  lemma DeviceFollows<P>(s: System<P>, m: Census, packet: Option<P>)
    requires Running(s) && (s.cur == ID_DEVICE_A || s.cur == ID_DEVICE_B) && Shaped(s) && Counted(s, m)
    requires packet.Some? ==> packet.value in s.content && s.lists[Slot(s.cur)] == []
    requires packet.None? ==> Kept(s, {})
    requires DeviceActs(m, s.cur - 2, packet.Some?).ok
    ensures Counted(RunDevice(s, packet), DeviceActs(m, s.cur - 2, packet.Some?))
  {
    var h, l := s.cur - 2, Slot(s.cur);
    hide SamePlan, AllKind, Progress, Queue;
    match packet {
      case Some(p) =>
        var s' := RunDevice(s, packet);
        SlotFilled(s, m, p);
      case None =>
        if s.lists[l] == [] {
          DeviceSleeps(s, m);
        } else {
          var p := s.lists[l][0];
          PendingFits(s);
          SlotEmpties(s, m);
          var d := SideOf(m, h);
          var m1 := WithSide(m, h, d.(slot := false));
          QueueToHandler(SetList(s, l, []), m1, p, h, false);
        }
    }
  }

  lemma PendingFits<P>(s: System<P>)
    requires Kept(s, {}) && (s.cur == ID_DEVICE_A || s.cur == ID_DEVICE_B) && s.lists[Slot(s.cur)] != []
    ensures var p := s.lists[Slot(s.cur)][0];
            p in s.content && s.content[p].id == s.cur - 2 && s.content[p].kind == Device
  {
    hide Conserved, BitsMatch, SlotsSafe, TasksOk;
    assert Fits(Slot(s.cur), s.content[s.lists[Slot(s.cur)][0]]);
  }

  lemma SlotFilled<P>(s: System<P>, m: Census, p: P)
    requires Shaped(s) && Counted(s, m) && (s.cur == ID_DEVICE_A || s.cur == ID_DEVICE_B) && p in s.content
    ensures var h, d, s' := s.cur - 2, SideOf(m, s.cur - 2), RunDevice(s, Some(p));
            && Shaped(s')
            && Counted(s', WithSide(m, h, d.(device := d.device.(held := true), slot := true)).(
                             holds := m.holds + 1, cur := m.cur - 1))
  {
    var h, s' := s.cur - 2, RunDevice(s, Some(p));
    var s1 := SetList(s, Slot(s.cur), [p]);
    assert SamePlan(s, s1) && SamePlan(s1, s');
    hide SamePlan, AllKind, Progress;
    SideUntouched(s, s1, Other(h), SideOf(m, Other(h)), Slot(s.cur));
    SideUntouched(s1, s', Other(h), SideOf(m, Other(h)), s.cur);
  }

  lemma SlotEmpties<P>(s: System<P>, m: Census)
    requires Shaped(s) && Counted(s, m) && (s.cur == ID_DEVICE_A || s.cur == ID_DEVICE_B)
    requires s.lists[Slot(s.cur)] != []
    ensures var h, d, s' := s.cur - 2, SideOf(m, s.cur - 2), SetList(s, Slot(s.cur), []);
            Shaped(s') && d.slot && Counted(s', WithSide(m, h, d.(slot := false)))
  {
    var h, s' := s.cur - 2, SetList(s, Slot(s.cur), []);
    assert SamePlan(s, s');
    hide SamePlan, AllKind, Progress;
    SideUntouched(s, s', Other(h), SideOf(m, Other(h)), Slot(s.cur));
  }

  lemma WorkerFollows<P>(s: System<P>, m: Census, packet: Option<P>)
    requires Running(s) && s.cur == ID_WORKER && Shaped(s) && Counted(s, m)
    requires packet.Some? ==> Kept(s, {packet.value}) && packet.value in s.content && Fits(s.cur, s.content[packet.value])
    requires WorkerActs(m, packet.Some?).ok
    ensures Counted(RunWorker(s, packet), WorkerActs(m, packet.Some?))
  {
    hide Queue, Letters, SideIs, SamePlan;
    match packet {
      case None =>
        WorkerSleeps(s, m);
      case Some(p) =>
        var v := if s.v1 == ID_HANDLER_A then ID_HANDLER_B else ID_HANDLER_A;
        var (a2, w) := Letters(s.content[p].a2, s.v2, DATA_SIZE);
        var s1 := SetContent(s, p, Content(v, s.content[p].kind, 0, a2)).(v1 := v, v2 := w);
        var m1 := m.(toB := !m.toB);
        InHandElsewhere(s, p);
        hide Kept;
        SideSame(s, s1, ID_HANDLER_A, m.a);
        SideSame(s, s1, ID_HANDLER_B, m.b);
        assert Counted(s1, m1);
        QueueToHandler(s1, m1, p, v, true);
    }
  }

  lemma FileFollows<P>(s: System<P>, m: Census, p: P)
    requires (s.cur == ID_HANDLER_A || s.cur == ID_HANDLER_B) && Counted(s, m) && p in s.content
    requires s.content[p].kind == Work ==> s.content[p].a1 == 0
    ensures Counted(File(s, p), WithSide(m, s.cur, Filed(SideOf(m, s.cur), s.content[p].kind == Work)))
  {
    var h, s', d := s.cur, File(s, p), SideOf(m, s.cur);
    assert SamePlan(s, s');
    hide SamePlan, AllKind, Progress;
    if s.content[p].kind == Work {
      SideUntouched(s, s', Other(h), SideOf(m, Other(h)), Works(h));
      assert Progress(s'.lists[Works(h)], s'.content, if d.works == 0 then 0 else d.passed);
    } else {
      SideUntouched(s, s', Other(h), SideOf(m, Other(h)), Devices(h));
    }
  }

  lemma ServeFollows<P>(s: System<P>, m: Census)
    requires Running(s) && (s.cur == ID_HANDLER_A || s.cur == ID_HANDLER_B) && Kept(s, {}) && Counted(s, m)
    requires Serving(m, s.cur).ok
    ensures Counted(Serve(s), Serving(m, s.cur))
  {
    hide Queue, Kept, ToWorker, ToDevice, SideIs, SuspendCurrent, PassLetter;
    var d := SideOf(m, s.cur);
    OwnPackets(s, m);
    if d.works > 0 && d.passed >= DATA_SIZE {
      FinishFollows(s, m);
    } else if d.works > 0 && d.devices > 0 {
      PassFollows(s, m);
    } else {
      HandlerSleeps(s, m);
    }
  }

  lemma FinishFollows<P>(s: System<P>, m: Census)
    requires (s.cur == ID_HANDLER_A || s.cur == ID_HANDLER_B) && Kept(s, {}) && Counted(s, m)
    requires s.lists[Works(s.cur)] != []
    ensures var h, d, works := s.cur, SideOf(m, s.cur), s.lists[Works(s.cur)];
            var s1 := SetList(s, Works(h), works[1..]);
            && d.works > 0 && Shaped(s1) && works[0] in s1.content
            && Counted(Queue(s1, works[0]), ToWorker(WithSide(m, h, d.(works := d.works - 1, passed := 0))))
  {
    hide Queue, Kept, ToWorker, SideIs;
    var h, d, works := s.cur, SideOf(m, s.cur), s.lists[Works(s.cur)];
    WorkFits(s);
    WorkDropped(s, m);
    QueueToWorker(SetList(s, Works(h), works[1..]), WithSide(m, h, d.(works := d.works - 1, passed := 0)), works[0]);
  }

  lemma PassFollows<P>(s: System<P>, m: Census)
    requires (s.cur == ID_HANDLER_A || s.cur == ID_HANDLER_B) && Kept(s, {}) && Counted(s, m)
    requires s.lists[Works(s.cur)] != [] && s.lists[Devices(s.cur)] != []
    ensures var h, d := s.cur, SideOf(m, s.cur);
            var v, w := s.lists[Devices(h)][0], s.lists[Works(h)][0];
            var s1 := PassLetter(SetList(s, Devices(h), s.lists[Devices(h)][1..]), v, w);
            && d.devices > 0 && Shaped(s1) && v in s1.content
            && Counted(Queue(s1, v), ToDevice(WithSide(m, h, d.(devices := d.devices - 1, passed := d.passed + 1)), h))
  {
    DeviceFits(s);
    hide Queue, Kept, Counted, ToDevice;
    var h, d := s.cur, SideOf(m, s.cur);
    var v, w := s.lists[Devices(h)][0], s.lists[Works(h)][0];
    var s0 := SetList(s, Devices(h), s.lists[Devices(h)][1..]);
    LetterMoved(s, m);
    LetterContent(s, v, w, PassLetter(s0, v, w));
    QueueToDevice(PassLetter(s0, v, w), WithSide(m, h, d.(devices := d.devices - 1, passed := d.passed + 1)), v, h);
  }

  lemma OwnPackets<P>(s: System<P>, m: Census)
    requires (s.cur == ID_HANDLER_A || s.cur == ID_HANDLER_B) && Counted(s, m)
    ensures var d, works := SideOf(m, s.cur), s.lists[Works(s.cur)];
            && |works| == d.works && |s.lists[Devices(s.cur)]| == d.devices
            && (works != [] ==> works[0] in s.content && s.content[works[0]].a1 == d.passed)
  {
  }

  lemma WorkFits<P>(s: System<P>)
    requires Kept(s, {}) && (s.cur == ID_HANDLER_A || s.cur == ID_HANDLER_B) && s.lists[Works(s.cur)] != []
    ensures var p := s.lists[Works(s.cur)][0]; p in s.content && s.content[p].id == ID_WORKER
  {
    hide Conserved, BitsMatch, SlotsSafe, TasksOk;
    assert Fits(Works(s.cur), s.content[s.lists[Works(s.cur)][0]]);
  }

  lemma DeviceFits<P>(s: System<P>)
    requires Kept(s, {}) && (s.cur == ID_HANDLER_A || s.cur == ID_HANDLER_B)
    requires s.lists[Works(s.cur)] != [] && s.lists[Devices(s.cur)] != []
    ensures var v, works := s.lists[Devices(s.cur)][0], s.lists[Works(s.cur)];
            && v in s.content && s.content[v].id == s.cur + 2 && v != works[0] && works[0] !in works[1..]
            && v !in works && v !in s.lists[Works(Other(s.cur))] && works[0] !in s.lists[Works(Other(s.cur))]
            && v !in s.lists[s.cur] && works[0] !in s.lists[s.cur]
  {
    hide BitsMatch, SlotsSafe, TasksOk;
    assert Fits(Devices(s.cur), s.content[s.lists[Devices(s.cur)][0]]);
    hide Fits, AllFit;
    NotInHand(s, Works(s.cur), Devices(s.cur));
    FirstOnlyThere(s, Works(s.cur));
    FirstOnlyThere(s, Devices(s.cur));
  }

  lemma WorkDropped<P>(s: System<P>, m: Census)
    requires (s.cur == ID_HANDLER_A || s.cur == ID_HANDLER_B) && Counted(s, m) && s.lists[Works(s.cur)] != []
    ensures var h, d := s.cur, SideOf(m, s.cur);
            && d.works > 0
            && Counted(SetList(s, Works(h), s.lists[Works(h)][1..]), WithSide(m, h, d.(works := d.works - 1, passed := 0)))
  {
    var h, d := s.cur, SideOf(m, s.cur);
    var s' := SetList(s, Works(h), s.lists[Works(h)][1..]);
    assert SamePlan(s, s');
    hide SamePlan, AllKind, Progress;
    SideUntouched(s, s', Other(h), SideOf(m, Other(h)), Works(h));
    assert Progress(s'.lists[Works(h)], s'.content, 0);
  }

  lemma LetterMoved<P>(s: System<P>, m: Census)
    requires (s.cur == ID_HANDLER_A || s.cur == ID_HANDLER_B) && Counted(s, m)
    requires s.lists[Works(s.cur)] != [] && s.lists[Devices(s.cur)] != []
    requires s.lists[Works(s.cur)][0] in s.content && s.lists[Devices(s.cur)][0] in s.content
    requires var v, works := s.lists[Devices(s.cur)][0], s.lists[Works(s.cur)];
             && works[0] !in works[1..] && works[0] !in s.lists[Works(Other(s.cur))]
             && v !in works && v !in s.lists[Works(Other(s.cur))]
    ensures var h, d := s.cur, SideOf(m, s.cur);
            var v, w := s.lists[Devices(h)][0], s.lists[Works(h)][0];
            && d.devices > 0
            && Counted(PassLetter(SetList(s, Devices(h), s.lists[Devices(h)][1..]), v, w),
                       WithSide(m, h, d.(devices := d.devices - 1, passed := d.passed + 1)))
  {
    var h, d, o := s.cur, SideOf(m, s.cur), Other(s.cur);
    var v, w := s.lists[Devices(h)][0], s.lists[Works(h)][0];
    var s' := PassLetter(SetList(s, Devices(h), s.lists[Devices(h)][1..]), v, w);
    LetterContent(s, v, w, s');
    assert Shaped(s');
    assert s'.lists == s.lists[Devices(h) := s.lists[Devices(h)][1..]];
    hide PassLetter;
    assert SideIs(s', o, SideOf(m, o)) by {
      SideSame(s, s', o, SideOf(m, o));
    }
    assert SideIs(s', h, d.(devices := d.devices - 1, passed := d.passed + 1)) by {
      LetterOnSide(s, s', h, d);
    }
    hide SideIs;
  }

  lemma LetterOnSide<P>(s: System<P>, s': System<P>, h: int, d: Side)
    requires Shaped(s) && Shaped(s') && (h == ID_HANDLER_A || h == ID_HANDLER_B) && SideIs(s, h, d)
    requires s.lists[Works(h)] != [] && s.lists[Devices(h)] != [] && s.lists[Works(h)][0] !in s.lists[Works(h)][1..]
    requires s.lists[Devices(h)][0] !in s.lists[Works(h)]
    requires s'.lists == s.lists[Devices(h) := s.lists[Devices(h)][1..]] && s'.states == s.states
    requires s'.content.Keys == s.content.Keys
    requires forall p :: p in s.content ==> s'.content[p].kind == s.content[p].kind
    requires forall p :: p in s.content && p != s.lists[Devices(h)][0] && p != s.lists[Works(h)][0] ==>
               s'.content[p] == s.content[p]
    requires s'.content[s.lists[Works(h)][0]].a1 == s.content[s.lists[Works(h)][0]].a1 + 1
    ensures SideIs(s', h, d.(devices := d.devices - 1, passed := d.passed + 1))
  {
  }

  lemma LetterContent<P>(s: System<P>, v: P, w: P, s': System<P>)
    requires v in s.content && w in s.content && v != w
    requires s' == PassLetter(s.(lists := s'.lists), v, w)
    ensures s'.content.Keys == s.content.Keys
    ensures forall p :: p in s.content ==> s'.content[p].kind == s.content[p].kind
    ensures forall p :: p in s.content && p != v && p != w ==> s'.content[p] == s.content[p]
    ensures s'.content[w].a1 == s.content[w].a1 + 1 && s'.content[v].id == s.content[v].id
  {
    LetterKeys(s.(lists := s'.lists), v, w);
  }

  lemma HandlerFollows<P>(s: System<P>, m: Census, p: P)
    requires Running(s) && (s.cur == ID_HANDLER_A || s.cur == ID_HANDLER_B) && Kept(s, {p}) && p in s.content
    requires Counted(s, m) && Fits(s.cur, s.content[p])
    requires var m1 := WithSide(m, s.cur, Filed(SideOf(m, s.cur), s.content[p].kind == Work)); Serving(m1, s.cur).ok
    ensures Counted(RunHandler(s, Some(p)),
                    Serving(WithSide(m, s.cur, Filed(SideOf(m, s.cur), s.content[p].kind == Work)), s.cur))
  {
    FileKept(s, p);
    FileFollows(s, m, p);
    hide Kept, Serve, Serving, SideIs, Fits;
    ServeFollows(File(s, p), WithSide(m, s.cur, Filed(SideOf(m, s.cur), s.content[p].kind == Work)));
  }

  lemma KindQueued<P>(s: System<P>, m: Census)
    requires Shaped(s) && Counted(s, m) && (s.cur == ID_HANDLER_A || s.cur == ID_HANDLER_B) && s.lists[s.cur] != []
    ensures s.lists[s.cur][0] in s.content
    ensures s.content[s.lists[s.cur][0]].kind == Work <==> SideOf(m, s.cur).work
  {
  }

  lemma StatesCounted<P>(s: System<P>, m: Census)
    requires Shaped(s) && Counted(s, m) && s.cur >= 0
    ensures s.states[s.cur] == StateAt(m, m.cur)
    ensures s.cur == ID_HANDLER_A || s.cur == ID_HANDLER_B ==>
              |s.lists[s.cur]| == SideOf(m, s.cur).queued && s.states[s.cur] == SideOf(m, s.cur).handler
    ensures s.cur == ID_DEVICE_A || s.cur == ID_DEVICE_B ==>
              |s.lists[s.cur]| == SideOf(m, s.cur - 2).pending && s.states[s.cur] == SideOf(m, s.cur - 2).device
  {
  }

  /** The current block takes a packet off its queue. */
  ghost predicate Given<P>(s: System<P>) {
    Kept(s, {}) && 0 < s.cur == s.curId && s.states[s.cur] == SUSPENDED_RUNNABLE && s.lists[s.cur] != []
  }

  lemma GivenWorker<P>(s: System<P>, m: Census)
    requires Given(s) && s.cur == ID_WORKER && Counted(s, m) && WorkerTurn(m).ok
    ensures Counted(RunBlock(s), WorkerTurn(m))
  {
    TakeKept(s);
    TakeFromWorker(s, m);
    hide Kept, SideIs, Fits, RunWorker, WorkerActs;
    WorkerFollows(Take(s), m.(workerQueue := m.workerQueue - 1, worker := Awakened(m.workerQueue - 1)),
                  Some(s.lists[s.cur][0]));
  }

  lemma GivenHandler<P>(s: System<P>, m: Census)
    requires Given(s) && (s.cur == ID_HANDLER_A || s.cur == ID_HANDLER_B) && Counted(s, m) && HandlerTurn(m, s.cur).ok
    ensures Counted(RunBlock(s), HandlerTurn(m, s.cur))
  {
    hide Kept, SideIs, Fits, RunHandler, Serving, ToHandler;
    TakeKept(s);
    StatesCounted(s, m);
    KindQueued(s, m);
    TakeFromHandler(s, m);
    hide Counted;
    var d := SideOf(m, s.cur);
    HandlerFollows(Take(s), WithSide(m, s.cur, d.(queued := d.queued - 1, work := d.work || d.queued == 1,
                                                  handler := Awakened(d.queued - 1))), s.lists[s.cur][0]);
  }

  lemma GivenDevice<P>(s: System<P>, m: Census)
    requires Given(s) && (s.cur == ID_DEVICE_A || s.cur == ID_DEVICE_B) && Counted(s, m) && DeviceTurn(m, s.cur - 2).ok
    ensures Counted(RunBlock(s), DeviceTurn(m, s.cur - 2))
  {
    TakeKept(s);
    StatesCounted(s, m);
    TakeFromDevice(s, m);
    hide Kept, SideIs, Fits, RunDevice, DeviceActs, Counted;
    var d := SideOf(m, s.cur - 2);
    DeviceFollows(Take(s), WithSide(m, s.cur - 2, d.(pending := d.pending - 1, device := Awakened(d.pending - 1))),
                  Some(s.lists[s.cur][0]));
  }

  /** A turn without a packet. */
  lemma FreeFollows<P>(s: System<P>, m: Census)
    requires Kept(s, {}) && 0 < s.cur == s.curId && !HeldOrSuspended(s.states[s.cur]) && Counted(s, m) && Turn(m).ok
    requires s.states[s.cur] != SUSPENDED_RUNNABLE
    ensures Counted(RunBlock(s), Turn(m))
  {
    StatesCounted(s, m);
    AwakeHasPacket(s);
    hide Kept, SideIs, Serving, Serve, RunWorker, RunDevice, WorkerActs, DeviceActs;
    if s.cur == ID_WORKER {
      WorkerFollows(s, m, None);
    } else if s.cur <= ID_HANDLER_B {
      ServeFollows(s, m);
    } else {
      DeviceFollows(s, m, None);
    }
  }

  lemma BlockFollows<P>(s: System<P>, m: Census)
    requires Kept(s, {}) && 0 < s.cur == s.curId && !HeldOrSuspended(s.states[s.cur]) && Counted(s, m) && Turn(m).ok
    ensures s.states[s.cur] == SUSPENDED_RUNNABLE ==> s.lists[s.cur] != []
    ensures Counted(RunBlock(s), Turn(m))
  {
    if s.states[s.cur] == SUSPENDED_RUNNABLE {
      IdleQueueEmpty(s);
      StatesCounted(s, m);
      hide Kept, SideIs, WorkerTurn, HandlerTurn, DeviceTurn, RunBlock, Counted;
      if s.cur == ID_WORKER {
        GivenWorker(s, m);
      } else if s.cur <= ID_HANDLER_B {
        GivenHandler(s, m);
      } else {
        GivenDevice(s, m);
      }
    } else {
      FreeFollows(s, m);
    }
  }

  /** Every turn of the dispatcher, but those of the idle task, is a turn of the counted machine. */
  lemma StepFollows<P>(s: System<P>, m: Census)
    requires Inv(s) && s.cur > 0 && Counted(s, m) && Turn(m).ok
    ensures Inv(Step(s)) && Counted(Step(s), Turn(m)) && Step(s).seed == s.seed && Step(s).count == s.count
  {
    hide Kept, SideIs, RunBlock;
    StepKeeps(s);
    StepSeed(s);
    StatesCounted(s, m);
    if HeldOrSuspended(s.states[s.cur]) {
      ControlOnly(s, Step(s), m, Turn(m));
    } else {
      var s0 := s.(curId := s.cur);
      ControlOnly(s, s0, m, m);
      hide Counted, Turn;
      Renamed(s);
      BlockFollows(s0, m);
    }
  }

  lemma Renamed<P>(s: System<P>)
    requires Kept(s, {})
    ensures Kept(s.(curId := s.cur), {})
  {
    hide Distinct, Somewhere, AllFit, Conserved, Fits;
    SamePackets(s, s.(curId := s.cur), {});
    Skipped(s);
  }

  lemma ControlOnly<P>(s: System<P>, s': System<P>, m: Census, m': Census)
    requires Counted(s, m) && s' == s.(cur := s'.cur, curId := s'.curId) && m' == m.(cur := s'.cur) && -1 <= s'.cur < 6
    ensures Counted(s', m')
  {
  }

  lemma TaskSeed<P>(s: System<P>, packet: Option<P>)
    requires Shaped(s) && s.cur > 0
    requires packet.Some? ==> packet.value in s.content
    ensures RunTask(s, packet).seed == s.seed
  {
    hide Shaped, Letters;
  }

  lemma StepSeed<P>(s: System<P>)
    requires Inv(s) && s.cur > 0
    ensures Step(s).seed == s.seed
  {
    hide RunTask;
    if HeldOrSuspended(s.states[s.cur]) {
    } else if s.states[s.cur] == SUSPENDED_RUNNABLE {
      IdleQueueEmpty(s);
      hide Inv;
      TaskSeed(Take(s.(curId := s.cur)), Some(s.lists[s.cur][0]));
    } else {
      TaskSeed(s.(curId := s.cur), None);
    }
  }
}
