/** The task dispatcher of the Richards benchmark as a state machine.  Packets are threaded
    through intrusive lists; here a list is the sequence of its packets and a state names the
    twelve places a packet can be in.  Dispatcher.dfy proves that the heap follows this. */
module DispatcherModel {
  import opened Common

  const ID_IDLE := 0
  const ID_WORKER := 1
  const ID_HANDLER_A := 2
  const ID_HANDLER_B := 3
  const ID_DEVICE_A := 4
  const ID_DEVICE_B := 5
  const DATA_SIZE := 4

  datatype Kind = Device | Work

  /** The three bits of a control block's state word. */
  datatype State = State(held: bool, suspended: bool, runnable: bool)

  const RUNNING := State(false, false, false)
  const RUNNABLE := State(false, false, true)
  const SUSPENDED := State(false, true, false)
  const SUSPENDED_RUNNABLE := State(false, true, true)

  /** What a packet carries. */
  datatype Content = Content(id: int, kind: Kind, a1: int, a2: map<int, int>)

  /** The places of packets: the queue of block i is place i, the work and device lists of
      handler h are places 2h+2 and 2h+3, and the slot of device d is place d+6. */
  datatype System<P(==)> = System(
    lists: seq<seq<P>>, states: seq<State>, content: map<P, Content>,
    seed: nat, count: int, v1: int, v2: int,
    cur: int, curId: int, queueCount: int, holdCount: int)

  /** x ^ y on non-negative numbers, bit by bit. */
  function Xor(x: nat, y: nat): nat
    decreases x + y
  {
    if x == 0 then y
    else if y == 0 then x
    else 2 * Xor(x / 2, y / 2) + (if x % 2 != y % 2 then 1 else 0)
  }

  function Works(h: int): int { 2 * h + 2 }

  function Devices(h: int): int { 2 * h + 3 }

  function Slot(d: int): int { d + 6 }

  function Priority(id: int): int { 1000 * id }

  ghost predicate Shaped<P>(s: System<P>) {
    && |s.lists| == 12 && |s.states| == 6 && -1 <= s.cur < 6
    && forall l, i :: 0 <= l < 12 && 0 <= i < |s.lists[l]| ==> s.lists[l][i] in s.content
  }

  // ----- the steps

  ghost function SetState<P>(s: System<P>, i: int, st: State): System<P>
    requires 0 <= i < |s.states|
  {
    s.(states := s.states[i := st])
  }

  ghost function SetList<P>(s: System<P>, l: int, ps: seq<P>): System<P>
    requires 0 <= l < |s.lists|
  {
    s.(lists := s.lists[l := ps])
  }

  ghost function SetContent<P>(s: System<P>, p: P, c: Content): System<P> {
    s.(content := s.content[p := c])
  }

  ghost function SuspendCurrent<P>(s: System<P>): System<P>
    requires Shaped(s) && s.cur >= 0
  {
    SetState(s, s.cur, s.states[s.cur].(suspended := true))
  }

  ghost function HoldCurrent<P>(s: System<P>): System<P>
    requires Shaped(s) && s.cur >= 0
  {
    SetState(s, s.cur, s.states[s.cur].(held := true)).(holdCount := s.holdCount + 1, cur := s.cur - 1)
  }

  ghost function Release<P>(s: System<P>, id: int): System<P>
    requires Shaped(s) && s.cur >= 0 && 0 <= id < 6
  {
    SetState(s, id, s.states[id].(held := false)).(
      cur := if Priority(id) > Priority(s.cur) then id else s.cur)
  }

  /** Hands a packet to the block it is addressed to, and makes the sender its address. */
  ghost function Queue<P>(s: System<P>, p: P): System<P>
    requires Shaped(s) && s.cur >= 0 && p in s.content
  {
    var t := s.content[p].id;
    if !(0 <= t < 6) then s.(cur := -1)
    else
      var s1 := SetContent(s, p, s.content[p].(id := s.curId)).(queueCount := s.queueCount + 1);
      var s2 := SetList(s1, t, s.lists[t] + [p]);
      if s.lists[t] == [] then
        SetState(s2, t, s.states[t].(runnable := true)).(
          cur := if Priority(t) > Priority(s.cur) then t else s.cur)
      else s2
  }

  ghost function RunIdle<P>(s: System<P>): System<P>
    requires Shaped(s) && s.cur >= 0
  {
    if s.count == 1 then HoldCurrent(s.(count := 0))
    else if s.seed % 2 == 0 then
      Release(s.(count := s.count - 1, seed := s.seed / 2), ID_DEVICE_A)
    else
      Release(s.(count := s.count - 1, seed := Xor(s.seed / 2, 0xD008)), ID_DEVICE_B)
  }

  ghost function RunDevice<P>(s: System<P>, packet: Option<P>): System<P>
    requires Shaped(s) && (s.cur == ID_DEVICE_A || s.cur == ID_DEVICE_B)
    requires packet.Some? ==> packet.value in s.content
  {
    var l := Slot(s.cur);
    match packet
    case None =>
      if s.lists[l] == [] then SuspendCurrent(s)
      else Queue(SetList(s, l, []), s.lists[l][0])
    case Some(p) =>
      HoldCurrent(SetList(s, l, [p]))
  }

  function NextLetter(v: int): int {
    if v + 1 > 26 then 1 else v + 1
  }

  /** The letter counter and the payload after n letters. */
  function Letters(a2: map<int, int>, v: int, n: nat): (map<int, int>, int) {
    if n == 0 then (a2, v)
    else
      var (a, w) := Letters(a2, v, n - 1);
      (a[n - 1 := NextLetter(w)], NextLetter(w))
  }

  ghost function RunWorker<P>(s: System<P>, packet: Option<P>): System<P>
    requires Shaped(s) && s.cur >= 0
    requires packet.Some? ==> packet.value in s.content
  {
    match packet
    case None => SuspendCurrent(s)
    case Some(p) =>
      var v := if s.v1 == ID_HANDLER_A then ID_HANDLER_B else ID_HANDLER_A;
      var (a2, w) := Letters(s.content[p].a2, s.v2, DATA_SIZE);
      Queue(SetContent(s, p, Content(v, s.content[p].kind, 0, a2)).(v1 := v, v2 := w), p)
  }

  /** The handler files the packet it is given. */
  ghost function File<P>(s: System<P>, p: P): System<P>
    requires Shaped(s) && (s.cur == ID_HANDLER_A || s.cur == ID_HANDLER_B) && p in s.content
  {
    var l := if s.content[p].kind == Work then Works(s.cur) else Devices(s.cur);
    SetList(s, l, s.lists[l] + [p])
  }

  /** The next letter of work packet w goes into device packet v. */
  ghost function PassLetter<P>(s: System<P>, v: P, w: P): System<P>
    requires v in s.content && w in s.content
  {
    var c := s.content[w];
    var s1 := SetContent(s, v, s.content[v].(a1 := if c.a1 in c.a2 then c.a2[c.a1] else 0));
    SetContent(s1, w, s1.content[w].(a1 := c.a1 + 1))
  }

  /** It then passes one packet on, if it can. */
  ghost function Serve<P>(s: System<P>): System<P>
    requires Shaped(s) && (s.cur == ID_HANDLER_A || s.cur == ID_HANDLER_B)
  {
    var works, devices := s.lists[Works(s.cur)], s.lists[Devices(s.cur)];
    if works == [] then SuspendCurrent(s)
    else
      var w, count := works[0], s.content[works[0]].a1;
      if count >= DATA_SIZE then Queue(SetList(s, Works(s.cur), works[1..]), w)
      else if devices == [] then SuspendCurrent(s)
      else
        Queue(PassLetter(SetList(s, Devices(s.cur), devices[1..]), devices[0], w), devices[0])
  }

  ghost function RunHandler<P>(s: System<P>, packet: Option<P>): System<P>
    requires Shaped(s) && (s.cur == ID_HANDLER_A || s.cur == ID_HANDLER_B)
    requires packet.Some? ==> packet.value in s.content
  {
    match packet
    case None => Serve(s)
    case Some(p) => Serve(File(s, p))
  }

  ghost function RunTask<P>(s: System<P>, packet: Option<P>): System<P>
    requires Shaped(s) && s.cur >= 0
    requires packet.Some? ==> packet.value in s.content
  {
    if s.cur == ID_IDLE then RunIdle(s)
    else if s.cur == ID_WORKER then RunWorker(s, packet)
    else if s.cur <= ID_HANDLER_B then RunHandler(s, packet)
    else RunDevice(s, packet)
  }

  /** Takes the first packet off the queue of the current block. */
  ghost function Take<P>(s: System<P>): System<P>
    requires Shaped(s) && s.cur >= 0 && s.lists[s.cur] != []
  {
    var rest := s.lists[s.cur][1..];
    SetState(SetList(s, s.cur, rest), s.cur, if rest == [] then RUNNING else RUNNABLE)
  }

  ghost function RunBlock<P>(s: System<P>): System<P>
    requires Shaped(s) && s.cur >= 0
    requires s.states[s.cur] == SUSPENDED_RUNNABLE ==> s.lists[s.cur] != []
  {
    if s.states[s.cur] == SUSPENDED_RUNNABLE then RunTask(Take(s), Some(s.lists[s.cur][0]))
    else RunTask(s, None)
  }

  predicate HeldOrSuspended(st: State) {
    st.held || st == SUSPENDED
  }

  /** One turn of the scheduling loop. */
  ghost function Step<P>(s: System<P>): System<P>
    requires Inv(s) && s.cur >= 0
  {
    if HeldOrSuspended(s.states[s.cur]) then s.(cur := s.cur - 1)
    else RunBlock(s.(curId := s.cur))
  }

  // ----- the invariant

  /** No packet is in two places, or twice in one. */
  ghost predicate Distinct<P>(lists: seq<seq<P>>) {
    forall l, i, l', i' ::
      (0 <= l < |lists| && 0 <= i < |lists[l]| && 0 <= l' < |lists| && 0 <= i' < |lists[l']| &&
       lists[l][i] == lists[l'][i']) ==> l == l' && i == i'
  }

  /** The packet p is in some place. */
  ghost predicate Somewhere<P>(lists: seq<seq<P>>, p: P) {
    exists l, i :: 0 <= l < |lists| && 0 <= i < |lists[l]| && lists[l][i] == p
  }

  /** Every packet is in exactly one place, but for those in hand. */
  ghost predicate Conserved<P>(s: System<P>, hand: set<P>) {
    && Distinct(s.lists)
    && (forall p :: p in s.content ==> (Somewhere(s.lists, p) <==> p !in hand))
    && forall l, i :: 0 <= l < |s.lists| && 0 <= i < |s.lists[l]| ==> s.lists[l][i] in s.content
  }

  predicate Lettered(a2: map<int, int>) {
    forall k :: 0 <= k < DATA_SIZE ==> k in a2 && 1 <= a2[k] <= 26
  }

  /** What a packet in place l looks like. */
  ghost predicate Fits(l: int, c: Content) {
    if l == ID_WORKER then c.kind == Work
    else if l == ID_HANDLER_A || l == ID_HANDLER_B then
      if c.kind == Device then c.id == l + 2
      else c.id == ID_WORKER && c.a1 == 0 && Lettered(c.a2)
    else if l == Works(ID_HANDLER_A) || l == Works(ID_HANDLER_B) then
      c.kind == Work && c.id == ID_WORKER && 0 <= c.a1 <= DATA_SIZE && Lettered(c.a2)
    else if l == Devices(ID_HANDLER_A) then c.kind == Device && c.id == ID_DEVICE_A
    else if l == Devices(ID_HANDLER_B) then c.kind == Device && c.id == ID_DEVICE_B
    else if l == ID_DEVICE_A || l == Slot(ID_DEVICE_A) then c.kind == Device && c.id == ID_HANDLER_A
    else if l == ID_DEVICE_B || l == Slot(ID_DEVICE_B) then c.kind == Device && c.id == ID_HANDLER_B
    else false
  }

  ghost predicate AllFit<P>(s: System<P>) {
    forall l, i :: 0 <= l < |s.lists| && 0 <= i < |s.lists[l]| && s.lists[l][i] in s.content ==>
      Fits(l, s.content[s.lists[l][i]])
  }

  /** The runnable bit is set exactly when the queue is not empty. */
  ghost predicate BitsMatch<P>(s: System<P>)
    requires Shaped(s)
  {
    forall i :: 0 <= i < 6 ==> (s.states[i].runnable <==> s.lists[i] != [])
  }

  /** A device with a pending packet is not suspended, so it is not given another. */
  ghost predicate SlotsSafe<P>(s: System<P>)
    requires Shaped(s)
  {
    forall d :: 4 <= d < 6 ==> |s.lists[Slot(d)]| <= 1 && (s.lists[Slot(d)] != [] ==> !s.states[d].suspended)
  }

  ghost predicate TasksOk<P>(s: System<P>)
    requires Shaped(s)
  {
    && !s.states[1].held && !s.states[2].held && !s.states[3].held
    && !s.states[0].suspended && (s.states[0].held <==> s.count == 0) && s.count >= 0
    && (s.v1 == ID_HANDLER_A || s.v1 == ID_HANDLER_B) && 0 <= s.v2 <= 26
  }

  /** Everything but where the control is. */
  ghost predicate Kept<P>(s: System<P>, hand: set<P>) {
    Shaped(s) && Conserved(s, hand) && AllFit(s) && BitsMatch(s) && SlotsSafe(s) && TasksOk(s)
  }

  ghost predicate Inv<P>(s: System<P>) {
    Kept(s, {}) && (s.cur == -1 <==> s.count == 0)
  }

  // ----- the measure

  /** How far a packet in place l still has to go before the idle task must act. */
  function Weight(l: int, c: Content, held: bool): nat {
    if l == ID_WORKER then 2
    else if l == ID_HANDLER_A || l == ID_HANDLER_B then if c.kind == Device then 12 else 1
    else if l == ID_DEVICE_A || l == ID_DEVICE_B then 4
    else if l == Works(ID_HANDLER_A) || l == Works(ID_HANDLER_B) then if c.a1 >= DATA_SIZE then 3 else 0
    else if l == Devices(ID_HANDLER_A) || l == Devices(ID_HANDLER_B) then 8
    else if held then 0 else 16
  }

  ghost predicate HeldAt<P>(s: System<P>, l: int) {
    Slot(4) <= l < Slot(6) && l - 6 < |s.states| && s.states[l - 6].held
  }

  ghost function ListWeight<P>(ps: seq<P>, l: int, content: map<P, Content>, held: bool): nat {
    if ps == [] then 0
    else ListWeight(ps[..|ps| - 1], l, content, held) +
         (if ps[|ps| - 1] in content then Weight(l, content[ps[|ps| - 1]], held) else 0)
  }

  ghost function WeightAt<P>(s: System<P>, l: int): nat
    requires 0 <= l < |s.lists|
  {
    ListWeight(s.lists[l], l, s.content, HeldAt(s, l))
  }

  ghost function TotalWeight<P>(s: System<P>, n: nat): nat
    requires n <= |s.lists|
  {
    if n == 0 then 0 else TotalWeight(s, n - 1) + WeightAt(s, n - 1)
  }

  ghost function Awake(states: seq<State>): nat {
    if states == [] then 0
    else Awake(states[..|states| - 1]) + (if states[|states| - 1].suspended then 0 else 1)
  }

  // ----- moving packets

  lemma PutConserved<P>(s: System<P>, l: int, p: P)
    requires Conserved(s, {p}) && 0 <= l < |s.lists| && p in s.content
    ensures Conserved(SetList(s, l, s.lists[l] + [p]), {})
  {
    var lists, lists' := s.lists, s.lists[l := s.lists[l] + [p]];
    assert !Somewhere(lists, p);
    forall q | q in s.content ensures Somewhere(lists', q) {
      if q == p {
        assert lists'[l][|lists[l]|] == q;
      } else {
        var m, i :| 0 <= m < |lists| && 0 <= i < |lists[m]| && lists[m][i] == q;
        assert lists'[m][i] == q;
      }
    }
  }

  lemma DropConserved<P>(s: System<P>, l: int)
    requires Conserved(s, {}) && 0 <= l < |s.lists| && s.lists[l] != []
    ensures Conserved(SetList(s, l, s.lists[l][1..]), {s.lists[l][0]})
    ensures s.lists[l][0] in s.content
  {
    var lists, lists', p := s.lists, s.lists[l := s.lists[l][1..]], s.lists[l][0];
    forall q | q in s.content ensures Somewhere(lists', q) <==> q != p {
      if q != p {
        assert Somewhere(lists, q);
        var m, i :| 0 <= m < |lists| && 0 <= i < |lists[m]| && lists[m][i] == q;
        assert lists'[m][if m == l then i - 1 else i] == q;
      }
    }
  }

  /** Content may change without moving a packet. */
  lemma ContentConserved<P>(s: System<P>, s': System<P>, hand: set<P>)
    requires Conserved(s, hand) && s'.lists == s.lists && s'.content.Keys == s.content.Keys
    ensures Conserved(s', hand)
  {
  }

  // ----- weights

  lemma {:induction false} ListWeightSame<P>(ps: seq<P>, l: int, content: map<P, Content>, content': map<P, Content>,
                                             held: bool)
    requires forall p :: p in ps ==> (p in content <==> p in content') && (p in content ==> content'[p] == content[p])
    ensures ListWeight(ps, l, content', held) == ListWeight(ps, l, content, held)
  {
    if ps == [] {
    } else {
      ListWeightSame(ps[..|ps| - 1], l, content, content', held);
    }
  }

  lemma ListWeightPut<P>(ps: seq<P>, p: P, l: int, content: map<P, Content>, held: bool)
    requires p in content
    ensures ListWeight(ps + [p], l, content, held) == ListWeight(ps, l, content, held) + Weight(l, content[p], held)
  {
    assert (ps + [p])[..|ps|] == ps;
  }

  lemma {:induction false} ListWeightDrop<P>(ps: seq<P>, l: int, content: map<P, Content>, held: bool)
    requires ps != [] && ps[0] in content
    ensures ListWeight(ps, l, content, held) ==
            ListWeight(ps[1..], l, content, held) + Weight(l, content[ps[0]], held)
  {
    var n := |ps| - 1;
    if n > 0 {
      ListWeightDrop(ps[..n], l, content, held);
      assert ps[..n][1..] == ps[1..][..n - 1];
    } else {
      assert ps[..n] == [];
    }
  }

  /** A change that touches only place m. */
  lemma {:induction false} TotalWeightChange<P>(s: System<P>, s': System<P>, n: nat, m: int)
    requires n <= |s.lists| == |s'.lists|
    requires forall l :: 0 <= l < n && l != m ==> WeightAt(s', l) == WeightAt(s, l)
    ensures TotalWeight(s', n) ==
            TotalWeight(s, n) + (if 0 <= m < n then WeightAt(s', m) - WeightAt(s, m) else 0)
  {
    if n == 0 {
    } else {
      TotalWeightChange(s, s', n - 1, m);
    }
  }

  /** A list update in place l; packets in the lists keep their content. */
  lemma WeightsElsewhere<P>(s: System<P>, s': System<P>, m: int)
    requires Shaped(s) && |s'.lists| == 12 && |s'.states| == 6
    requires forall l :: 0 <= l < 12 && l != m ==> s'.lists[l] == s.lists[l] && (HeldAt(s', l) <==> HeldAt(s, l))
    requires forall l, i :: 0 <= l < 12 && l != m && 0 <= i < |s.lists[l]| ==>
               s.lists[l][i] in s'.content && s'.content[s.lists[l][i]] == s.content[s.lists[l][i]]
    ensures TotalWeight(s', 12) ==
            TotalWeight(s, 12) + (if 0 <= m < 12 then WeightAt(s', m) - WeightAt(s, m) else 0)
  {
    forall l | 0 <= l < 12 && l != m ensures WeightAt(s', l) == WeightAt(s, l) {
      ListWeightSame(s.lists[l], l, s.content, s'.content, HeldAt(s, l));
    }
    TotalWeightChange(s, s', 12, m);
  }

  lemma {:induction false} AwakeChange(states: seq<State>, i: int, st: State)
    requires 0 <= i < |states|
    ensures Awake(states[i := st]) == Awake(states) + (if st.suspended then 0 else 1) -
            (if states[i].suspended then 0 else 1)
  {
    var n := |states| - 1;
    if i < n {
      assert states[i := st][..n] == states[..n][i := st];
      AwakeChange(states[..n], i, st);
    } else {
      assert states[i := st][..n] == states[..n];
    }
  }
}
