/** The dispatcher of the Richards benchmark on the heap: packets linked into lists, control
    blocks, and the tasks they run.  Each method follows its step in DispatcherModel. */
module Dispatcher {
  import opened Common
  import opened DispatcherModel
  import M = DispatcherModel
  import opened DispatcherInvariant
  import opened DispatcherCounts
  import opened DispatcherTally
  import opened DispatcherThousand

  class Packet {
    var link: Packet?
    var id: int
    const kind: Kind
    var a1: int
    var a2: map<int, int>

    ghost function Carried(): Content
      reads this`id, this`a1, this`a2
    {
      Content(id, kind, a1, a2)
    }

    constructor (link: Packet?, id: int, kind: Kind)
      ensures this.link == link && Carried() == Content(id, kind, 0, map[])
    {
      this.link, this.id, this.kind, a1, a2 := link, id, kind, 0, map[];
    }

    /** Appends this packet to the list that starts at queue. */
    method AddTo(queue: Packet?, ghost ps: seq<Packet>) returns (r: Packet)
      requires IsList(queue, ps) && this !in ps && NoDuplicates(ps)
      modifies this`link, ps`link
      ensures IsList(r, ps + [this])
    {
      link := null;
      if queue == null {
        return this;
      }
      var next: Packet := queue;
      ghost var k := 0;
      while next.link != null
        invariant 0 <= k < |ps| && next == ps[k] && link == null && IsList(queue, ps)
        decreases |ps| - k
      {
        assert ps[k].link == if k + 1 < |ps| then ps[k + 1] else null;
        next := next.link;
        k := k + 1;
      }
      EndOfList(queue, ps, k);
      next.link := this;
      ghost var all := ps + [this];
      forall i | 0 <= i < |all| ensures all[i].link == if i + 1 < |all| then all[i + 1] else null {
        if i < k {
          assert all[i] == ps[i] != ps[|ps| - 1];
        }
      }
      return queue;
    }
  }

  /** The list that starts at head has exactly the packets ps, in this order. */
  ghost predicate IsList(head: Packet?, ps: seq<Packet>)
    reads ps`link
  {
    && head == (if ps == [] then null else ps[0])
    && forall i {:trigger ps[i].link} :: 0 <= i < |ps| ==> ps[i].link == (if i + 1 < |ps| then ps[i + 1] else null)
  }

  lemma EndOfList(head: Packet?, ps: seq<Packet>, k: nat)
    requires IsList(head, ps) && k < |ps| && ps[k].link == null
    ensures k == |ps| - 1
  {
  }

  class TaskControlBlock {
    const link: TaskControlBlock?
    const id: int
    const priority: int
    var queue: Packet?
    var state: State
    const task: Task

    constructor (link: TaskControlBlock?, id: int, priority: int, queue: Packet?, task: Task)
      ensures this.link == link && this.id == id && this.priority == priority && this.queue == queue
      ensures this.task == task && state == if queue == null then SUSPENDED else SUSPENDED_RUNNABLE
    {
      this.link, this.id, this.priority, this.queue, this.task := link, id, priority, queue, task;
      state := if queue == null then SUSPENDED else SUSPENDED_RUNNABLE;
    }

    predicate IsHeldOrSuspended()
      reads this`state
    {
      state.held || state == SUSPENDED
    }

    /** Adds a packet to the queue; an empty queue makes this block runnable. */
    method CheckPriorityAdd(task: TaskControlBlock, packet: Packet, ghost ps: seq<Packet>)
      returns (r: TaskControlBlock)
      requires IsList(queue, ps) && packet !in ps && NoDuplicates(ps) && packet.link == null
      modifies this`queue, this`state, packet`link, ps`link
      ensures IsList(queue, ps + [packet])
      ensures state == if ps == [] then old(state).(runnable := true) else old(state)
      ensures r == if ps == [] && priority > task.priority then this else task
    {
      if queue == null {
        queue := packet;
        state := state.(runnable := true);
        if priority > task.priority {
          return this;
        }
      } else {
        queue := packet.AddTo(queue, ps);
      }
      return task;
    }

    /** Runs the task, with the first packet of the queue if the block was suspended. */
    method Run(ghost scheduler: Scheduler, ghost s: System<Packet>) returns (r: TaskControlBlock?)
      requires scheduler.Built() && scheduler.Rep(s) && scheduler.Current(s) && Kept(s, {})
      requires this == scheduler.blocks[s.cur] && s.curId == s.cur && !HeldOrSuspended(s.states[s.cur])
      modifies scheduler.Tasks(), scheduler`holdCount, scheduler`queueCount
      modifies scheduler.Blocks()`state, scheduler.Blocks()`queue, s.content.Keys
      ensures scheduler.blocks == old(scheduler.blocks)
      ensures scheduler.Rep(RunBlock(s)) && scheduler.IsBlock(r, RunBlock(s).cur)
    {
      hide *;
      scheduler.BlockParts(s);
      if state == SUSPENDED_RUNNABLE {
        TakeKept(s);
        var packet := TakePacket(scheduler, s);
        r := RunTask(packet, scheduler, Take(s));
      } else {
        r := RunTask(null, scheduler, s);
      }
    }

    method TakePacket(ghost scheduler: Scheduler, ghost s: System<Packet>) returns (packet: Packet)
      requires scheduler.Built() && scheduler.Rep(s) && scheduler.Current(s) && Conserved(s, {})
      requires this == scheduler.blocks[s.cur] && s.lists[s.cur] != []
      modifies this`queue, this`state
      ensures packet == s.lists[s.cur][0]
      ensures scheduler.Rep(Take(s)) && scheduler.Current(Take(s))
    {
      hide *;
      scheduler.TakeParts(s);
      packet := queue;
      queue := packet.link;
      if queue == null {
        state := RUNNING;
      } else {
        state := RUNNABLE;
      }
      scheduler.Delivered(Change(s, Take(s), s.cur, packet));
      scheduler.SameCurrent(s, Take(s));
    }

    method RunTask(packet: Packet?, ghost scheduler: Scheduler, ghost s: System<Packet>) returns (r: TaskControlBlock?)
      requires scheduler.Built() && scheduler.Rep(s) && scheduler.Current(s)
      requires this == scheduler.blocks[s.cur]
      requires packet == null ==> Kept(s, {})
      requires packet != null ==> packet in s.content && Kept(s, {packet}) && Fits(s.cur, s.content[packet])
      modifies scheduler.Tasks(), scheduler`holdCount, scheduler`queueCount
      modifies scheduler.Blocks()`state, scheduler.Blocks()`queue, s.content.Keys
      ensures scheduler.blocks == old(scheduler.blocks)
      ensures scheduler.Rep(M.RunTask(s, Maybe(packet))) && scheduler.IsBlock(r, M.RunTask(s, Maybe(packet)).cur)
    {
      hide *;
      scheduler.TaskParts(s, packet);
      match task {
        case Idle(t) => r := t.Run(s);
        case Worker(t) => r := t.Run(packet, s);
        case Handler(t) => r := t.Run(packet, s);
        case IO(t) => r := t.Run(packet, s);
      }
    }
  }

  datatype Task =
    | Idle(idle: IdleTask)
    | Worker(worker: WorkerTask)
    | Handler(handler: HandlerTask)
    | IO(device: DeviceTask)

  class IdleTask {
    const scheduler: Scheduler
    var v1: nat
    var count: int

    constructor (scheduler: Scheduler, v1: nat, count: int)
      ensures this.scheduler == scheduler && this.v1 == v1 && this.count == count
    {
      this.scheduler, this.v1, this.count := scheduler, v1, count;
    }

    method Run(ghost s: System<Packet>) returns (r: TaskControlBlock?)
      requires scheduler.Built() && scheduler.Rep(s) && scheduler.Current(s)
      requires s.cur == ID_IDLE && scheduler.blocks[s.cur].task.idle == this
      modifies this, scheduler`holdCount, scheduler.Blocks()`state
      ensures scheduler.Rep(RunIdle(s)) && scheduler.IsBlock(r, RunIdle(s).cur)
    {
      hide *;
      scheduler.IdleParts(s);
      ghost var s0 := s.(count := s.count - 1);
      count := count - 1;
      if count == 0 {
        scheduler.IdleChanged(s, s0);
        r := scheduler.HoldCurrent(s0);
      } else if v1 % 2 == 0 {
        v1 := v1 / 2;
        ghost var s1 := s0.(seed := s.seed / 2);
        scheduler.IdleChanged(s, s1);
        r := scheduler.Release(ID_DEVICE_A, s1);
      } else {
        v1 := Xor(v1 / 2, 0xD008);
        ghost var s1 := s0.(seed := Xor(s.seed / 2, 0xD008));
        scheduler.IdleChanged(s, s1);
        r := scheduler.Release(ID_DEVICE_B, s1);
      }
    }
  }

  class DeviceTask {
    const scheduler: Scheduler
    var v1: Packet?

    constructor (scheduler: Scheduler)
      ensures this.scheduler == scheduler && v1 == null
    {
      this.scheduler, v1 := scheduler, null;
    }

    method Run(packet: Packet?, ghost s: System<Packet>) returns (r: TaskControlBlock?)
      requires scheduler.Built() && scheduler.Rep(s) && scheduler.Current(s)
      requires (s.cur == ID_DEVICE_A || s.cur == ID_DEVICE_B) && scheduler.blocks[s.cur].task.device == this
      requires InHand(s, packet)
      modifies this, scheduler`holdCount, scheduler`queueCount, scheduler.Blocks()`state, scheduler.Blocks()`queue
      modifies s.content.Keys`link, s.content.Keys`id
      ensures scheduler.Rep(RunDevice(s, Maybe(packet)))
      ensures scheduler.IsBlock(r, RunDevice(s, Maybe(packet)).cur)
    {
      hide *;
      ghost var l := s.cur + 6;
      scheduler.DeviceParts(s, packet);
      if packet == null {
        if v1 == null {
          r := scheduler.SuspendCurrent(s);
        } else {
          var v := v1;
          v1 := null;
          ghost var s' := SetList(s, l, []);
          scheduler.SlotChange(Change(s, s', l, v));
          SlotInHand(s, l);
          r := scheduler.Queue(v, s');
        }
      } else {
        v1 := packet;
        ghost var s' := SetList(s, l, [packet]);
        scheduler.SlotChange(Change(s, s', l, packet));
        r := scheduler.HoldCurrent(s');
      }
    }
  }

  class WorkerTask {
    const scheduler: Scheduler
    var v1: int
    var v2: int

    constructor (scheduler: Scheduler, v1: int, v2: int)
      ensures this.scheduler == scheduler && this.v1 == v1 && this.v2 == v2
    {
      this.scheduler, this.v1, this.v2 := scheduler, v1, v2;
    }

    method Run(packet: Packet?, ghost s: System<Packet>) returns (r: TaskControlBlock?)
      requires scheduler.Built() && scheduler.Rep(s) && scheduler.Current(s)
      requires s.cur == ID_WORKER && scheduler.blocks[s.cur].task.worker == this && InHand(s, packet)
      modifies this, scheduler`queueCount, scheduler.Blocks()`state, scheduler.Blocks()`queue
      modifies s.content.Keys`link, s.content.Keys`id, s.content.Keys`a1, s.content.Keys`a2
      ensures scheduler.Rep(RunWorker(s, Maybe(packet)))
      ensures scheduler.IsBlock(r, RunWorker(s, Maybe(packet)).cur)
    {
      hide *;
      scheduler.WorkerParts(s);
      WorkerCases(s, packet);
      if packet == null {
        r := scheduler.SuspendCurrent(s);
      } else {
        Rewrite(packet, s);
        r := scheduler.Queue(packet, Written(s, packet));
      }
    }

    /** The packet is addressed to the other handler and filled with letters. */
    method Rewrite(packet: Packet, ghost s: System<Packet>)
      requires scheduler.Built() && scheduler.Rep(s) && scheduler.Current(s)
      requires s.cur == ID_WORKER && scheduler.blocks[s.cur].task.worker == this && InHand(s, packet)
      modifies this, packet`id, packet`a1, packet`a2
      ensures scheduler.Rep(Written(s, packet)) && scheduler.Current(Written(s, packet))
    {
      hide *;
      scheduler.WorkerParts(s);
      WorkerCases(s, packet);
      Address(packet, s);
      WriteLetters(packet);
      ghost var others := scheduler.RepOthers(s);
      assert others;
      scheduler.WorkerDone(s, Written(s, packet));
    }

    method Address(packet: Packet, ghost s: System<Packet>)
      requires scheduler.Built() && scheduler.RepOthers(s)
      modifies this`v1, packet`id, packet`a1
      ensures scheduler.Built() && scheduler.RepOthers(s)
      ensures v1 == (if old(v1) == ID_HANDLER_A then ID_HANDLER_B else ID_HANDLER_A) && packet.id == v1 && packet.a1 == 0
    {
      hide *;
      if v1 == ID_HANDLER_A {
        v1 := ID_HANDLER_B;
      } else {
        v1 := ID_HANDLER_A;
      }
      packet.id := v1;
      packet.a1 := 0;
    }

    method WriteLetters(packet: Packet)
      modifies this`v2, packet`a2
      ensures (packet.a2, v2) == Letters(old(packet.a2), old(v2), DATA_SIZE)
    {
      for i := 0 to DATA_SIZE
        invariant (packet.a2, v2) == Letters(old(packet.a2), old(v2), i)
      {
        v2 := v2 + 1;
        if v2 > 26 {
          v2 := 1;
        }
        packet.a2 := packet.a2[i := v2];
      }
    }
  }

  class HandlerTask {
    const scheduler: Scheduler
    var v1: Packet?
    var v2: Packet?

    constructor (scheduler: Scheduler)
      ensures this.scheduler == scheduler && v1 == null && v2 == null
    {
      this.scheduler, v1, v2 := scheduler, null, null;
    }

    method Run(packet: Packet?, ghost s: System<Packet>) returns (r: TaskControlBlock?)
      requires scheduler.Built() && scheduler.Rep(s) && scheduler.Current(s)
      requires (s.cur == ID_HANDLER_A || s.cur == ID_HANDLER_B) && scheduler.blocks[s.cur].task.handler == this
      requires packet == null ==> Kept(s, {})
      requires packet != null ==> packet in s.content && Kept(s, {packet}) && Fits(s.cur, s.content[packet])
      modifies this, scheduler`queueCount, scheduler.Blocks()`state, scheduler.Blocks()`queue
      modifies s.content.Keys`link, s.content.Keys`id, s.content.Keys`a1
      ensures scheduler.Rep(RunHandler(s, Maybe(packet)))
      ensures scheduler.IsBlock(r, RunHandler(s, Maybe(packet)).cur)
    {
      hide *;
      HandlerCases(s, packet);
      if packet != null {
        FileKept(s, packet);
        FilePacket(packet, s);
        r := Serve(File(s, packet));
      } else {
        r := Serve(s);
      }
    }

    /** A packet goes to the end of the work list or of the device list. */
    method FilePacket(packet: Packet, ghost s: System<Packet>)
      requires scheduler.Built() && scheduler.Rep(s) && scheduler.Current(s)
      requires (s.cur == ID_HANDLER_A || s.cur == ID_HANDLER_B) && scheduler.blocks[s.cur].task.handler == this
      requires packet in s.content && Conserved(s, {packet})
      modifies this, s.content.Keys`link
      ensures scheduler.Rep(File(s, packet)) && scheduler.Current(File(s, packet))
    {
      hide *;
      if packet.kind == Work {
        FileWork(packet, s);
      } else {
        FileDevice(packet, s);
      }
    }

    method FileWork(packet: Packet, ghost s: System<Packet>)
      requires scheduler.Built() && scheduler.Rep(s) && scheduler.Current(s)
      requires (s.cur == ID_HANDLER_A || s.cur == ID_HANDLER_B) && scheduler.blocks[s.cur].task.handler == this
      requires packet in s.content && Conserved(s, {packet}) && packet.kind == Work
      modifies this, s.content.Keys`link
      ensures scheduler.Rep(File(s, packet)) && scheduler.Current(File(s, packet))
    {
      hide *;
      scheduler.FileParts(s, packet);
      v1 := packet.AddTo(v1, s.lists[2 * s.cur + 2]);
      scheduler.HandlerChange(Change(s, File(s, packet), 2 * s.cur + 2, packet));
    }

    method FileDevice(packet: Packet, ghost s: System<Packet>)
      requires scheduler.Built() && scheduler.Rep(s) && scheduler.Current(s)
      requires (s.cur == ID_HANDLER_A || s.cur == ID_HANDLER_B) && scheduler.blocks[s.cur].task.handler == this
      requires packet in s.content && Conserved(s, {packet}) && packet.kind != Work
      modifies this, s.content.Keys`link
      ensures scheduler.Rep(File(s, packet)) && scheduler.Current(File(s, packet))
    {
      hide *;
      scheduler.FileParts(s, packet);
      v2 := packet.AddTo(v2, s.lists[2 * s.cur + 3]);
      scheduler.HandlerChange(Change(s, File(s, packet), 2 * s.cur + 3, packet));
    }

    method Serve(ghost s: System<Packet>) returns (r: TaskControlBlock?)
      requires scheduler.Built() && scheduler.Rep(s) && scheduler.Current(s) && Kept(s, {})
      requires (s.cur == ID_HANDLER_A || s.cur == ID_HANDLER_B) && scheduler.blocks[s.cur].task.handler == this
      modifies this, scheduler`queueCount, scheduler.Blocks()`state, scheduler.Blocks()`queue
      modifies s.content.Keys`link, s.content.Keys`id, s.content.Keys`a1
      ensures scheduler.Rep(M.Serve(s)) && scheduler.IsBlock(r, M.Serve(s).cur)
    {
      hide *;
      ghost var l, l' := 2 * s.cur + 2, 2 * s.cur + 3;
      scheduler.ServeParts(s);
      if v1 != null {
        var count := v1.a1;
        if count < DATA_SIZE {
          if v2 != null {
            var v := v2;
            scheduler.DropParts(s, l');
            LetterParts(s);
            v2 := v2.link;
            ghost var s1 := SetList(s, l', s.lists[l'][1..]);
            scheduler.HandlerChange(Change(s, s1, l', v));
            r := SendLetter(v, s1);
            return;
          }
        } else {
          var v := v1;
          scheduler.DropParts(s, l);
          v1 := v1.link;
          ghost var s1 := SetList(s, l, s.lists[l][1..]);
          scheduler.HandlerChange(Change(s, s1, l, v));
          r := scheduler.Queue(v, s1);
          return;
        }
      }
      r := scheduler.SuspendCurrent(s);
    }

    /** The device packet v takes a letter to its device. */
    method SendLetter(v: Packet, ghost s: System<Packet>) returns (r: TaskControlBlock?)
      requires scheduler.Built() && scheduler.Rep(s) && scheduler.Current(s) && Conserved(s, {v})
      requires v1 != null && v1 != v && v in s.content && v1 in s.content && v1.a1 in v1.a2
      modifies scheduler`queueCount, scheduler.Blocks()`state, scheduler.Blocks()`queue
      modifies s.content.Keys`link, s.content.Keys`id, s.content.Keys`a1
      ensures Shaped(s) && s.cur >= 0 && v1 == old(v1) && Shaped(PassLetter(s, v, v1))
      ensures scheduler.Rep(M.Queue(PassLetter(s, v, v1), v))
      ensures scheduler.IsBlock(r, M.Queue(PassLetter(s, v, v1), v).cur)
    {
      hide *;
      scheduler.RepWithout(s);
      ghost var s' := PassLetter(s, v, v1);
      LetterContent(s, v, v1);
      v.a1 := v1.a2[v1.a1];
      v1.a1 := v1.a1 + 1;
      scheduler.RepWith(s, s');
      r := scheduler.Queue(v, s');
    }
  }

  /** The worker addresses a packet to the other handler and writes letters into it. */
  ghost function Written(s: System<Packet>, p: Packet): System<Packet>
    requires p in s.content
  {
    var v := if s.v1 == ID_HANDLER_A then ID_HANDLER_B else ID_HANDLER_A;
    var (a2, w) := Letters(s.content[p].a2, s.v2, DATA_SIZE);
    SetContent(s, p, Content(v, s.content[p].kind, 0, a2)).(v1 := v, v2 := w)
  }

  lemma WorkerCases(s: System<Packet>, packet: Packet?)
    requires Shaped(s) && s.cur == ID_WORKER && InHand(s, packet)
    ensures if packet == null then RunWorker(s, Maybe(packet)) == SuspendCurrent(s)
            else
              var p: Packet := packet;
              var s' := Written(s, p);
              && p in s.content && s'.content.Keys == s.content.Keys && Shaped(s') && Conserved(s', {p})
              && s' == s.(content := s'.content, v1 := s'.v1, v2 := s'.v2)
              && s'.v1 == (if s.v1 == ID_HANDLER_A then ID_HANDLER_B else ID_HANDLER_A)
              && s'.v2 == Letters(s.content[p].a2, s.v2, DATA_SIZE).1
              && s'.content == s.content[p :=
                   Content(s'.v1, s.content[p].kind, 0, Letters(s.content[p].a2, s.v2, DATA_SIZE).0)]
              && RunWorker(s, Maybe(packet)) == M.Queue(s', p)
  {
    hide M.Queue, Letters, Distinct, Somewhere;
    if packet != null {
      SameKeys(s, packet, Written(s, packet).content[packet]);
      ContentConserved(s, Written(s, packet), {packet});
    }
  }

  lemma HandlerCases(s: System<Packet>, packet: Packet?)
    requires s.cur == ID_HANDLER_A || s.cur == ID_HANDLER_B
    requires packet == null ==> Kept(s, {})
    requires packet != null ==> packet in s.content && Kept(s, {packet}) && Fits(s.cur, s.content[packet])
    ensures Shaped(s)
    ensures if packet == null then RunHandler(s, Maybe(packet)) == M.Serve(s)
            else
              var p: Packet := packet;
              && Conserved(s, {p}) && File(s, p).cur == s.cur && File(s, p).content == s.content
              && RunHandler(s, Maybe(packet)) == M.Serve(File(s, p))
  {
    hide M.Serve;
  }

  /** The effect of passing a letter on the contents. */
  lemma LetterContent(s: System<Packet>, v: Packet, w: Packet)
    requires Shaped(s) && v in s.content && w in s.content && v != w && Conserved(s, {v})
    requires s.content[w].a1 in s.content[w].a2
    ensures var (c, s') := (s.content[w], PassLetter(s, v, w));
            && s' == s.(content := s'.content) && s'.content.Keys == s.content.Keys && Conserved(s', {v}) && Shaped(s')
            && s'.content[v] == s.content[v].(a1 := c.a2[c.a1]) && s'.content[w] == c.(a1 := c.a1 + 1)
            && forall p :: p in s.content && p != v && p != w ==> s'.content[p] == s.content[p]
  {
    LetterKeys(s, v, w);
    hide Distinct, Somewhere;
    ContentConserved(s, PassLetter(s, v, w), {v});
  }

  /** The first work packet has a letter left, and is not the device packet. */
  lemma LetterParts(s: System<Packet>)
    requires Kept(s, {}) && (s.cur == ID_HANDLER_A || s.cur == ID_HANDLER_B)
    requires s.lists[2 * s.cur + 2] != [] && s.lists[2 * s.cur + 3] != []
    requires s.content[s.lists[2 * s.cur + 2][0]].a1 < DATA_SIZE
    ensures var (w, v) := (s.lists[2 * s.cur + 2][0], s.lists[2 * s.cur + 3][0]);
            && w != v && w in s.content && v in s.content && s.content[w].a1 in s.content[w].a2
            && M.Serve(s) ==
                 M.Queue(PassLetter(SetList(s, 2 * s.cur + 3, s.lists[2 * s.cur + 3][1..]), v, w), v)
  {
    hide Distinct, Somewhere, M.Queue, BitsMatch, SlotsSafe, TasksOk;
    NotInHand(s, 2 * s.cur + 2, 2 * s.cur + 3);
  }

  ghost function Maybe(packet: Packet?): Option<Packet> {
    if packet == null then None else var p: Packet := packet; Some(p)
  }

  /** What a task is called with: the packet in hand, if any, is in no place. */
  ghost predicate InHand(s: System<Packet>, packet: Packet?) {
    if packet == null then Conserved(s, {}) else packet in s.content && Conserved(s, {packet})
  }

  /** A step that touches one place and one packet. */
  datatype Change = Change(before: System<Packet>, after: System<Packet>, place: int, packet: Packet)

  class Scheduler {
    var queueCount: int
    var holdCount: int
    var blocks: map<int, TaskControlBlock>
    var list: TaskControlBlock?
    var currentTcb: TaskControlBlock?
    var currentId: int

    constructor ()
      ensures queueCount == 0 && holdCount == 0 && blocks == map[] && list == null && currentTcb == null && currentId == -1
    {
      queueCount, holdCount, blocks, list, currentTcb, currentId := 0, 0, map[], null, null, -1;
    }

    /** The six blocks that runRichards makes. */
    ghost predicate Built()
      reads this`blocks
    {
      (forall i :: i in blocks <==> 0 <= i < 6) && Linked() && Tasked() && Wired()
    }

    ghost predicate Linked()
      requires forall i :: i in blocks <==> 0 <= i < 6
      reads this`blocks
    {
      && (forall i :: 0 <= i < 6 ==> blocks[i].id == i && blocks[i].priority == Priority(i))
      && (forall i :: 1 <= i < 6 ==> blocks[i].link == blocks[i - 1]) && blocks[0].link == null
    }

    ghost predicate Tasked()
      requires forall i :: i in blocks <==> 0 <= i < 6
      reads this`blocks
    {
      && blocks[0].task.Idle? && blocks[1].task.Worker? && blocks[2].task.Handler? && blocks[3].task.Handler?
      && blocks[4].task.IO? && blocks[5].task.IO?
    }

    ghost predicate Wired()
      requires (forall i :: i in blocks <==> 0 <= i < 6) && Tasked()
      reads this`blocks
    {
      && blocks[2].task.handler != blocks[3].task.handler && blocks[4].task.device != blocks[5].task.device
      && blocks[0].task.idle.scheduler == this && blocks[1].task.worker.scheduler == this
      && blocks[2].task.handler.scheduler == this && blocks[3].task.handler.scheduler == this
      && blocks[4].task.device.scheduler == this && blocks[5].task.device.scheduler == this
    }

    ghost function Blocks(): set<TaskControlBlock>
      reads this`blocks
    {
      set i | i in blocks :: blocks[i]
    }

    ghost function Tasks(): set<object>
      requires Built()
      reads this`blocks
    {
      {blocks[0].task.idle, blocks[1].task.worker, blocks[2].task.handler, blocks[3].task.handler,
       blocks[4].task.device, blocks[5].task.device}
    }

    /** Where the packets of place l start. */
    ghost function Head(l: int): Packet?
      requires Built() && 0 <= l < 12
      reads this`blocks, Blocks()`queue
      reads blocks[2].task.handler`v1, blocks[2].task.handler`v2, blocks[3].task.handler`v1,
            blocks[3].task.handler`v2, blocks[4].task.device`v1, blocks[5].task.device`v1
    {
      if l < 6 then blocks[l].queue
      else if l == 6 then blocks[2].task.handler.v1
      else if l == 7 then blocks[2].task.handler.v2
      else if l == 8 then blocks[3].task.handler.v1
      else if l == 9 then blocks[3].task.handler.v2
      else blocks[l - 6].task.device.v1
    }

    /** A device refers to one packet, whatever that packet still links to. */
    ghost predicate At(l: int, ps: seq<Packet>)
      requires Built() && 0 <= l < 12
      reads this`blocks, Blocks()`queue, ps`link
      reads blocks[2].task.handler`v1, blocks[2].task.handler`v2, blocks[3].task.handler`v1,
            blocks[3].task.handler`v2, blocks[4].task.device`v1, blocks[5].task.device`v1
    {
      if l < 10 then IsList(Head(l), ps)
      else |ps| <= 1 && Head(l) == if ps == [] then null else ps[0]
    }

    ghost predicate RepLists(s: System<Packet>)
      requires Built() && Shaped(s)
      reads this`blocks, Blocks()`queue, s.content.Keys`link
      reads blocks[2].task.handler`v1, blocks[2].task.handler`v2, blocks[3].task.handler`v1,
            blocks[3].task.handler`v2, blocks[4].task.device`v1, blocks[5].task.device`v1
    {
      forall l :: 0 <= l < 12 ==> InContent(s.lists[l], s.content) && At(l, s.lists[l])
    }

    ghost predicate RepContent(s: System<Packet>)
      reads s.content.Keys`id, s.content.Keys`a1, s.content.Keys`a2
    {
      forall p :: p in s.content ==> p.Carried() == s.content[p]
    }

    ghost predicate RepStates(s: System<Packet>)
      requires Built() && Shaped(s)
      reads this`blocks, Blocks()`state
    {
      forall i :: 0 <= i < 6 ==> blocks[i].state == s.states[i]
    }

    ghost predicate RepTasks(s: System<Packet>)
      requires Built()
      reads this`blocks, blocks[0].task.idle`v1, blocks[0].task.idle`count, blocks[1].task.worker`v1,
            blocks[1].task.worker`v2
    {
      && blocks[0].task.idle.v1 == s.seed && blocks[0].task.idle.count == s.count
      && blocks[1].task.worker.v1 == s.v1 && blocks[1].task.worker.v2 == s.v2
    }

    ghost predicate RepCounts(s: System<Packet>)
      reads this`queueCount, this`holdCount
    {
      queueCount == s.queueCount && holdCount == s.holdCount
    }

    /** The heap is in state s, but for where the control is. */
    ghost predicate Rep(s: System<Packet>)
      requires Built()
      reads this`blocks, this`queueCount, this`holdCount, Blocks()`queue, Blocks()`state
      reads blocks[0].task.idle`v1, blocks[0].task.idle`count, blocks[1].task.worker`v1, blocks[1].task.worker`v2
      reads blocks[2].task.handler`v1, blocks[2].task.handler`v2, blocks[3].task.handler`v1,
            blocks[3].task.handler`v2, blocks[4].task.device`v1, blocks[5].task.device`v1
      reads s.content.Keys`link, s.content.Keys`id, s.content.Keys`a1, s.content.Keys`a2
    {
      Shaped(s) && RepLists(s) && RepContent(s) && RepStates(s) && RepTasks(s) && RepCounts(s)
    }

    /** The block that runs is the current one of s. */
    ghost predicate Current(s: System<Packet>)
      requires Built()
      reads this`blocks, this`currentTcb, this`currentId
    {
      0 <= s.cur < 6 && currentTcb == blocks[s.cur] && currentId == s.curId
    }

    ghost predicate IsBlock(r: TaskControlBlock?, cur: int)
      requires Built()
      reads this`blocks
    {
      if 0 <= cur < 6 then r == blocks[cur] else r == null
    }

    lemma SameParts(s: System<Packet>, s': System<Packet>)
      requires Built() && Shaped(s) && RepLists(s) && RepContent(s) && RepStates(s)
      requires s'.lists == s.lists && s'.states == s.states && s'.content == s.content && -1 <= s'.cur < 6
      ensures Shaped(s') && RepLists(s') && RepContent(s') && RepStates(s')
    {
    }

    lemma IdleParts(s: System<Packet>)
      requires Built() && Rep(s) && Current(s) && s.cur == ID_IDLE
      ensures blocks[0].task.Idle? && blocks[s.cur] == blocks[0]
      ensures blocks[0].task.idle.v1 == s.seed && blocks[0].task.idle.count == s.count
      ensures RepAll(s) && 0 <= ID_DEVICE_A < 6 && 0 <= ID_DEVICE_B < 6
      ensures var s0 := s.(count := s.count - 1);
              && (s0.count == 0 ==> RunIdle(s) == M.HoldCurrent(s0))
              && (s0.count != 0 && s.seed % 2 == 0 ==> RunIdle(s) == M.Release(s0.(seed := s.seed / 2), ID_DEVICE_A))
              && (s0.count != 0 && s.seed % 2 != 0 ==>
                    RunIdle(s) == M.Release(s0.(seed := Xor(s.seed / 2, 0xD008)), ID_DEVICE_B))
    {
      assert s.(count := 0) == s.(count := s.count - 1) || s.count != 1;
    }

    /** All that does not depend on the idle task. */
    ghost predicate RepAll(s: System<Packet>)
      requires Built()
      reads this`blocks, this`queueCount, this`holdCount, this`currentTcb, this`currentId
      reads Blocks()`queue, Blocks()`state, blocks[1].task.worker`v1, blocks[1].task.worker`v2
      reads blocks[2].task.handler`v1, blocks[2].task.handler`v2, blocks[3].task.handler`v1,
            blocks[3].task.handler`v2, blocks[4].task.device`v1, blocks[5].task.device`v1
      reads s.content.Keys`link, s.content.Keys`id, s.content.Keys`a1, s.content.Keys`a2
    {
      && Shaped(s) && RepLists(s) && RepContent(s) && RepStates(s) && RepCounts(s) && Current(s)
      && blocks[1].task.worker.v1 == s.v1 && blocks[1].task.worker.v2 == s.v2
    }

    lemma IdleChanged(s: System<Packet>, s': System<Packet>)
      requires Built() && RepAll(s) && s' == s.(seed := s'.seed, count := s'.count)
      requires blocks[0].task.idle.v1 == s'.seed && blocks[0].task.idle.count == s'.count
      ensures Rep(s') && Current(s')
    {
      SameParts(s, s');
    }

    lemma DeviceParts(s: System<Packet>, packet: Packet?)
      requires Built() && Rep(s) && Current(s) && InHand(s, packet)
      requires s.cur == ID_DEVICE_A || s.cur == ID_DEVICE_B
      ensures 4 <= s.cur < 6 && |s.lists| == 12 && Shaped(s) && RepTasks(s) && RepCounts(s) && (packet == null ==> Conserved(s, {}))
      ensures Built() && blocks[s.cur].task.IO? && blocks[9 - s.cur].task.IO?
      ensures blocks[9 - s.cur].task.device != blocks[s.cur].task.device
      ensures blocks[2].task.Handler? && blocks[3].task.Handler?
      ensures var ps := s.lists[s.cur + 6];
              && |ps| <= 1 && blocks[s.cur].task.device.v1 == (if ps == [] then null else ps[0])
              && (if packet != null then
                    var p: Packet := packet;
                    p in s.content && RunDevice(s, Maybe(packet)) == M.HoldCurrent(SetList(s, s.cur + 6, [p]))
                  else if ps == [] then RunDevice(s, Maybe(packet)) == M.SuspendCurrent(s)
                  else RunDevice(s, Maybe(packet)) == M.Queue(SetList(s, s.cur + 6, []), ps[0]))
    {
      hide M.Queue, M.SuspendCurrent, M.HoldCurrent;
      assert At(s.cur + 6, s.lists[s.cur + 6]);
    }

    /** The device of the current block refers to another packet, or none. */
    twostate lemma SlotChange(c: Change)
      requires Built() && blocks == old(blocks) && old(Rep(c.before)) && Current(c.before)
      requires Shaped(c.before) && 10 <= c.place < 12 && c.place == c.before.cur + 6
      requires var p := blocks[c.place - 6].task.device.v1;
               && c.after == SetList(c.before, c.place, if p == null then [] else [p])
               && (p != null ==> p in c.before.content)
      requires forall i :: 0 <= i < 6 ==>
                 blocks[i].queue == old(blocks[i].queue) && blocks[i].state == old(blocks[i].state)
      requires RepTasks(c.before) && RepCounts(c.before)
      requires blocks[2].task.handler.v1 == old(blocks[2].task.handler.v1)
      requires blocks[2].task.handler.v2 == old(blocks[2].task.handler.v2)
      requires blocks[3].task.handler.v1 == old(blocks[3].task.handler.v1)
      requires blocks[3].task.handler.v2 == old(blocks[3].task.handler.v2)
      requires blocks[15 - c.place].task.device.v1 == old(blocks[15 - c.place].task.device.v1)
      requires forall p: Packet :: p in c.before.content ==> p.link == old(p.link) && p.Carried() == old(p.Carried())
      ensures Rep(c.after) && Current(c.after)
    {
      hide RepLists;
      ListsChange(c);
    }

    lemma HandlerParts(s: System<Packet>)
      requires Built() && Rep(s) && Current(s)
      requires s.cur == ID_HANDLER_A || s.cur == ID_HANDLER_B
      ensures 2 <= s.cur < 4 && Shaped(s) && |s.lists| == 12 && RepTasks(s) && RepCounts(s)
      ensures forall i :: i in blocks <==> 0 <= i < 6
      ensures blocks[0].task.Idle? && blocks[1].task.Worker? && blocks[4].task.IO? && blocks[5].task.IO?
      ensures blocks[2].task.Handler? && blocks[3].task.Handler?
      ensures blocks[2].task.handler != blocks[3].task.handler
      ensures forall l :: l == 2 * s.cur + 2 || l == 2 * s.cur + 3 ==>
                forall i :: 0 <= i < |s.lists[l]| ==> s.lists[l][i] in s.content
      ensures var h := blocks[s.cur].task.handler;
              IsList(h.v1, s.lists[2 * s.cur + 2]) && IsList(h.v2, s.lists[2 * s.cur + 3])
    {
      hide IsList;
      assert At(2 * s.cur + 2, s.lists[2 * s.cur + 2]) && At(2 * s.cur + 3, s.lists[2 * s.cur + 3]);
    }

    /** Which task the current block runs. */
    lemma TaskParts(s: System<Packet>, packet: Packet?)
      requires Built() && Rep(s) && Current(s)
      requires packet == null ==> Kept(s, {})
      requires packet != null ==> packet in s.content && Kept(s, {packet}) && Fits(s.cur, s.content[packet])
      ensures Shaped(s) && 0 <= s.cur < 6 && s.cur in blocks && InHand(s, packet)
      ensures var (t, m) := (blocks[s.cur].task, Maybe(packet));
              && (t.Idle? ==>
                    s.cur == ID_IDLE && t.idle.scheduler == this && t.idle in Tasks() &&
                    M.RunTask(s, m) == RunIdle(s))
              && (t.Worker? ==>
                    s.cur == ID_WORKER && t.worker.scheduler == this && t.worker in Tasks() &&
                    M.RunTask(s, m) == RunWorker(s, m))
              && (t.Handler? ==>
                    (s.cur == ID_HANDLER_A || s.cur == ID_HANDLER_B) && t.handler.scheduler == this &&
                    t.handler in Tasks() && M.RunTask(s, m) == RunHandler(s, m))
              && (t.IO? ==>
                    (s.cur == ID_DEVICE_A || s.cur == ID_DEVICE_B) && t.device.scheduler == this &&
                    t.device in Tasks() && M.RunTask(s, m) == RunDevice(s, m))
    {
      hide RunIdle, RunWorker, RunHandler, RunDevice, RepLists, RepContent, RepStates, AllFit, Conserved;
    }

    lemma SameCurrent(s: System<Packet>, s': System<Packet>)
      requires Built() && Current(s) && s'.cur == s.cur && s'.curId == s.curId
      ensures Current(s')
    {
    }

    lemma BlockParts(s: System<Packet>)
      requires Built() && Rep(s) && Current(s) && Kept(s, {}) && !HeldOrSuspended(s.states[s.cur])
      ensures Shaped(s) && 0 <= s.cur < 6 && |s.states| == 6 && |s.lists| == 12
      ensures blocks[s.cur].state == s.states[s.cur] && Conserved(s, {}) && blocks[s.cur] in Blocks()
      ensures if s.states[s.cur] == SUSPENDED_RUNNABLE then
                && s.lists[s.cur] != [] && Take(s).content == s.content && Take(s).cur == s.cur
                && RunBlock(s) == M.RunTask(Take(s), Maybe(s.lists[s.cur][0]))
              else RunBlock(s) == M.RunTask(s, Maybe(null))
    {
      hide M.RunTask, AllFit, Conserved, RepLists, RepContent;
    }

    lemma TakeParts(s: System<Packet>)
      requires Built() && Rep(s) && Current(s) && Conserved(s, {}) && s.lists[s.cur] != []
      ensures 0 <= s.cur < 6 && |s.lists| == 12 && Shaped(s) && Shaped(Take(s))
      ensures queueCount == s.queueCount && holdCount == s.holdCount
      ensures forall i :: i in blocks <==> 0 <= i < 6
      ensures forall i :: 0 <= i < 6 && i != s.cur ==> blocks[i] != blocks[s.cur]
      ensures blocks[0].task.Idle? && blocks[1].task.Worker?
      ensures blocks[2].task.Handler? && blocks[3].task.Handler? && blocks[4].task.IO? && blocks[5].task.IO?
      ensures blocks[s.cur].queue == s.lists[s.cur][0] && s.lists[s.cur][0] in s.content
      ensures var (p, s') := (s.lists[s.cur][0], Take(s));
              && IsList(p.link, s.lists[s.cur][1..]) && s.content == s.content[p := Content(p.id, p.kind, p.a1, p.a2)]
              && (s.lists[s.cur][1..] == [] <==> p.link == null)
              && s' == s.(lists := s.lists[s.cur := s.lists[s.cur][1..]],
                          states := s.states[s.cur := if p.link == null then RUNNING else RUNNABLE])
      ensures forall l, i :: 0 <= l < 12 && l != s.cur && 0 <= i < |s.lists[l]| ==>
                s.lists[l][i] != s.lists[s.cur][0] && s.lists[l][i] !in s.lists[s.cur]
    {
      hide IsList, At, Somewhere;
      ElsewhereAll(s, s.cur);
      ListAt(s, s.cur);
      var p := s.lists[s.cur][0];
      CarriedBy(s, p);
      assert s.content == s.content[p := s.content[p]];
      hide RepStates, RepContent, Conserved, RepLists;
      IsListHead(blocks[s.cur].queue, s.lists[s.cur]);
      IsListTail(blocks[s.cur].queue, s.lists[s.cur]);
      IsListHead(s.lists[s.cur][0].link, s.lists[s.cur][1..]);
      DropConserved(s, s.cur);
    }

    /** The heap but for the contents of packets. */
    ghost predicate RepRest(s: System<Packet>)
      requires Built()
      reads this`blocks, this`queueCount, this`holdCount, this`currentTcb, this`currentId
      reads Blocks()`queue, Blocks()`state, s.content.Keys`link
      reads blocks[0].task.idle`v1, blocks[0].task.idle`count, blocks[1].task.worker`v1, blocks[1].task.worker`v2
      reads blocks[2].task.handler`v1, blocks[2].task.handler`v2, blocks[3].task.handler`v1,
            blocks[3].task.handler`v2, blocks[4].task.device`v1, blocks[5].task.device`v1
    {
      Shaped(s) && RepLists(s) && RepStates(s) && RepTasks(s) && RepCounts(s) && Current(s)
    }

    lemma RepWithout(s: System<Packet>)
      requires Built() && Rep(s) && Current(s)
      ensures Built() && RepRest(s) && Shaped(s) && s.cur >= 0
      ensures forall p: Packet :: p in s.content ==> Content(p.id, p.kind, p.a1, p.a2) == s.content[p]
    {
    }

    lemma RepWith(s: System<Packet>, s': System<Packet>)
      requires Built() && RepRest(s) && Shaped(s') && s' == s.(content := s'.content) && s'.content.Keys == s.content.Keys
      requires forall p: Packet :: p in s'.content ==> Content(p.id, p.kind, p.a1, p.a2) == s'.content[p]
      ensures Built() && Rep(s') && Current(s')
    {
    }

    /** The heap but for the contents of packets and the worker. */
    ghost predicate RepOthers(s: System<Packet>)
      requires Built()
      reads this`blocks, this`queueCount, this`holdCount, this`currentTcb, this`currentId,
            Blocks()`queue, Blocks()`state, s.content.Keys`link
      reads blocks[0].task.idle`v1, blocks[0].task.idle`count
      reads blocks[2].task.handler`v1, blocks[2].task.handler`v2, blocks[3].task.handler`v1,
            blocks[3].task.handler`v2, blocks[4].task.device`v1, blocks[5].task.device`v1
    {
      && Shaped(s) && RepLists(s) && RepStates(s) && RepCounts(s) && Current(s)
      && blocks[0].task.idle.v1 == s.seed && blocks[0].task.idle.count == s.count
    }

    lemma WorkerParts(s: System<Packet>)
      requires Built() && Rep(s) && Current(s) && s.cur == ID_WORKER
      ensures Shaped(s) && Built() && RepOthers(s) && s.cur == 1 && forall i :: i in blocks <==> 0 <= i < 6
      ensures blocks[0].task.Idle? && blocks[1].task.Worker? && blocks[2].task.Handler? && blocks[3].task.Handler?
      ensures blocks[4].task.IO? && blocks[5].task.IO? && forall b :: b in Blocks() ==> exists i :: 0 <= i < 6 && b == blocks[i]
      ensures blocks[1].task.worker.v1 == s.v1 && blocks[1].task.worker.v2 == s.v2
      ensures forall q: Packet :: q in s.content ==> Content(q.id, q.kind, q.a1, q.a2) == s.content[q]
    {
    }

    lemma WorkerDone(s: System<Packet>, s': System<Packet>)
      requires Built() && RepOthers(s) && Shaped(s') && s' == s.(content := s'.content, v1 := s'.v1, v2 := s'.v2)
      requires s'.content.Keys == s.content.Keys
      requires blocks[1].task.worker.v1 == s'.v1 && blocks[1].task.worker.v2 == s'.v2
      requires forall p: Packet :: p in s'.content ==> Content(p.id, p.kind, p.a1, p.a2) == s'.content[p]
      ensures Built() && Rep(s') && Current(s')
    {
    }

    lemma ServeParts(s: System<Packet>)
      requires Built() && Rep(s) && Current(s) && Kept(s, {})
      requires s.cur == ID_HANDLER_A || s.cur == ID_HANDLER_B
      ensures 2 <= s.cur < 4 && Shaped(s) && |s.lists| == 12
      ensures blocks[s.cur].task.Handler?
      ensures var (h, works, devices) := (blocks[s.cur].task.handler, s.lists[2 * s.cur + 2], s.lists[2 * s.cur + 3]);
              && h.v1 == (if works == [] then null else works[0])
              && h.v2 == (if devices == [] then null else devices[0])
              && (works != [] ==> works[0] in s.content && works[0].a1 == s.content[works[0]].a1)
              && (works != [] ==> works[0].a2 == s.content[works[0]].a2)
              && (if works != [] && s.content[works[0]].a1 >= DATA_SIZE then
                    M.Serve(s) == M.Queue(SetList(s, 2 * s.cur + 2, works[1..]), works[0])
                  else works == [] || devices == [] ==> M.Serve(s) == M.SuspendCurrent(s))
    {
      hide IsList, RepLists, At, Conserved, AllFit, BitsMatch, M.Queue, M.SuspendCurrent;
      HandlerParts(s);
      IsListHead(blocks[s.cur].task.handler.v1, s.lists[2 * s.cur + 2]);
      IsListHead(blocks[s.cur].task.handler.v2, s.lists[2 * s.cur + 3]);
      if s.lists[2 * s.cur + 2] != [] {
        CarriedBy(s, s.lists[2 * s.cur + 2][0]);
      }
    }

    /** Taking the first packet off the work list or the device list. */
    lemma DropParts(s: System<Packet>, l: int)
      requires Built() && Rep(s) && Current(s) && Kept(s, {})
      requires s.cur == ID_HANDLER_A || s.cur == ID_HANDLER_B
      requires (l == 2 * s.cur + 2 || l == 2 * s.cur + 3) && s.lists[l] != []
      ensures forall i :: i in blocks <==> 0 <= i < 6
      ensures blocks[0].task.Idle? && blocks[1].task.Worker? && blocks[4].task.IO? && blocks[5].task.IO?
      ensures blocks[2].task.Handler? && blocks[3].task.Handler?
      ensures blocks[2].task.handler != blocks[3].task.handler
      ensures var (p, s') := (s.lists[l][0], SetList(s, l, s.lists[l][1..]));
              && p in s.content && Shaped(s') && s'.lists == s.lists[l := s.lists[l][1..]] && s'.content == s.content
              && Conserved(s', {p}) && IsList(p.link, s.lists[l][1..])
              && forall m, i :: 0 <= m < 12 && m != l && 0 <= i < |s.lists[m]| ==>
                   s.lists[m][i] != p && s.lists[m][i] !in s.lists[l]
    {
      hide AllFit, BitsMatch, RepLists, At;
      HandlerParts(s);
      IsListTail(s.lists[l][0], s.lists[l]);
      hide IsList, Somewhere;
      ElsewhereAll(s, l);
      DropConserved(s, l);
    }

    lemma FileParts(s: System<Packet>, p: Packet)
      requires Built() && Rep(s) && Current(s) && p in s.content && Conserved(s, {p})
      requires s.cur == ID_HANDLER_A || s.cur == ID_HANDLER_B
      ensures 2 <= s.cur < 4 && Shaped(s) && |s.lists| == 12 && RepTasks(s) && RepCounts(s)
      ensures forall i :: i in blocks <==> 0 <= i < 6
      ensures blocks[0].task.Idle? && blocks[1].task.Worker? && blocks[4].task.IO? && blocks[5].task.IO?
      ensures blocks[2].task.Handler? && blocks[3].task.Handler?
      ensures blocks[2].task.handler != blocks[3].task.handler
      ensures var h := blocks[s.cur].task.handler;
              IsList(h.v1, s.lists[2 * s.cur + 2]) && IsList(h.v2, s.lists[2 * s.cur + 3])
      ensures var l := if p.kind == Work then 2 * s.cur + 2 else 2 * s.cur + 3;
              && File(s, p) == SetList(s, l, s.lists[l] + [p]) && Shaped(File(s, p))
              && File(s, p).lists == s.lists[l := s.lists[l] + [p]]
              && p !in s.lists[l] && NoDuplicates(s.lists[l]) && (forall q :: q in s.lists[l] ==> q in s.content)
              && forall m, i :: 0 <= m < 12 && m != l && 0 <= i < |s.lists[m]| ==>
                   s.lists[m][i] != p && s.lists[m][i] !in s.lists[l]
    {
      hide IsList, Conserved, RepLists, At, NoDuplicates;
      HandlerParts(s);
      CarriedBy(s, p);
      Elsewhere(s, if p.kind == Work then 2 * s.cur + 2 else 2 * s.cur + 3, p);
    }

    /** The work list or the device list of a handler changes, and links in it. */
    twostate lemma HandlerChange(c: Change)
      requires Built() && blocks == old(blocks) && old(Rep(c.before)) && old(Current(c.before))
      requires currentTcb == old(currentTcb) && currentId == old(currentId)
      requires Shaped(c.before) && Shaped(c.after) && 6 <= c.place < 10
      requires c.after == SetList(c.before, c.place, c.after.lists[c.place])
      requires forall i :: 0 <= i < 6 ==>
                 blocks[i].queue == old(blocks[i].queue) && blocks[i].state == old(blocks[i].state)
      requires c.place != 6 ==> blocks[2].task.handler.v1 == old(blocks[2].task.handler.v1)
      requires c.place != 7 ==> blocks[2].task.handler.v2 == old(blocks[2].task.handler.v2)
      requires c.place != 8 ==> blocks[3].task.handler.v1 == old(blocks[3].task.handler.v1)
      requires c.place != 9 ==> blocks[3].task.handler.v2 == old(blocks[3].task.handler.v2)
      requires blocks[4].task.device.v1 == old(blocks[4].task.device.v1)
      requires blocks[5].task.device.v1 == old(blocks[5].task.device.v1)
      requires blocks[0].task.idle.v1 == old(blocks[0].task.idle.v1)
      requires blocks[0].task.idle.count == old(blocks[0].task.idle.count)
      requires blocks[1].task.worker.v1 == old(blocks[1].task.worker.v1)
      requires blocks[1].task.worker.v2 == old(blocks[1].task.worker.v2)
      requires queueCount == old(queueCount) && holdCount == old(holdCount)
      requires forall q: Packet :: q in c.before.content ==>
                 q.id == old(q.id) && q.a1 == old(q.a1) && q.a2 == old(q.a2)
      requires forall q: Packet :: q in c.before.content && q != c.packet && q !in c.before.lists[c.place] ==>
                 q.link == old(q.link)
      requires forall l, i :: 0 <= l < 12 && l != c.place && 0 <= i < |c.before.lists[l]| ==>
                 c.before.lists[l][i] != c.packet && c.before.lists[l][i] !in c.before.lists[c.place]
      requires IsList(if c.place == 6 then blocks[2].task.handler.v1 else if c.place == 7 then blocks[2].task.handler.v2
                      else if c.place == 8 then blocks[3].task.handler.v1 else blocks[3].task.handler.v2,
                      c.after.lists[c.place])
      ensures Rep(c.after) && Current(c.after)
    {
      hide RepLists, IsList;
      ListsChange(c);
    }

    // ----- setting up

    method AddTask(id: int, priority: int, queue: Packet?, task: Task) returns (ghost t: TaskControlBlock)
      modifies this`currentTcb, this`list, this`blocks
      ensures fresh(t) && currentTcb == t && list == t && blocks == old(blocks)[id := t]
      ensures t.link == old(list) && t.id == id && t.priority == priority && t.queue == queue && t.task == task
      ensures t.state == if queue == null then SUSPENDED else SUSPENDED_RUNNABLE
    {
      var tcb := new TaskControlBlock(list, id, priority, queue, task);
      currentTcb := tcb;
      list := tcb;
      blocks := blocks[id := tcb];
      t := tcb;
    }

    method AddRunningTask(id: int, priority: int, queue: Packet?, task: Task) returns (ghost t: TaskControlBlock)
      modifies this`currentTcb, this`list, this`blocks
      ensures fresh(t) && currentTcb == t && list == t && blocks == old(blocks)[id := t]
      ensures t.link == old(list) && t.id == id && t.priority == priority && t.queue == queue && t.task == task
      ensures t.state == RUNNING
    {
      t := AddTask(id, priority, queue, task);
      currentTcb.state := RUNNING;
    }

    method AddIdleTask(id: int, priority: int, queue: Packet?, count: int) returns (ghost t: TaskControlBlock)
      modifies this`currentTcb, this`list, this`blocks
      ensures fresh(t) && currentTcb == t && list == t && blocks == old(blocks)[id := t]
      ensures t.link == old(list) && t.id == id && t.priority == priority && t.queue == queue && t.state == RUNNING
      ensures t.task.Idle? && fresh(t.task.idle) && t.task.idle.scheduler == this
      ensures t.task.idle.v1 == 1 && t.task.idle.count == count
    {
      var task := new IdleTask(this, 1, count);
      t := AddRunningTask(id, priority, queue, Idle(task));
    }

    method AddWorkerTask(id: int, priority: int, queue: Packet?) returns (ghost t: TaskControlBlock)
      modifies this`currentTcb, this`list, this`blocks
      ensures fresh(t) && currentTcb == t && list == t && blocks == old(blocks)[id := t]
      ensures t.link == old(list) && t.id == id && t.priority == priority && t.queue == queue
      ensures t.state == if queue == null then SUSPENDED else SUSPENDED_RUNNABLE
      ensures t.task.Worker? && fresh(t.task.worker) && t.task.worker.scheduler == this
      ensures t.task.worker.v1 == ID_HANDLER_A && t.task.worker.v2 == 0
    {
      var task := new WorkerTask(this, ID_HANDLER_A, 0);
      t := AddTask(id, priority, queue, Worker(task));
    }

    method AddHandlerTask(id: int, priority: int, queue: Packet?) returns (ghost t: TaskControlBlock)
      modifies this`currentTcb, this`list, this`blocks
      ensures fresh(t) && currentTcb == t && list == t && blocks == old(blocks)[id := t]
      ensures t.link == old(list) && t.id == id && t.priority == priority && t.queue == queue
      ensures t.state == if queue == null then SUSPENDED else SUSPENDED_RUNNABLE
      ensures t.task.Handler? && fresh(t.task.handler) && t.task.handler.scheduler == this
      ensures t.task.handler.v1 == null && t.task.handler.v2 == null
    {
      var task := new HandlerTask(this);
      t := AddTask(id, priority, queue, Handler(task));
    }

    method AddDeviceTask(id: int, priority: int, queue: Packet?) returns (ghost t: TaskControlBlock)
      modifies this`currentTcb, this`list, this`blocks
      ensures fresh(t) && currentTcb == t && list == t && blocks == old(blocks)[id := t]
      ensures t.link == old(list) && t.id == id && t.priority == priority && t.queue == queue
      ensures t.state == if queue == null then SUSPENDED else SUSPENDED_RUNNABLE
      ensures t.task.IO? && fresh(t.task.device) && t.task.device.scheduler == this && t.task.device.v1 == null
    {
      var task := new DeviceTask(this);
      t := AddTask(id, priority, queue, IO(task));
    }

    // ----- the loop

    /** Runs blocks until there is none to run. */
    method Schedule(ghost s0: System<Packet>)
      requires Built() && Rep(s0) && Inv(s0) && s0.cur == ID_DEVICE_B && s0.curId == currentId
      requires list == blocks[ID_DEVICE_B]
      modifies this`currentTcb, this`currentId, this`holdCount, this`queueCount
      modifies Tasks(), Blocks()`state, Blocks()`queue, s0.content.Keys
      ensures Built() && Rep(Outcome(s0)) && Inv(Outcome(s0)) && currentTcb == null
      ensures Outcome(s0).cur == -1 && blocks[0].task.idle.count == 0
    {
      hide *;
      currentTcb := list;
      ghost var s := s0;
      ScheduleStart(s0);
      while currentTcb != null
        invariant Built() && Rep(s) && Inv(s) && IsBlock(currentTcb, s.cur) && s.curId == currentId
        invariant s.content.Keys == s0.content.Keys && Outcome(s) == Outcome(s0) && |s.lists| == 12
        invariant Tasks() == old(Tasks()) && Blocks() == old(Blocks())
        decreases s.count, TotalWeight(s, 12), Awake(s.states), s.cur + 1
      {
        TurnParts(s);
        TurnModel(s);
        ghost var s1 := Step(s);
        if currentTcb.IsHeldOrSuspended() {
          currentTcb := currentTcb.link;
        } else {
          currentId := currentTcb.id;
          SetCurrent(s.(curId := s.cur));
          currentTcb := currentTcb.Run(this, s.(curId := s.cur));
        }
        s := s1;
      }
      ScheduleEnd(s);
    }

    lemma ScheduleStart(s: System<Packet>)
      requires Built() && s.cur == ID_DEVICE_B && currentTcb == blocks[ID_DEVICE_B] && Inv(s)
      ensures IsBlock(currentTcb, s.cur) && |s.lists| == 12
    {
    }

    lemma SetCurrent(s: System<Packet>)
      requires Built() && 0 <= s.cur < 6 && currentTcb == blocks[s.cur] && currentId == s.curId
      ensures Current(s)
    {
    }

    /** The heap side of one turn of the loop. */
    lemma TurnParts(s: System<Packet>)
      requires Built() && Rep(s) && Inv(s) && currentTcb != null && IsBlock(currentTcb, s.cur)
      ensures 0 <= s.cur < 6 && currentTcb == blocks[s.cur] && currentTcb.id == s.cur && Shaped(s)
      ensures currentTcb.IsHeldOrSuspended() <==> HeldOrSuspended(s.states[s.cur])
      ensures Rep(s.(cur := s.cur - 1)) && IsBlock(currentTcb.link, s.cur - 1)
      ensures Rep(s.(curId := s.cur)) && this !in Tasks()
      ensures forall i :: i in blocks <==> 0 <= i < 6
      ensures blocks[0].task.Idle? && blocks[1].task.Worker?
      ensures blocks[2].task.Handler? && blocks[3].task.Handler? && blocks[4].task.IO? && blocks[5].task.IO?
    {
      hide Distinct, Somewhere, AllFit, RepTasks, RepContent, RepLists, RepStates, At;
      SameParts(s, s.(cur := s.cur - 1));
      SameParts(s, s.(curId := s.cur));
      SameTasks(s, s.(cur := s.cur - 1));
      SameTasks(s, s.(curId := s.cur));
      StateAt(s);
    }

    lemma StateAt(s: System<Packet>)
      requires Built() && Shaped(s) && RepStates(s) && s.cur >= 0
      ensures blocks[s.cur].state == s.states[s.cur]
    {
    }

    lemma ScheduleEnd(s: System<Packet>)
      requires Built() && Rep(s) && Inv(s) && IsBlock(null, s.cur)
      ensures s.cur == -1 && Outcome(s) == s && blocks[0].task.Idle? && blocks[0].task.idle.count == 0
    {
      InvBounds(s);
    }

    // ----- what tasks ask of the scheduler

    method Release(id: int, ghost s: System<Packet>) returns (r: TaskControlBlock?)
      requires Built() && Rep(s) && Current(s) && 0 <= id < 6
      modifies Blocks()`state
      ensures Rep(M.Release(s, id)) && IsBlock(r, M.Release(s, id).cur)
    {
      if id !in blocks {
        return null;
      }
      var tcb := blocks[id];
      tcb.state := tcb.state.(held := false);
      if tcb.priority > currentTcb.priority {
        return tcb;
      } else {
        return currentTcb;
      }
    }

    /** A step that changes the packets of place t only. */
    twostate lemma ListsChange(c: Change)
      requires Built() && blocks == old(blocks) && Shaped(c.before) && Shaped(c.after)
      requires old(RepLists(c.before)) && c.before.content.Keys == c.after.content.Keys
      requires forall l :: 0 <= l < 12 && l != c.place ==> c.after.lists[l] == c.before.lists[l] && Head(l) == old(Head(l))
      requires forall l, i :: 0 <= l < 12 && l != c.place && 0 <= i < |c.before.lists[l]| ==>
                 c.before.lists[l][i].link == old(c.before.lists[l][i].link)
      requires 0 <= c.place < 12 ==> At(c.place, c.after.lists[c.place])
      ensures RepLists(c.after)
    {
      forall l | 0 <= l < 12 ensures InContent(c.after.lists[l], c.after.content) && At(l, c.after.lists[l]) {
        if l != c.place {
          assert old(At(l, c.before.lists[l]));
          assert old(Head(l)) == Head(l);
        }
      }
    }

    /** A step that writes to packet p only. */
    twostate lemma ContentChange(c: Change)
      requires old(RepContent(c.before)) && c.packet in c.before.content
      requires c.after.content == c.before.content[c.packet := c.packet.Carried()]
      requires forall q :: q in c.before.content && q != c.packet ==>
                 q.id == old(q.id) && q.a1 == old(q.a1) && q.a2 == old(q.a2)
      ensures RepContent(c.after)
    {
    }

    method HoldCurrent(ghost s: System<Packet>) returns (r: TaskControlBlock?)
      requires Built() && Rep(s) && Current(s)
      modifies this`holdCount, Blocks()`state
      ensures Rep(M.HoldCurrent(s)) && IsBlock(r, M.HoldCurrent(s).cur)
    {
      holdCount := holdCount + 1;
      currentTcb.state := currentTcb.state.(held := true);
      return currentTcb.link;
    }

    method SuspendCurrent(ghost s: System<Packet>) returns (r: TaskControlBlock?)
      requires Built() && Rep(s) && Current(s)
      modifies Blocks()`state
      ensures Rep(M.SuspendCurrent(s)) && IsBlock(r, M.SuspendCurrent(s).cur)
    {
      currentTcb.state := currentTcb.state.(suspended := true);
      return currentTcb;
    }

    method Queue(packet: Packet, ghost s: System<Packet>) returns (r: TaskControlBlock?)
      requires Built() && Rep(s) && Current(s) && packet in s.content && Conserved(s, {packet})
      modifies this`queueCount, Blocks()`queue, Blocks()`state
      modifies s.content.Keys`link, s.content.Keys`id
      ensures Rep(M.Queue(s, packet)) && IsBlock(r, M.Queue(s, packet).cur)
    {
      hide *;
      QueueParts(s, packet);
      if packet.id !in blocks {
        NotQueued(s, packet);
        return null;
      }
      ghost var t := packet.id;
      QueueSome(s, packet);
      r := Deliver(blocks[packet.id], packet, s.lists[packet.id]);
      Delivered(Change(s, M.Queue(s, packet), t, packet));
    }

    lemma QueueParts(s: System<Packet>, p: Packet)
      requires Built() && Rep(s) && Current(s) && p in s.content
      ensures p.id == s.content[p].id && queueCount == s.queueCount && holdCount == s.holdCount && Built()
      ensures currentId == s.curId && s.cur >= 0
      ensures currentTcb != null && blocks[s.cur] == currentTcb && forall i :: i in blocks <==> 0 <= i < 6
      ensures blocks[0].task.Idle? && blocks[1].task.Worker?
      ensures blocks[2].task.Handler? && blocks[3].task.Handler? && blocks[4].task.IO? && blocks[5].task.IO?
    {
    }

    lemma QueueSome(s: System<Packet>, p: Packet)
      requires Built() && Rep(s) && Current(s) && p in s.content && p.id in blocks && Conserved(s, {p})
      ensures 0 <= p.id < 6 && |s.lists| == 12 && blocks[p.id] in Blocks()
      ensures IsList(blocks[p.id].queue, s.lists[p.id]) && p !in s.lists[p.id] && NoDuplicates(s.lists[p.id])
      ensures forall q :: q in s.lists[p.id] ==> q in s.content
      ensures forall i :: 0 <= i < 6 && i != p.id ==> blocks[i] != blocks[p.id]
      ensures forall l, i :: 0 <= l < 12 && l != p.id && 0 <= i < |s.lists[l]| ==>
                s.lists[l][i] != p && s.lists[l][i] !in s.lists[p.id]
      ensures Shaped(s) && Shaped(M.Queue(s, p)) && forall q: Packet :: q in s.content ==> q in M.Queue(s, p).content
      ensures var (t, s') := (p.id, M.Queue(s, p));
              && s'.lists == s.lists[t := s.lists[t] + [p]]
              && s'.content == s.content[p := Content(s.curId, p.kind, p.a1, p.a2)]
              && s'.states == s.states[t :=
                   if s.lists[t] == [] then blocks[t].state.(runnable := true) else blocks[t].state]
              && s'.seed == s.seed && s'.count == s.count && s'.v1 == s.v1 && s'.v2 == s.v2
              && s'.queueCount == s.queueCount + 1 && s'.holdCount == s.holdCount
              && IsBlock(if s.lists[t] == [] && blocks[t].priority > currentTcb.priority then blocks[t] else currentTcb,
                         s'.cur)
    {
      hide M.Queue, IsList, Conserved, NoDuplicates;
      ListAt(s, p.id);
      Elsewhere(s, p.id, p);
      QueueFacts(s, p);
      CarriedBy(s, p);
    }

    /** A packet that names no block is dropped. */
    lemma NotQueued(s: System<Packet>, p: Packet)
      requires Built() && Rep(s) && Current(s) && p in s.content && p.id !in blocks
      ensures Rep(M.Queue(s, p)) && IsBlock(null, M.Queue(s, p).cur)
    {
      hide RepLists, At;
      CarriedBy(s, p);
      SameButControl(s, -1);
    }

    /** The heap after a packet is handed to block t. */
    twostate lemma Delivered(c: Change)
      requires Built() && blocks == old(blocks) && Shaped(c.before) && Shaped(c.after) && 0 <= c.place < 6
      requires old(Rep(c.before)) && c.packet in c.before.content
      requires c.after.lists == c.before.lists[c.place := c.after.lists[c.place]]
      requires c.after.content == c.before.content[c.packet := Content(c.packet.id, c.packet.kind, c.packet.a1, c.packet.a2)]
      requires c.after.states == c.before.states[c.place := blocks[c.place].state]
      requires c.after.seed == c.before.seed && c.after.count == c.before.count
      requires c.after.v1 == c.before.v1 && c.after.v2 == c.before.v2
      requires queueCount == c.after.queueCount && holdCount == c.after.holdCount
      requires forall i :: 0 <= i < 6 && i != c.place ==>
                 blocks[i].queue == old(blocks[i].queue) && blocks[i].state == old(blocks[i].state)
      requires blocks[0].task.idle.v1 == old(blocks[0].task.idle.v1)
      requires blocks[0].task.idle.count == old(blocks[0].task.idle.count)
      requires blocks[1].task.worker.v1 == old(blocks[1].task.worker.v1)
      requires blocks[1].task.worker.v2 == old(blocks[1].task.worker.v2)
      requires blocks[2].task.handler.v1 == old(blocks[2].task.handler.v1)
      requires blocks[2].task.handler.v2 == old(blocks[2].task.handler.v2)
      requires blocks[3].task.handler.v1 == old(blocks[3].task.handler.v1)
      requires blocks[3].task.handler.v2 == old(blocks[3].task.handler.v2)
      requires blocks[4].task.device.v1 == old(blocks[4].task.device.v1)
      requires blocks[5].task.device.v1 == old(blocks[5].task.device.v1)
      requires forall q: Packet :: q in c.before.content && q != c.packet ==>
                 q.id == old(q.id) && q.a1 == old(q.a1) && q.a2 == old(q.a2)
      requires forall q: Packet :: q in c.before.content && q != c.packet && q !in c.before.lists[c.place] ==> q.link == old(q.link)
      requires forall l, i :: 0 <= l < 12 && l != c.place && 0 <= i < |c.before.lists[l]| ==>
                 c.before.lists[l][i] != c.packet && c.before.lists[l][i] !in c.before.lists[c.place]
      requires IsList(blocks[c.place].queue, c.after.lists[c.place])
      ensures Rep(c.after)
    {
      hide RepLists, RepContent, At, IsList;
      ContentChange(c);
      QueueListsChange(c);
    }

    /** The packet goes to block t and gets the current block's name. */
    method Deliver(t: TaskControlBlock, packet: Packet, ghost ps: seq<Packet>) returns (r: TaskControlBlock)
      requires currentTcb != null && IsList(t.queue, ps) && packet !in ps && NoDuplicates(ps)
      modifies this`queueCount, t`queue, t`state, packet`link, packet`id, ps`link
      ensures queueCount == old(queueCount) + 1 && packet.id == currentId
      ensures IsList(t.queue, ps + [packet])
      ensures t.state == if ps == [] then old(t.state).(runnable := true) else old(t.state)
      ensures r == if ps == [] && t.priority > currentTcb.priority then t else currentTcb
    {
      hide IsList, NoDuplicates;
      queueCount := queueCount + 1;
      packet.link := null;
      packet.id := currentId;
      r := t.CheckPriorityAdd(currentTcb, packet, ps);
    }

    twostate lemma QueueListsChange(c: Change)
      requires Built() && blocks == old(blocks) && Shaped(c.before) && Shaped(c.after) && 0 <= c.place < 6
      requires old(RepLists(c.before)) && c.packet in c.before.content
      requires c.after.lists == c.before.lists[c.place := c.after.lists[c.place]]
      requires c.after.content == c.before.content[c.packet := c.packet.Carried()]
      requires forall i :: 0 <= i < 6 && i != c.place ==> blocks[i].queue == old(blocks[i].queue)
      requires blocks[2].task.handler.v1 == old(blocks[2].task.handler.v1)
      requires blocks[2].task.handler.v2 == old(blocks[2].task.handler.v2)
      requires blocks[3].task.handler.v1 == old(blocks[3].task.handler.v1)
      requires blocks[3].task.handler.v2 == old(blocks[3].task.handler.v2)
      requires blocks[4].task.device.v1 == old(blocks[4].task.device.v1)
      requires blocks[5].task.device.v1 == old(blocks[5].task.device.v1)
      requires forall q: Packet :: q in c.before.content && q != c.packet && q !in c.before.lists[c.place] ==> q.link == old(q.link)
      requires forall l, i :: 0 <= l < 12 && l != c.place && 0 <= i < |c.before.lists[l]| ==>
                 c.before.lists[l][i] != c.packet && c.before.lists[l][i] !in c.before.lists[c.place]
      requires IsList(blocks[c.place].queue, c.after.lists[c.place])
      ensures RepLists(c.after)
    {
      hide IsList, At, RepLists;
      AtQueue(c.after, c.place);
      SameKeys(c.before, c.packet, c.after.content[c.packet]);
      ListsChange(c);
    }

    lemma CarriedBy(s: System<Packet>, p: Packet)
      requires Built() && Rep(s) && p in s.content
      ensures p.Carried() == s.content[p]
      ensures Built() && Shaped(s) && (forall i :: 0 <= i < 6 ==> blocks[i].state == s.states[i])
      ensures queueCount == s.queueCount && holdCount == s.holdCount && RepTasks(s)
    {
    }

    lemma SameButControl(s: System<Packet>, c: int)
      requires Built() && Rep(s) && -1 <= c < 6
      ensures Rep(s.(cur := c))
    {
    }

    lemma ListAt(s: System<Packet>, l: int)
      requires Built() && Rep(s) && 0 <= l < 10
      ensures IsList(Head(l), s.lists[l]) && InContent(s.lists[l], s.content)
    {
    }

    lemma AtQueue(s: System<Packet>, l: int)
      requires Built() && Shaped(s) && 0 <= l < 6 && IsList(blocks[l].queue, s.lists[l])
      ensures At(l, s.lists[l])
    {
    }

    lemma SameTasks(s: System<Packet>, s': System<Packet>)
      requires Built() && RepTasks(s)
      requires s'.seed == s.seed && s'.count == s.count && s'.v1 == s.v1 && s'.v2 == s.v2
      ensures RepTasks(s')
    {
    }
  }

  /** The parts of the state after a packet is handed over. */
  lemma QueueFacts(s: System<Packet>, p: Packet)
    requires Shaped(s) && s.cur >= 0 && p in s.content
    ensures var (t, s') := (s.content[p].id, M.Queue(s, p));
            if !(0 <= t < 6) then s' == s.(cur := -1)
            else
              && s'.lists == s.lists[t := s.lists[t] + [p]]
              && s'.content == s.content[p := s.content[p].(id := s.curId)]
              && s'.states == (if s.lists[t] == [] then s.states[t := s.states[t].(runnable := true)] else s.states)
              && s'.seed == s.seed && s'.count == s.count && s'.v1 == s.v1 && s'.v2 == s.v2
              && s'.queueCount == s.queueCount + 1 && s'.holdCount == s.holdCount
              && s'.cur == (if s.lists[t] == [] && Priority(t) > Priority(s.cur) then t else s.cur)
    ensures Shaped(M.Queue(s, p))
  {
  }

  /** The packet in hand, and those of place t, are in no other place. */
  lemma Elsewhere(s: System<Packet>, t: int, p: Packet)
    requires Shaped(s) && Conserved(s, {p}) && p in s.content && 0 <= t < 12
    ensures p !in s.lists[t] && NoDuplicates(s.lists[t])
    ensures forall l, i :: 0 <= l < 12 && l != t && 0 <= i < |s.lists[l]| ==>
              s.lists[l][i] != p && s.lists[l][i] !in s.lists[t]
  {
    InHandElsewhere(s, p);
  }

  /** A device's only packet is taken out of its slot. */
  lemma SlotInHand(s: System<Packet>, l: int)
    requires Shaped(s) && Conserved(s, {}) && 10 <= l < 12 && |s.lists[l]| == 1
    ensures s.lists[l][0] in s.content && Conserved(SetList(s, l, []), {s.lists[l][0]})
    ensures SetList(s, l, []).content == s.content
  {
    assert s.lists[l][1..] == [];
    DropConserved(s, l);
  }

  lemma IsListHead(head: Packet?, ps: seq<Packet>)
    requires IsList(head, ps)
    ensures head == if ps == [] then null else ps[0]
  {
  }

  lemma ListCons(p: Packet, head: Packet?, ps: seq<Packet>)
    requires IsList(head, ps) && p.link == head
    ensures IsList(p, [p] + ps)
  {
    var all := [p] + ps;
    forall i | 0 <= i < |all| ensures all[i].link == if i + 1 < |all| then all[i + 1] else null {
      if i > 0 {
        assert all[i] == ps[i - 1] && (i < |ps| ==> all[i + 1] == ps[i]);
      }
    }
  }

  lemma IsListTail(head: Packet?, ps: seq<Packet>)
    requires IsList(head, ps) && ps != []
    ensures IsList(ps[0].link, ps[1..])
  {
    var rest := ps[1..];
    assert ps[0].link == if 1 < |ps| then ps[1] else null;
    forall i | 0 <= i < |rest| ensures rest[i].link == if i + 1 < |rest| then rest[i + 1] else null {
      assert rest[i] == ps[i + 1];
    }
  }

  lemma ElsewhereAll(s: System<Packet>, l: int)
    requires Shaped(s) && Distinct(s.lists) && 0 <= l < 12 && s.lists[l] != []
    ensures forall m, i :: 0 <= m < 12 && m != l && 0 <= i < |s.lists[m]| ==>
              s.lists[m][i] != s.lists[l][0] && s.lists[m][i] !in s.lists[l]
  {
  }

  /** How one turn of the loop follows the step. */
  lemma TurnModel(s: System<Packet>)
    requires Inv(s) && s.cur >= 0
    ensures Shaped(s) && Inv(Step(s)) && Outcome(s) == Outcome(Step(s))
    ensures Step(s).content.Keys == s.content.Keys
    ensures if HeldOrSuspended(s.states[s.cur]) then Step(s) == s.(cur := s.cur - 1)
            else
              var s0 := s.(curId := s.cur);
              Kept(s0, {}) && Step(s) == RunBlock(s0) && Step(s).curId == s.cur
    ensures var (s', w, w') := (Step(s), TotalWeight(s, 12), TotalWeight(Step(s), 12));
            || s'.count < s.count
            || (s'.count == s.count &&
                (w' < w || (w' == w && (Awake(s'.states) < Awake(s.states) ||
                                        (Awake(s'.states) == Awake(s.states) && s'.cur < s.cur)))))
    ensures Step(s).count >= 0 && Step(s).cur >= -1 && |Step(s).lists| == 12
  {
    hide Distinct, Somewhere, AllFit, Conserved, RunBlock, TotalWeight, Awake;
    StepKeeps(s);
    InvBounds(Step(s));
    if !HeldOrSuspended(s.states[s.cur]) {
      SamePackets(s, s.(curId := s.cur), {});
      SameIds(s.(curId := s.cur));
    }
  }

  /** Running a block does not change which block is running. */
  lemma SameIds(s: System<Packet>)
    requires Kept(s, {}) && s.cur >= 0
    ensures RunBlock(s).curId == s.curId
  {
    hide Conserved, AllFit, SlotsSafe, TasksOk, Letters;
  }

  ghost predicate InContent(ps: seq<Packet>, content: map<Packet, Content>) {
    forall i :: 0 <= i < |ps| ==> ps[i] in content
  }

  // ----- runRichards

  /** n packets, each made with the one before as its link. */
  method MakePackets(n: nat, id: int, kind: Kind) returns (queue: Packet?, ghost ps: seq<Packet>)
    ensures IsList(queue, ps) && |ps| == n && NoDuplicates(ps)
    ensures forall p :: p in ps ==> fresh(p) && p.Carried() == Content(id, kind, 0, map[])
  {
    queue, ps := null, [];
    for i := 0 to n
      invariant IsList(queue, ps) && |ps| == i && NoDuplicates(ps)
      invariant forall p :: p in ps ==> fresh(p) && p.Carried() == Content(id, kind, 0, map[])
    {
      var packet := new Packet(queue, id, kind);
      ListCons(packet, queue, ps);
      queue, ps := packet, [packet] + ps;
    }
  }

  /** The idle task, the worker and the handlers, with their packets. */
  method AddLoadedTasks(scheduler: Scheduler, count: int)
    returns (ghost ts: seq<TaskControlBlock>, ghost w: seq<Packet>, ghost a: seq<Packet>, ghost b: seq<Packet>)
    requires scheduler.list == null && scheduler.blocks == map[]
    modifies scheduler`currentTcb, scheduler`list, scheduler`blocks
    ensures |ts| == 4 && scheduler.list == ts[3]
    ensures scheduler.blocks == map[][ID_IDLE := ts[0]][ID_WORKER := ts[1]][ID_HANDLER_A := ts[2]][ID_HANDLER_B := ts[3]]
    ensures ts[0].link == null && ts[1].link == ts[0] && ts[2].link == ts[1] && ts[3].link == ts[2]
    ensures ts[0].id == ID_IDLE && ts[1].id == ID_WORKER && ts[2].id == ID_HANDLER_A && ts[3].id == ID_HANDLER_B
    ensures ts[0].priority == 0 && ts[1].priority == 1000 && ts[2].priority == 2000 && ts[3].priority == 3000
    ensures ts[0].state == RUNNING && ts[0].queue == null
    ensures ts[1].state == if ts[1].queue == null then SUSPENDED else SUSPENDED_RUNNABLE
    ensures ts[2].state == if ts[2].queue == null then SUSPENDED else SUSPENDED_RUNNABLE
    ensures ts[3].state == if ts[3].queue == null then SUSPENDED else SUSPENDED_RUNNABLE
    ensures fresh(ts[0]) && fresh(ts[1]) && fresh(ts[2]) && fresh(ts[3])
    ensures ts[0].task.Idle? && fresh(ts[0].task.idle) && ts[0].task.idle.scheduler == scheduler
    ensures ts[0].task.idle.v1 == 1 && ts[0].task.idle.count == count
    ensures ts[1].task.Worker? && fresh(ts[1].task.worker) && ts[1].task.worker.scheduler == scheduler
    ensures ts[1].task.worker.v1 == ID_HANDLER_A && ts[1].task.worker.v2 == 0
    ensures ts[2].task.Handler? && fresh(ts[2].task.handler) && ts[2].task.handler.scheduler == scheduler
    ensures ts[2].task.handler.v1 == null && ts[2].task.handler.v2 == null
    ensures ts[3].task.Handler? && fresh(ts[3].task.handler) && ts[3].task.handler.scheduler == scheduler
    ensures ts[3].task.handler.v1 == null && ts[3].task.handler.v2 == null
    ensures ts[2].task.handler != ts[3].task.handler
    ensures IsList(ts[1].queue, w) && IsList(ts[2].queue, a) && IsList(ts[3].queue, b)
    ensures NoDuplicates(w + a + b) && |w| == 2 && |a| == 3 && |b| == 3
    ensures forall p :: p in w ==> fresh(p) && p.Carried() == Content(ID_WORKER, Work, 0, map[])
    ensures forall p :: p in a ==> fresh(p) && p.Carried() == Content(ID_DEVICE_A, Device, 0, map[])
    ensures forall p :: p in b ==> fresh(p) && p.Carried() == Content(ID_DEVICE_B, Device, 0, map[])
  {
    hide *;
    ghost var t0 := scheduler.AddIdleTask(ID_IDLE, 0, null, count);
    var queue;
    queue, w := MakePackets(2, ID_WORKER, Work);
    ghost var t1 := scheduler.AddWorkerTask(ID_WORKER, 1000, queue);
    queue, a := MakePackets(3, ID_DEVICE_A, Device);
    ghost var t2 := scheduler.AddHandlerTask(ID_HANDLER_A, 2000, queue);
    queue, b := MakePackets(3, ID_DEVICE_B, Device);
    ghost var t3 := scheduler.AddHandlerTask(ID_HANDLER_B, 3000, queue);
    ts := [t0, t1, t2, t3];
    Concatenated(w, a, b);
  }

  method Build(count: int) returns (scheduler: Scheduler, ghost w: seq<Packet>, ghost a: seq<Packet>, ghost b: seq<Packet>)
    requires count >= 1
    ensures fresh(scheduler) && scheduler.Built() && NoDuplicates(w + a + b)
    ensures fresh(scheduler.Blocks()) && fresh(scheduler.Tasks()) && forall p :: p in w + a + b ==> fresh(p)
    ensures scheduler.list == scheduler.blocks[ID_DEVICE_B] && scheduler.currentId == -1
    ensures scheduler.Rep(Initial(w, a, b, count)) && |w| == 2 && |a| == 3 && |b| == 3
  {
    hide *;
    scheduler := new Scheduler();
    ghost var ts;
    ts, w, a, b := AddLoadedTasks(scheduler, count);
    ghost var t4 := scheduler.AddDeviceTask(ID_DEVICE_A, 4000, null);
    ghost var t5 := scheduler.AddDeviceTask(ID_DEVICE_B, 5000, null);
    SixBlocks(scheduler, ts[0], ts[1], ts[2], ts[3], t4, t5);
    InitialRep(scheduler, w, a, b, count);
  }

  lemma SixBlocks(scheduler: Scheduler, t0: TaskControlBlock, t1: TaskControlBlock, t2: TaskControlBlock,
                  t3: TaskControlBlock, t4: TaskControlBlock, t5: TaskControlBlock)
    requires scheduler.blocks ==
             map[][ID_IDLE := t0][ID_WORKER := t1][ID_HANDLER_A := t2][ID_HANDLER_B := t3][ID_DEVICE_A := t4][ID_DEVICE_B := t5]
    requires t0.link == null && t1.link == t0 && t2.link == t1 && t3.link == t2 && t4.link == t3 && t5.link == t4
    requires t0.id == ID_IDLE && t1.id == ID_WORKER && t2.id == ID_HANDLER_A && t3.id == ID_HANDLER_B
    requires t4.id == ID_DEVICE_A && t5.id == ID_DEVICE_B
    requires t0.priority == 0 && t1.priority == 1000 && t2.priority == 2000 && t3.priority == 3000
    requires t4.priority == 4000 && t5.priority == 5000
    requires t0.task.Idle? && t1.task.Worker? && t2.task.Handler? && t3.task.Handler? && t4.task.IO? && t5.task.IO?
    requires t2.task.handler != t3.task.handler && t4.task.device != t5.task.device
    requires t0.task.idle.scheduler == t1.task.worker.scheduler == t2.task.handler.scheduler == scheduler
    requires t3.task.handler.scheduler == t4.task.device.scheduler == t5.task.device.scheduler == scheduler
    ensures scheduler.Built() && scheduler.Blocks() == {t0, t1, t2, t3, t4, t5}
    ensures scheduler.Tasks() == {t0.task.idle, t1.task.worker, t2.task.handler, t3.task.handler, t4.task.device,
                                  t5.task.device}
    ensures scheduler.blocks[0] == t0 && scheduler.blocks[1] == t1 && scheduler.blocks[2] == t2
    ensures scheduler.blocks[3] == t3 && scheduler.blocks[4] == t4 && scheduler.blocks[5] == t5
    ensures ID_DEVICE_B == 5
  {
    assert scheduler.blocks[0] == t0 && scheduler.blocks[1] == t1 && scheduler.blocks[2] == t2;
    assert scheduler.blocks[3] == t3 && scheduler.blocks[4] == t4 && scheduler.blocks[5] == t5;
  }

  lemma Concatenated(w: seq<Packet>, a: seq<Packet>, b: seq<Packet>)
    requires NoDuplicates(w) && NoDuplicates(a) && NoDuplicates(b)
    requires forall p :: p in a ==> p !in w
    requires forall p :: p in b ==> p !in w && p !in a
    ensures NoDuplicates(w + a + b)
    ensures forall p :: p in w + a + b <==> p in w || p in a || p in b
  {
    Appended(w, a);
    Appended(w + a, b);
  }

  lemma Appended(x: seq<Packet>, y: seq<Packet>)
    requires NoDuplicates(x) && NoDuplicates(y) && forall p :: p in y ==> p !in x
    ensures NoDuplicates(x + y)
  {
    var all := x + y;
    forall i, j | 0 <= i < j < |all| ensures all[i] != all[j] {
      if i < |x| <= j {
        assert all[i] in x && all[j] in y;
      } else if |x| <= i {
        assert all[i] == y[i - |x|] && all[j] == y[j - |x|];
      }
    }
  }

  lemma InitialRep(scheduler: Scheduler, w: seq<Packet>, a: seq<Packet>, b: seq<Packet>, count: int)
    requires scheduler.Built() && NoDuplicates(w + a + b) && count >= 1
    requires var bs := scheduler.blocks;
             && bs[0].queue == null && IsList(bs[1].queue, w) && IsList(bs[2].queue, a) && IsList(bs[3].queue, b)
             && bs[4].queue == null && bs[5].queue == null
             && bs[0].state == RUNNING
             && bs[1].state == (if bs[1].queue == null then SUSPENDED else SUSPENDED_RUNNABLE)
             && bs[2].state == (if bs[2].queue == null then SUSPENDED else SUSPENDED_RUNNABLE)
             && bs[3].state == (if bs[3].queue == null then SUSPENDED else SUSPENDED_RUNNABLE)
             && bs[4].state == SUSPENDED && bs[5].state == SUSPENDED
             && bs[0].task.idle.v1 == 1 && bs[0].task.idle.count == count
             && bs[1].task.worker.v1 == ID_HANDLER_A && bs[1].task.worker.v2 == 0
             && bs[2].task.handler.v1 == null && bs[2].task.handler.v2 == null
             && bs[3].task.handler.v1 == null && bs[3].task.handler.v2 == null
             && bs[4].task.device.v1 == null && bs[5].task.device.v1 == null
    requires scheduler.queueCount == 0 && scheduler.holdCount == 0
    requires forall p :: p in w ==> p.Carried() == Content(ID_WORKER, Work, 0, map[])
    requires forall p :: p in a ==> p.Carried() == Content(ID_DEVICE_A, Device, 0, map[])
    requires forall p :: p in b ==> p.Carried() == Content(ID_DEVICE_B, Device, 0, map[])
    ensures scheduler.Rep(Initial(w, a, b, count)) && Inv(Initial(w, a, b, count))
  {
    IsListHead(scheduler.blocks[1].queue, w);
    IsListHead(scheduler.blocks[2].queue, a);
    IsListHead(scheduler.blocks[3].queue, b);
    hide *;
    var s := Initial(w, a, b, count);
    InitialIsGood(w, a, b, count);
    InitialDistinct(w, a, b);
    InitialContents(scheduler, w, a, b, count);
    InitialBits(scheduler, w, a, b, count);
    InitialLists(scheduler, s, w, a, b);
    Joined(scheduler, s);
  }

  lemma Joined(scheduler: Scheduler, s: System<Packet>)
    requires scheduler.Built() && Shaped(s) && scheduler.RepLists(s) && scheduler.RepContent(s)
    requires scheduler.RepStates(s) && scheduler.RepTasks(s) && scheduler.RepCounts(s)
    ensures scheduler.Rep(s)
  {
  }

  lemma InitialBits(scheduler: Scheduler, w: seq<Packet>, a: seq<Packet>, b: seq<Packet>, count: int)
    requires scheduler.Built() && Inv(Initial(w, a, b, count))
    requires var bs := scheduler.blocks;
             && bs[0].state == RUNNING && bs[4].state == SUSPENDED && bs[5].state == SUSPENDED
             && bs[1].state == (if w == [] then SUSPENDED else SUSPENDED_RUNNABLE)
             && bs[2].state == (if a == [] then SUSPENDED else SUSPENDED_RUNNABLE)
             && bs[3].state == (if b == [] then SUSPENDED else SUSPENDED_RUNNABLE)
             && bs[0].task.idle.v1 == 1 && bs[0].task.idle.count == count
             && bs[1].task.worker.v1 == ID_HANDLER_A && bs[1].task.worker.v2 == 0
    requires scheduler.queueCount == 0 && scheduler.holdCount == 0
    ensures var s := Initial(w, a, b, count);
            && Shaped(s) && scheduler.RepStates(s) && scheduler.RepTasks(s) && scheduler.RepCounts(s)
            && s.lists == [[], w, a, b, [], [], [], [], [], [], [], []]
  {
    hide Distinct, Somewhere, AllFit, Conserved, BitsMatch, SlotsSafe, TasksOk, InitialContent;
  }

  lemma InitialContents(scheduler: Scheduler, w: seq<Packet>, a: seq<Packet>, b: seq<Packet>, count: int)
    requires scheduler.Built()
    requires forall p :: p in w ==> p.Carried() == Content(ID_WORKER, Work, 0, map[])
    requires forall p :: p in a ==> p.Carried() == Content(ID_DEVICE_A, Device, 0, map[])
    requires forall p :: p in b ==> p.Carried() == Content(ID_DEVICE_B, Device, 0, map[])
    requires (forall p :: p in a ==> p !in w) && forall p :: p in b ==> p !in w && p !in a
    ensures scheduler.RepContent(Initial(w, a, b, count))
  {
    hide Packet.Carried;
  }

  lemma InitialLists(scheduler: Scheduler, s: System<Packet>, w: seq<Packet>, a: seq<Packet>, b: seq<Packet>)
    requires scheduler.Built() && Shaped(s)
    requires s.lists == [[], w, a, b, [], [], [], [], [], [], [], []]
    requires var bs := scheduler.blocks;
             && bs[0].queue == null && IsList(bs[1].queue, w) && IsList(bs[2].queue, a) && IsList(bs[3].queue, b)
             && bs[4].queue == null && bs[5].queue == null
             && bs[2].task.handler.v1 == null && bs[2].task.handler.v2 == null
             && bs[3].task.handler.v1 == null && bs[3].task.handler.v2 == null
             && bs[4].task.device.v1 == null && bs[5].task.device.v1 == null
    ensures scheduler.RepLists(s)
  {
    EmptyList();
    hide IsList;
    forall l | 0 <= l < 12 ensures InContent(s.lists[l], s.content) && scheduler.At(l, s.lists[l]) {
      if l == 1 || l == 2 || l == 3 {
        assert s.lists[l] == if l == 1 then w else if l == 2 then a else b;
      } else {
        assert s.lists[l] == [] && scheduler.Head(l) == null;
      }
    }
  }

  lemma EmptyList()
    ensures IsList(null, [])
  {
  }

  lemma InitialParts(w: seq<Packet>, a: seq<Packet>, b: seq<Packet>, count: int)
    requires NoDuplicates(w + a + b) && count >= 1
    ensures var s := Initial(w, a, b, count);
            && Inv(s) && s.cur == ID_DEVICE_B && s.curId == -1
            && s.content.Keys == (set p | p in w + a + b) && Outcome(s).content.Keys == s.content.Keys
            && s.queueCount == 0 && s.holdCount == 0
  {
    InitialIsGood(w, a, b, count);
    OutcomeKeys(Initial(w, a, b, count));
  }

  lemma CountersFollow(scheduler: Scheduler, s: System<Packet>)
    requires scheduler.Built() && scheduler.Rep(s)
    ensures scheduler.queueCount == s.queueCount && scheduler.holdCount == s.holdCount
  {
  }

  const COUNT := 1000
  const EXPECTED_QUEUE_COUNT := 2322
  const EXPECTED_HOLD_COUNT := 928

  lemma CountsExpected()
    ensures 8 + Tally(Each(3, 3, true), 1, COUNT).0 == EXPECTED_QUEUE_COUNT
    ensures 2 + Tally(Each(3, 3, true), 1, COUNT).1 == EXPECTED_HOLD_COUNT
  {
    hide Tally;
    ThousandTally();
  }

  /** The benchmark: for every count the scheduler follows the finite run of the state machine from
      its two work and six device packets, in which the idle task has count turns; it ends in the
      last state of that run, in which each of the packets is still in exactly one place.  The
      counters end as the numbers of packets queued and tasks held in the run, and the check at the
      end passes for the benchmark's own count. */
  method RunRichards(count: int)
    returns (scheduler: Scheduler, passed: bool, ghost w: seq<Packet>, ghost a: seq<Packet>, ghost b: seq<Packet>)
    requires count >= 1
    ensures fresh(scheduler) && scheduler.Built() && scheduler.currentTcb == null
    ensures scheduler.blocks[0].task.idle.count == 0
    ensures |w| == 2 && |a| == 3 && |b| == 3 && NoDuplicates(w + a + b) && Inv(Initial(w, a, b, count))
    ensures var r := Run(Initial(w, a, b, count));
            && r != [] && IdleTurns(r) == count && scheduler.Rep(r[|r| - 1])
            && Conserved(r[|r| - 1], {}) && r[|r| - 1].content.Keys == (set p | p in w + a + b)
            && scheduler.queueCount == TimesQueued(r) && scheduler.holdCount == TimesHeld(r)
    ensures scheduler.queueCount == 8 + Tally(Each(3, 3, true), 1, count).0
    ensures scheduler.holdCount == 2 + Tally(Each(3, 3, true), 1, count).1
    ensures passed <==> scheduler.queueCount == EXPECTED_QUEUE_COUNT && scheduler.holdCount == EXPECTED_HOLD_COUNT
    ensures count == COUNT ==> passed
  {
    hide *;
    scheduler, w, a, b := Build(count);
    ghost var s := Initial(w, a, b, count);
    InitialParts(w, a, b, count);
    scheduler.Schedule(s);
    OutcomeIsLast(s);
    DispatcherEnds(w, a, b, count);
    RunCounts(s);
    SetUpTally(w, a, b, count);
    CountersFollow(scheduler, Outcome(s));
    if count == COUNT {
      CountsExpected();
    }
    passed := scheduler.queueCount == EXPECTED_QUEUE_COUNT && scheduler.holdCount == EXPECTED_HOLD_COUNT;
  }
}
