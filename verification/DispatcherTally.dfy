/** How often packets are queued and tasks held in the run that runRichards sets up.  When only the
    idle task can run, what matters of the state is where the two work packets are, how far each
    has come and how many device packets rest: 64 cases in all. */
module DispatcherTally {
  import opened Common
  import opened DispatcherModel
  import opened DispatcherInvariant
  import opened DispatcherCounted

  // ----- the states in which only the idle task can run

  /** Where the two work packets are when only the idle task can run: one with each handler, with so
      many letters passed on; or both with one, while so many packets of the other's device rest. */
  datatype Balance = Each(a: nat, b: nat, toB: bool) | BothA(a: nat, resting: nat) | BothB(b: nat, resting: nat)

  predicate Fair(s: Balance) {
    match s
    case Each(a, b, _) => a < 4 && b < 4
    case BothA(a, k) => a < 4 && k < 4
    case BothB(b, k) => b < 4 && k < 4
  }

  /** A handler that waits for its device to return a packet. */
  function Waiting(works: nat, passed: nat): Side {
    Side(0, true, SUSPENDED, works, passed, 0, 2, true, State(true, false, true))
  }

  /** A handler without work. */
  function Resting(k: nat): Side
    requires k < 4
  {
    if k == 3 then Side(0, true, SUSPENDED, 0, 0, 3, 0, false, SUSPENDED)
    else Side(0, true, SUSPENDED, 0, 0, k, 2 - k, true, State(true, false, k < 2))
  }

  /** Nothing on this side can run. */
  predicate Passive(d: Side) {
    d.queued == 0 && d.handler == SUSPENDED && HeldOrSuspended(d.device)
  }

  /** Only the idle task can run; d is the side of handler h and o the other one. */
  function Calm(h: int, d: Side, o: Side, toB: bool, queues: int, holds: int): Census {
    Census(true, ID_IDLE, RUNNING, SUSPENDED, 0, toB, if h == ID_HANDLER_A then d else o,
           if h == ID_HANDLER_A then o else d, queues, holds)
  }

  /** The worker has so many packets and nothing else can run. */
  function Carrying(n: nat, h: int, d: Side, o: Side, toB: bool, queues: int, holds: int): Census {
    Calm(h, d, o, toB, queues, holds).(cur := ID_WORKER, worker := SUSPENDED_RUNNABLE, workerQueue := n)
  }

  function At(s: Balance, queues: int, holds: int): Census
    requires Fair(s)
  {
    match s
    case Each(a, b, toB) => Calm(ID_HANDLER_A, Waiting(1, a), Waiting(1, b), toB, queues, holds)
    case BothA(a, k) => Calm(ID_HANDLER_A, Waiting(2, a), Resting(k), true, queues, holds)
    case BothB(b, k) => Calm(ID_HANDLER_B, Waiting(2, b), Resting(k), false, queues, holds)
  }

  /** The next balance, and how many packets are queued and tasks held on the way. */
  function Next(s: Balance, odd: bool): (r: (Balance, int, int))
    requires Fair(s)
    ensures Fair(r.0)
  {
    match s
    case Each(a, b, toB) =>
      if odd then
        if b < 3 then (Each(a, b + 1, toB), 2, 1)
        else if toB then (Each(a, 0, false), 4, 1)
        else (BothA(a, 0), 4, 1)
      else
        if a < 3 then (Each(a + 1, b, toB), 2, 1)
        else if toB then (BothB(b, 0), 4, 1)
        else (Each(0, b, true), 4, 1)
    case BothA(a, k) =>
      if odd then if k < 3 then (BothA(a, k + 1), 1, if k < 2 then 1 else 0) else (s, 0, 0)
      else if a < 3 then (BothA(a + 1, k), 2, 1)
      else (Each(0, k, false), 4 + k, if k == 3 then 2 else 1)
    case BothB(b, k) =>
      if !odd then if k < 3 then (BothB(b, k + 1), 1, if k < 2 then 1 else 0) else (s, 0, 0)
      else if b < 3 then (BothB(b + 1, k), 2, 1)
      else (Each(k, 0, true), 4 + k, if k == 3 then 2 else 1)
  }

  // ----- runs of the counted machine

  /** Some number of turns lead from m to m'. */
  ghost predicate Moves(m: Census, m': Census) {
    m'.ok && exists n: nat :: Turns(m, n) == m'
  }

  lemma {:induction false} TurnsAdd(m: Census, i: nat, j: nat)
    requires Turns(m, i).ok
    ensures Turns(m, i + j) == Turns(Turns(m, i), j)
    decreases i
  {
    if i == 0 {
    } else {
      TurnsAdd(Turn(m), i - 1, j);
    }
  }

  lemma MovesOn(m: Census, m1: Census, m2: Census)
    requires Moves(m, m1) && Moves(m1, m2)
    ensures Moves(m, m2)
  {
    var i: nat :| Turns(m, i) == m1;
    var j: nat :| Turns(m1, j) == m2;
    TurnsAdd(m, i, j);
  }

  ghost predicate Handler(h: int) {
    h == ID_HANDLER_A || h == ID_HANDLER_B
  }

  /** The handler has the packet that its device, with so many more pending, has returned. */
  function Returned(h: int, works: nat, passed: nat, rest: nat, pending: nat, o: Side, toB: bool, q: int, k: int): Census {
    var d := if pending == 0 then Side(1, false, SUSPENDED_RUNNABLE, works, passed, rest, 0, false, SUSPENDED)
      else Side(1, false, SUSPENDED_RUNNABLE, works, passed, rest, pending - 1, true, State(true, false, pending > 1));
    Calm(h, d, o, toB, q, k).(cur := h)
  }

  lemma DeviceReturns(h: int, works: nat, passed: nat, rest: nat, pending: nat, o: Side, toB: bool, q: int, k: int)
    requires Handler(h) && Passive(o)
    ensures var d := Side(0, true, SUSPENDED, works, passed, rest, pending, true, State(true, false, pending > 0));
            Moves(Released(Calm(h, d, o, toB, q, k), h == ID_HANDLER_B),
                  Returned(h, works, passed, rest, pending, o, toB, q + 1, k + if pending == 0 then 0 else 1))
  {
    var d := Side(0, true, SUSPENDED, works, passed, rest, pending, true, State(true, false, pending > 0));
    if h == ID_HANDLER_A {
      assert Turns(Released(Calm(ID_HANDLER_A, d, o, toB, q, k), false), 4).ok;
    } else {
      assert Turns(Released(Calm(ID_HANDLER_B, d, o, toB, q, k), true), 4).ok;
    }
  }

  lemma LetterTaken(h: int, works: nat, passed: nat, o: Side, toB: bool, q: int, k: int)
    requires Handler(h) && works > 0 && passed < 3 && Passive(o)
    ensures Moves(Returned(h, works, passed, 0, 2, o, toB, q, k), Calm(h, Waiting(works, passed + 1), o, toB, q + 1, k))
  {
    if h == ID_HANDLER_A {
      assert Turns(Returned(ID_HANDLER_A, works, passed, 0, 2, o, toB, q, k), 4).ok;
    } else {
      assert Turns(Returned(ID_HANDLER_B, works, passed, 0, 2, o, toB, q, k), 5).ok;
    }
  }

  lemma LastLetterTaken(h: int, works: nat, o: Side, toB: bool, q: int, k: int)
    requires Handler(h) && works > 0 && Passive(o)
    ensures Moves(Returned(h, works, 3, 0, 2, o, toB, q, k), Carrying(1, h, Waiting(works - 1, 0), o, toB, q + 2, k))
  {
    if h == ID_HANDLER_A {
      assert Turns(Returned(ID_HANDLER_A, works, 3, 0, 2, o, toB, q, k), 4).ok;
    } else {
      assert Turns(Returned(ID_HANDLER_B, works, 3, 0, 2, o, toB, q, k), 5).ok;
    }
  }

  lemma PacketRests(h: int, rest: nat, o: Side, toB: bool, q: int, k: int)
    requires Handler(h) && rest < 3 && Passive(o)
    ensures Moves(Returned(h, 0, 0, rest, 2 - rest, o, toB, q, k), Calm(h, Resting(rest + 1), o, toB, q, k))
  {
    if h == ID_HANDLER_A {
      assert Turns(Returned(ID_HANDLER_A, 0, 0, rest, 2 - rest, o, toB, q, k), 3).ok;
    } else {
      assert Turns(Returned(ID_HANDLER_B, 0, 0, rest, 2 - rest, o, toB, q, k), 4).ok;
    }
  }

  /** A released device returns its packet, which takes the next letter but the last. */
  lemma PassesLetter(h: int, works: nat, passed: nat, o: Side, toB: bool, q: int, k: int)
    requires Handler(h) && works > 0 && passed < 3 && Passive(o)
    ensures Moves(Released(Calm(h, Waiting(works, passed), o, toB, q, k), h == ID_HANDLER_B),
                  Calm(h, Waiting(works, passed + 1), o, toB, q + 2, k + 1))
  {
    hide Moves, Calm, Returned;
    var m := Released(Calm(h, Waiting(works, passed), o, toB, q, k), h == ID_HANDLER_B);
    DeviceReturns(h, works, passed, 0, 2, o, toB, q, k);
    LetterTaken(h, works, passed, o, toB, q + 1, k + 1);
    MovesOn(m, Returned(h, works, passed, 0, 2, o, toB, q + 1, k + 1),
            Calm(h, Waiting(works, passed + 1), o, toB, q + 2, k + 1));
  }

  /** The packet that takes the last letter lets the handler return its work packet to the worker. */
  lemma ReturnsWork(h: int, works: nat, o: Side, toB: bool, q: int, k: int)
    requires Handler(h) && works > 0 && Passive(o)
    ensures Moves(Released(Calm(h, Waiting(works, 3), o, toB, q, k), h == ID_HANDLER_B),
                  Carrying(1, h, Waiting(works - 1, 0), o, toB, q + 3, k + 1))
  {
    hide Moves, Calm, Carrying, Returned;
    var m := Released(Calm(h, Waiting(works, 3), o, toB, q, k), h == ID_HANDLER_B);
    DeviceReturns(h, works, 3, 0, 2, o, toB, q, k);
    LastLetterTaken(h, works, o, toB, q + 1, k + 1);
    MovesOn(m, Returned(h, works, 3, 0, 2, o, toB, q + 1, k + 1),
            Carrying(1, h, Waiting(works - 1, 0), o, toB, q + 3, k + 1));
  }

  /** Without work the returned packet comes to rest. */
  lemma ComesToRest(h: int, rest: nat, o: Side, toB: bool, q: int, k: int)
    requires Handler(h) && rest < 3 && Passive(o)
    ensures Moves(Released(Calm(h, Resting(rest), o, toB, q, k), h == ID_HANDLER_B),
                  Calm(h, Resting(rest + 1), o, toB, q + 1, k + if rest < 2 then 1 else 0))
  {
    hide Moves, Calm, Returned;
    var m, k' := Released(Calm(h, Resting(rest), o, toB, q, k), h == ID_HANDLER_B), k + if rest < 2 then 1 else 0;
    DeviceReturns(h, 0, 0, rest, 2 - rest, o, toB, q, k);
    PacketRests(h, rest, o, toB, q + 1, k');
    MovesOn(m, Returned(h, 0, 0, rest, 2 - rest, o, toB, q + 1, k'), Calm(h, Resting(rest + 1), o, toB, q + 1, k'));
  }

  /** Releasing a device that has nothing to return changes nothing. */
  lemma NothingToReturn(h: int, o: Side, toB: bool, q: int, k: int)
    requires Handler(h) && Passive(o)
    ensures Moves(Released(Calm(h, Resting(3), o, toB, q, k), h == ID_HANDLER_B), Calm(h, Resting(3), o, toB, q, k))
  {
    if h == ID_HANDLER_A {
      assert Turns(Released(Calm(ID_HANDLER_A, Resting(3), o, toB, q, k), false), 4).ok;
    } else {
      assert Turns(Released(Calm(ID_HANDLER_B, Resting(3), o, toB, q, k), true), 5).ok;
    }
  }

  /** The worker hands its packet to a handler whose device packets are all under way. */
  lemma HandsOver(h: int, works: nat, passed: nat, o: Side, q: int, k: int)
    requires Handler(h) && Passive(o) && passed < 4 && (works == 0 ==> passed == 0)
    ensures Moves(Carrying(1, h, Waiting(works, passed), o, h == ID_HANDLER_B, q, k),
                  Calm(h, Waiting(works + 1, passed), o, h == ID_HANDLER_A, q + 1, k))
  {
    var m' := Calm(h, Waiting(works + 1, passed), o, h == ID_HANDLER_A, q + 1, k);
    if h == ID_HANDLER_A {
      assert Turns(Carrying(1, ID_HANDLER_A, Waiting(works, passed), o, false, q, k), 5) == m';
    } else {
      assert Turns(Carrying(1, ID_HANDLER_B, Waiting(works, passed), o, true, q, k), 6) == m';
    }
  }

  /** Handler h has the worker's packet and is sending resting device packets for letters. */
  function Loading(left: nat, h: int, passed: nat, rest: nat, pending: nat, o: Side, q: int, k: int): Census {
    Calm(h, Side(0, true, RUNNING, 1, passed, rest, pending, true, State(true, false, pending > 0)), o,
         h == ID_HANDLER_A, q, k).(cur := h, worker := Awakened(left), workerQueue := left)
  }

  lemma StartsLoading(left: nat, h: int, rest: nat, o: Side, q: int, k: int)
    requires Handler(h) && Passive(o) && 0 < rest < 4
    ensures Moves(Carrying(left + 1, h, Resting(rest), o, h == ID_HANDLER_B, q, k),
                  Loading(left, h, 1, rest - 1, 3 - rest, o, q + 2, k + if rest == 3 then 1 else 0))
  {
    if rest == 1 {
      StartsWithOne(left, h, o, q, k);
    } else if rest == 2 {
      StartsWithTwo(left, h, o, q, k);
    } else {
      StartsWithThree(left, h, o, q, k);
    }
  }

  lemma StartsWithOne(left: nat, h: int, o: Side, q: int, k: int)
    requires Handler(h) && Passive(o)
    ensures Moves(Carrying(left + 1, h, Resting(1), o, h == ID_HANDLER_B, q, k), Loading(left, h, 1, 0, 2, o, q + 2, k))
  {
    if h == ID_HANDLER_A {
      assert Turns(Carrying(left + 1, ID_HANDLER_A, Resting(1), o, false, q, k), 2).ok;
    } else {
      assert Turns(Carrying(left + 1, ID_HANDLER_B, Resting(1), o, true, q, k), 2).ok;
    }
  }

  lemma StartsWithTwo(left: nat, h: int, o: Side, q: int, k: int)
    requires Handler(h) && Passive(o)
    ensures Moves(Carrying(left + 1, h, Resting(2), o, h == ID_HANDLER_B, q, k), Loading(left, h, 1, 1, 1, o, q + 2, k))
  {
    if h == ID_HANDLER_A {
      assert Turns(Carrying(left + 1, ID_HANDLER_A, Resting(2), o, false, q, k), 4).ok;
    } else {
      assert Turns(Carrying(left + 1, ID_HANDLER_B, Resting(2), o, true, q, k), 4).ok;
    }
  }

  /** With all three at rest the device takes the first packet at once. */
  lemma StartsWithThree(left: nat, h: int, o: Side, q: int, k: int)
    requires Handler(h) && Passive(o)
    ensures Moves(Carrying(left + 1, h, Resting(3), o, h == ID_HANDLER_B, q, k),
                  Loading(left, h, 1, 2, 0, o, q + 2, k + 1))
  {
    if h == ID_HANDLER_A {
      assert Turns(Carrying(left + 1, ID_HANDLER_A, Resting(3), o, false, q, k), 4).ok;
    } else {
      assert Turns(Carrying(left + 1, ID_HANDLER_B, Resting(3), o, true, q, k), 4).ok;
    }
  }

  lemma SendsOne(left: nat, h: int, passed: nat, rest: nat, pending: nat, o: Side, q: int, k: int)
    requires Handler(h) && Passive(o) && passed < 3 && rest > 0
    ensures Moves(Loading(left, h, passed, rest, pending, o, q, k),
                  Loading(left, h, passed + 1, rest - 1, pending + 1, o, q + 1, k))
  {
    var m' := Loading(left, h, passed + 1, rest - 1, pending + 1, o, q + 1, k);
    if pending == 0 {
      assert Turns(Loading(left, h, passed, rest, pending, o, q, k), 3) == m';
    } else {
      assert Turns(Loading(left, h, passed, rest, pending, o, q, k), 1) == m';
    }
  }

  /** Where a hand-over ends: with the next packet of the worker, if it has one. */
  function HandedOver(left: nat, h: int, d: Side, o: Side, q: int, k: int): Census {
    if left == 0 then Calm(h, d, o, h == ID_HANDLER_A, q, k) else Carrying(left, h, d, o, h == ID_HANDLER_A, q, k)
  }

  lemma StopsLoading(left: nat, h: int, passed: nat, o: Side, q: int, k: int)
    requires Handler(h) && Passive(o) && passed < 4
    ensures Moves(Loading(left, h, passed, 0, 2, o, q, k), HandedOver(left, h, Waiting(1, passed), o, q, k))
  {
    var m, m' := Loading(left, h, passed, 0, 2, o, q, k), HandedOver(left, h, Waiting(1, passed), o, q, k);
    if h == ID_HANDLER_A {
      if left == 0 {
        assert Turns(m, 4) == m';
      } else {
        assert Turns(m, 3) == m';
      }
    } else {
      if left == 0 {
        assert Turns(m, 5) == m';
      } else {
        assert Turns(m, 4) == m';
      }
    }
  }

  /** The worker hands its packet to a handler with resting device packets, which all take a letter. */
  lemma WakesUp(left: nat, h: int, rest: nat, o: Side, q: int, k: int)
    requires Handler(h) && Passive(o) && 0 < rest < 4
    ensures Moves(Carrying(left + 1, h, Resting(rest), o, h == ID_HANDLER_B, q, k),
                  HandedOver(left, h, Waiting(1, rest), o, q + 1 + rest, k + if rest == 3 then 1 else 0))
  {
    hide Moves, Loading, Carrying, HandedOver;
    var m, k' := Carrying(left + 1, h, Resting(rest), o, h == ID_HANDLER_B, q, k), k + if rest == 3 then 1 else 0;
    StartsLoading(left, h, rest, o, q, k);
    if rest >= 2 {
      SendsOne(left, h, 1, rest - 1, 3 - rest, o, q + 2, k');
      MovesOn(m, Loading(left, h, 1, rest - 1, 3 - rest, o, q + 2, k'),
              Loading(left, h, 2, rest - 2, 4 - rest, o, q + 3, k'));
    }
    if rest == 3 {
      SendsOne(left, h, 2, 1, 1, o, q + 3, k');
      MovesOn(m, Loading(left, h, 2, 1, 1, o, q + 3, k'), Loading(left, h, 3, 0, 2, o, q + 4, k'));
    }
    StopsLoading(left, h, rest, o, q + 1 + rest, k');
    MovesOn(m, Loading(left, h, rest, 0, 2, o, q + 1 + rest, k'),
            HandedOver(left, h, Waiting(1, rest), o, q + 1 + rest, k'));
  }

  // ----- from one turn of the idle task to the next

  lemma FullHandler(h: int, works: nat, rest: nat, o: Side, toB: bool, q: int, k: int)
    requires Handler(h) && works > 0 && Passive(o) && rest < 4 && toB == (h == ID_HANDLER_A)
    requires o == Resting(rest)
    ensures Moves(Released(Calm(h, Waiting(works, 3), o, toB, q, k), h == ID_HANDLER_B),
                  Calm(h, Waiting(works - 1, 0), Waiting(1, rest), !toB, q + 4 + rest, k + if rest == 3 then 2 else 1))
  {
    hide Moves;
    var m, d, o' := Released(Calm(h, Waiting(works, 3), o, toB, q, k), h == ID_HANDLER_B), Waiting(works - 1, 0), Other(h);
    ReturnsWork(h, works, o, toB, q, k);
    assert Carrying(1, h, d, o, toB, q + 3, k + 1) == Carrying(1, o', o, d, toB, q + 3, k + 1);
    if rest == 0 {
      HandsOver(o', 0, 0, d, q + 3, k + 1);
    } else {
      WakesUp(0, o', rest, d, q + 3, k + 1);
    }
    MovesOn(m, Carrying(1, h, d, o, toB, q + 3, k + 1),
            Calm(o', Waiting(1, rest), d, !toB, q + 4 + rest, k + if rest == 3 then 2 else 1));
  }

  lemma EachSettles(s: Balance, odd: bool, q: int, k: int)
    requires Fair(s) && s.Each?
    ensures var r := Next(s, odd); Moves(Released(At(s, q, k), odd), At(r.0, q + r.1, k + r.2))
  {
    hide Moves;
    var h, d, o := if odd then ID_HANDLER_B else ID_HANDLER_A, if odd then s.b else s.a, if odd then s.a else s.b;
    assert At(s, q, k) == Calm(h, Waiting(1, d), Waiting(1, o), s.toB, q, k);
    if d < 3 {
      PassesLetter(h, 1, d, Waiting(1, o), s.toB, q, k);
    } else {
      var m, m1 := Released(At(s, q, k), odd), Carrying(1, h, Waiting(0, 0), Waiting(1, o), s.toB, q + 3, k + 1);
      ReturnsWork(h, 1, Waiting(1, o), s.toB, q, k);
      if s.toB == odd {
        HandsOver(h, 0, 0, Waiting(1, o), q + 3, k + 1);
        MovesOn(m, m1, Calm(h, Waiting(1, 0), Waiting(1, o), !s.toB, q + 4, k + 1));
      } else {
        assert m1 == Carrying(1, Other(h), Waiting(1, o), Waiting(0, 0), s.toB, q + 3, k + 1);
        HandsOver(Other(h), 1, o, Waiting(0, 0), q + 3, k + 1);
        MovesOn(m, m1, Calm(Other(h), Waiting(2, o), Waiting(0, 0), !s.toB, q + 4, k + 1));
      }
    }
  }

  lemma BothSettles(s: Balance, odd: bool, q: int, k: int)
    requires Fair(s) && !s.Each?
    ensures var r := Next(s, odd); Moves(Released(At(s, q, k), odd), At(r.0, q + r.1, k + r.2))
  {
    hide Moves;
    var (h, p, rest) := match s case BothA(a, k) => (ID_HANDLER_A, a, k) case BothB(b, k) => (ID_HANDLER_B, b, k);
    var toB := h == ID_HANDLER_A;
    assert At(s, q, k) == Calm(h, Waiting(2, p), Resting(rest), toB, q, k);
    if odd == (h == ID_HANDLER_B) {
      if p < 3 {
        PassesLetter(h, 2, p, Resting(rest), toB, q, k);
      } else {
        FullHandler(h, 2, rest, Resting(rest), toB, q, k);
      }
    } else {
      assert At(s, q, k) == Calm(Other(h), Resting(rest), Waiting(2, p), toB, q, k);
      if rest < 3 {
        ComesToRest(Other(h), rest, Waiting(2, p), toB, q, k);
      } else {
        NothingToReturn(Other(h), Waiting(2, p), toB, q, k);
      }
    }
  }

  /** Each turn of the idle task moves the dispatcher to the next balance. */
  lemma Settles(s: Balance, odd: bool, q: int, k: int)
    requires Fair(s)
    ensures var r := Next(s, odd); Moves(Released(At(s, q, k), odd), At(r.0, q + r.1, k + r.2))
  {
    hide Moves;
    if s.Each? {
      EachSettles(s, odd, q, k);
    } else {
      BothSettles(s, odd, q, k);
    }
  }

  // ----- the set-up

  /** What the dispatcher starts with. */
  function Start(): Census {
    var d := Side(3, false, SUSPENDED_RUNNABLE, 0, 0, 0, 0, false, SUSPENDED);
    Census(true, ID_DEVICE_B, RUNNING, SUSPENDED_RUNNABLE, 2, true, d, d, 0, 0)
  }

  /** The handlers file their device packets, handler B first. */
  lemma PacketsFiled()
    ensures Moves(Start(), Carrying(2, ID_HANDLER_B, Resting(3), Resting(3), true, 0, 0))
  {
    var m1 := Start().(cur := ID_HANDLER_B, b := Resting(3));
    var m2 := Carrying(2, ID_HANDLER_B, Resting(3), Resting(3), true, 0, 0);
    assert Turns(Start(), 5) == m1;
    assert Turns(m1, 5) == m2;
    MovesOn(Start(), m1, m2);
  }

  lemma SetUpSettles()
    ensures Moves(Start(), At(Each(3, 3, true), 8, 2))
  {
    hide Moves;
    var m1, m2 := Carrying(2, ID_HANDLER_B, Resting(3), Resting(3), true, 0, 0),
                  Carrying(1, ID_HANDLER_B, Waiting(1, 3), Resting(3), false, 4, 1);
    PacketsFiled();
    WakesUp(1, ID_HANDLER_B, 3, Resting(3), 0, 0);
    MovesOn(Start(), m1, m2);
    assert m2 == Carrying(1, ID_HANDLER_A, Resting(3), Waiting(1, 3), false, 4, 1);
    WakesUp(0, ID_HANDLER_A, 3, Waiting(1, 3), 4, 1);
    MovesOn(Start(), m2, At(Each(3, 3, true), 8, 2));
  }

  // ----- whole runs

  /** What the idle task makes of its seed. */
  function NextSeed(seed: nat): nat {
    if seed % 2 == 0 then seed / 2 else Xor(seed / 2, 0xD008)
  }

  /** How many packets are queued and tasks held until the idle task has run count more times. */
  function Tally(s: Balance, seed: nat, count: nat): (int, int)
    requires Fair(s) && count > 0
    decreases count
  {
    if count == 1 then (0, 1)
    else
      var r := Next(s, seed % 2 == 1);
      var t := Tally(r.0, NextSeed(seed), count - 1);
      (r.1 + t.0, r.2 + t.1)
  }

  /** A state whose run ends where that of s ends, found by following the counted machine. */
  lemma {:induction false} TurnsFollow<P>(s: System<P>, m: Census, n: nat) returns (s': System<P>)
    requires Inv(s) && Counted(s, m) && Turns(m, n).ok
    ensures Inv(s') && Counted(s', Turns(m, n)) && s'.seed == s.seed && s'.count == s.count && Outcome(s') == Outcome(s)
    decreases n
  {
    if n == 0 {
      s' := s;
    } else {
      hide Inv, Counted, Turn, Step;
      CurCounted(s, m);
      TurnOk(Turn(m), n - 1);
      StepFollows(s, m);
      s' := TurnsFollow(Step(s), Turn(m), n - 1);
      NextOutcome(s);
    }
  }

  lemma CurCounted<P>(s: System<P>, m: Census)
    requires Counted(s, m)
    ensures s.cur == m.cur && m.ok
  {
  }

  lemma TurnOk(m: Census, n: nat)
    requires Turns(m, n).ok
    ensures m.ok
  {
  }

  lemma NextOutcome<P>(s: System<P>)
    requires Inv(s) && s.cur >= 0
    ensures Inv(Step(s)) && Outcome(Step(s)) == Outcome(s)
  {
    StepKeeps(s);
  }

  lemma MovesFollow<P>(s: System<P>, m: Census, m': Census) returns (s': System<P>)
    requires Inv(s) && Counted(s, m) && Moves(m, m')
    ensures Inv(s') && Counted(s', m') && s'.seed == s.seed && s'.count == s.count && Outcome(s') == Outcome(s)
  {
    var n: nat :| Turns(m, n) == m';
    s' := TurnsFollow(s, m, n);
  }

  /** The idle task's own turn. */
  lemma IdleFollows<P>(s: System<P>, m: Census)
    requires Inv(s) && Counted(s, m) && s.cur == ID_IDLE && m.idle == RUNNING && s.count > 1
    ensures Inv(Step(s)) && Step(s).seed == NextSeed(s.seed) && Step(s).count == s.count - 1
    ensures Counted(Step(s), Released(m, s.seed % 2 == 1))
  {
    StepKeeps(s);
    hide Kept;
    ReleaseFollows(s, m);
  }

  lemma ReleaseFollows<P>(s: System<P>, m: Census)
    requires Counted(s, m) && s.cur == ID_IDLE && m.idle == RUNNING && s.count > 1
    ensures var s' := RunBlock(s.(curId := s.cur));
            Counted(s', Released(m, s.seed % 2 == 1)) && s'.seed == NextSeed(s.seed)
  {
    hide Progress, AllKind, Xor;
  }

  lemma LastFollows<P>(s: System<P>, m: Census)
    requires Inv(s) && Counted(s, m) && s.cur == ID_IDLE && m.idle == RUNNING && s.count == 1
    ensures Outcome(s).queueCount == m.queues && Outcome(s).holdCount == m.holds + 1
  {
    StepKeeps(s);
    hide Kept, SideIs;
    assert Step(s).cur == -1;
    assert Outcome(Step(s)) == Step(s);
  }

  lemma AtIdle(s: Balance, q: int, k: int)
    requires Fair(s)
    ensures At(s, q, k).cur == ID_IDLE && At(s, q, k).idle == RUNNING
    ensures At(s, q, k).queues == q && At(s, q, k).holds == k
  {
  }

  /** From one turn of the idle task to the next, or to another state with the same outcome. */
  lemma RoundFollows<P>(s: System<P>, bal: Balance, q: int, k: int) returns (s': System<P>)
    requires Inv(s) && Fair(bal) && Counted(s, At(bal, q, k)) && s.count > 1
    ensures Inv(s') && s'.seed == NextSeed(s.seed) && s'.count == s.count - 1 && Outcome(s') == Outcome(s)
    ensures var r := Next(bal, s.seed % 2 == 1); Counted(s', At(r.0, q + r.1, k + r.2))
  {
    hide Inv, Counted, Step, Moves, NextSeed, At, Released, Next, Outcome;
    var m, odd, r := At(bal, q, k), s.seed % 2 == 1, Next(bal, s.seed % 2 == 1);
    AtIdle(bal, q, k);
    CurCounted(s, m);
    IdleFollows(s, m);
    NextOutcome(s);
    Settles(bal, odd, q, k);
    s' := MovesFollow(Step(s), Released(m, odd), At(r.0, q + r.1, k + r.2));
  }

  /** From any state in which only the idle task can run. */
  lemma {:induction false} TallyIsRight<P>(s: System<P>, bal: Balance, q: int, k: int)
    requires Inv(s) && Fair(bal) && Counted(s, At(bal, q, k)) && s.count > 0
    ensures Outcome(s).queueCount == q + Tally(bal, s.seed, s.count).0
    ensures Outcome(s).holdCount == k + Tally(bal, s.seed, s.count).1
    decreases s.count
  {
    hide Inv, Counted, NextSeed, At, Next, Outcome;
    AtIdle(bal, q, k);
    CurCounted(s, At(bal, q, k));
    if s.count == 1 {
      LastFollows(s, At(bal, q, k));
    } else {
      var s' := RoundFollows(s, bal, q, k);
      var r := Next(bal, s.seed % 2 == 1);
      TallyIsRight(s', r.0, q + r.1, k + r.2);
    }
  }

  /** For two work packets and three device packets for each handler the counts of the whole run
      depend on nothing but the count. */
  lemma SetUpTally<P>(w: seq<P>, a: seq<P>, b: seq<P>, count: int)
    requires NoDuplicates(w + a + b) && |w| == 2 && |a| == |b| == 3 && count >= 1
    ensures Inv(Initial(w, a, b, count))
    ensures Outcome(Initial(w, a, b, count)).queueCount == 8 + Tally(Each(3, 3, true), 1, count).0
    ensures Outcome(Initial(w, a, b, count)).holdCount == 2 + Tally(Each(3, 3, true), 1, count).1
  {
    var s := Initial(w, a, b, count);
    InitialIsGood(w, a, b, count);
    StartCounted(w, a, b, count);
    hide Inv, Counted, Moves;
    SetUpSettles();
    var s' := MovesFollow(s, Start(), At(Each(3, 3, true), 8, 2));
    TallyIsRight(s', Each(3, 3, true), 8, 2);
  }

  lemma StartCounted<P>(w: seq<P>, a: seq<P>, b: seq<P>, count: int)
    requires NoDuplicates(w + a + b) && |w| == 2 && |a| == |b| == 3 && count >= 1
    ensures Counted(Initial(w, a, b, count), Start())
  {
    hide Inv, Kept, Distinct, NoDuplicates, SideIs, Initial;
    InitialDistinct(w, a, b);
    InitialIsGood(w, a, b, count);
    var s := Initial(w, a, b, count);
    StartShaped(s);
    StartSide(s, w, a, b, count, ID_HANDLER_A);
    StartSide(s, w, a, b, count, ID_HANDLER_B);
    StartRest(s, w, a, b, count);
  }

  lemma StartRest<P>(s: System<P>, w: seq<P>, a: seq<P>, b: seq<P>, count: int)
    requires s == Initial(w, a, b, count) && |w| == 2
    ensures s.cur == ID_DEVICE_B && s.states[0] == RUNNING && s.states[1] == SUSPENDED_RUNNABLE && |s.lists[1]| == 2
    ensures s.v1 == ID_HANDLER_A && s.queueCount == 0 && s.holdCount == 0 && s.seed == 1 && s.count == count
  {
  }

  lemma StartShaped<P>(s: System<P>)
    requires Inv(s)
    ensures Shaped(s)
  {
  }

  lemma StartSide<P>(s: System<P>, w: seq<P>, a: seq<P>, b: seq<P>, count: int, h: int)
    requires s == Initial(w, a, b, count) && Shaped(s) && |w| == 2 && |a| == |b| == 3 && Handler(h)
    requires forall p :: p in a ==> p !in w
    requires forall p :: p in b ==> p !in w && p !in a
    ensures SideIs(s, h, Start().a)
  {
  }
}
