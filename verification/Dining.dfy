/** The table and the philosophers as an asynchronous system: every object has a FIFO
    queue of events and handles them one at a time, in any interleaving. */
module Dining {
  import opened Base
  import opened Table
  import opened Philo
  import opened Guests

  // ------------------------------------------------------------------ the system

  datatype PhiloCell = PhiloCell(state: PhiloState, armed: bool, queue: seq<Evt>)

  datatype Sys = Sys(table: Seating, tableQueue: seq<Evt>, philos: seq<PhiloCell>)

  /** A timer expires, a philosopher handles an event, or the table handles one. */
  datatype Move = Expire(n: nat) | PhiloMove(n: nat) | TableMove

  function Init(count: nat): Sys {
    Sys(Seating(seq(count, _ => Free), seq(count, _ => false)), [],
        seq(count, _ => PhiloCell(Thinking, true, [])))
  }

  predicate Enabled(s: Sys, m: Move) {
    match m
    case Expire(n) => n < |s.philos| && s.philos[n].armed
    case PhiloMove(n) => n < |s.philos| && s.philos[n].queue != []
    case TableMove => s.tableQueue != []
  }

  /** EAT is published: every philosopher gets a copy. */
  function Broadcast(philos: seq<PhiloCell>, eater: nat): (r: seq<PhiloCell>)
    ensures |r| == |philos|
  {
    seq(|philos|, k requires 0 <= k < |philos| => philos[k].(queue := philos[k].queue + [EatEvt(eater)]))
  }

  function BroadcastAll(philos: seq<PhiloCell>, eats: seq<nat>): (r: seq<PhiloCell>)
    ensures |r| == |philos|
    decreases |eats|
  {
    if eats == [] then philos else BroadcastAll(Broadcast(philos, eats[0]), eats[1..])
  }

  /** The system after an enabled move, or None when an assertion of the source fails. */
  function Next(s: Sys, m: Move): (r: Option<Sys>)
    requires s.table.WellFormed() && Enabled(s, m)
    ensures r.Some? ==> r.value.table.WellFormed() && |r.value.philos| == |s.philos|
                        && |r.value.table.fork| == |s.table.fork|
  {
    match m
    case Expire(n) =>
      var p := s.philos[n];
      Some(s.(philos := s.philos[n := p.(armed := false, queue := p.queue + [TimeoutEvt])]))
    case PhiloMove(n) =>
      var p := s.philos[n];
      (match React(n, p.state, p.queue[0])
       case Violation => None
       case Reaction(state, arms, sends) =>
         Some(s.(philos := s.philos[n := PhiloCell(state, p.armed || arms, p.queue[1..])],
                 tableQueue := s.tableQueue + sends)))
    case TableMove =>
      (match Serve(s.table, s.tableQueue[0])
       case AssertFailed => None
       case Served(t, eats) =>
         Some(Sys(t, s.tableQueue[1..], BroadcastAll(s.philos, eats))))
  }

  // --------------------------------------------------------------- the invariant

  /** The events in the table's queue that come from philosopher `n`. */
  function FromPhilo(q: seq<Evt>, n: nat): seq<Evt> {
    if q == [] then []
    else (if (q[0].HungryEvt? || q[0].DoneEvt?) && q[0].philo == n then [q[0]] else []) + FromPhilo(q[1..], n)
  }

  /** The events in philosopher `n`'s queue that he reacts to. */
  function ForPhilo(q: seq<Evt>, n: nat): seq<Evt> {
    if q == [] then []
    else (if q[0] == TimeoutEvt || q[0] == EatEvt(n) then [q[0]] else []) + ForPhilo(q[1..], n)
  }

  /** How far a philosopher is round the cycle, and where the event is that takes him on. */
  datatype Phase =
    | Resting(timer: bool, leaving: bool)   // thinking; `leaving`: DONE is still on its way
    | Asking(leaving: bool)                 // HUNGRY is on its way, behind DONE if there is one
    | Waiting                               // the table has set his flag
    | Called                                // EAT is on its way
    | Dining(timer: bool)                   // eating

  function Timer(timer: bool): seq<Evt> { if timer then [] else [TimeoutEvt] }

  /** The philosopher's state, timer and queue, and what the table's queue has from him. */
  ghost predicate InPhase(p: PhiloCell, n: nat, toTable: seq<Evt>, ph: Phase) {
    match ph
    case Resting(timer, leaving) =>
      p.state == Thinking && p.armed == timer && ForPhilo(p.queue, n) == Timer(timer) &&
      toTable == if leaving then [DoneEvt(n)] else []
    case Asking(leaving) =>
      p.state == Hungry && !p.armed && ForPhilo(p.queue, n) == [] &&
      toTable == (if leaving then [DoneEvt(n)] else []) + [HungryEvt(n)]
    case Waiting => p.state == Hungry && !p.armed && ForPhilo(p.queue, n) == [] && toTable == []
    case Called => p.state == Hungry && !p.armed && ForPhilo(p.queue, n) == [EatEvt(n)] && toTable == []
    case Dining(timer) =>
      p.state == Eating && p.armed == timer && ForPhilo(p.queue, n) == Timer(timer) && toTable == []
  }

  predicate Holds(ph: Phase) {
    match ph
    case Resting(_, leaving) => leaving
    case Asking(leaving) => leaving
    case Waiting => false
    case Called => true
    case Dining(_) => true
  }

  ghost function GuestsOf(phases: seq<Phase>): Guests {
    Guests(set n: nat | n < |phases| && Holds(phases[n]), set n: nat | n < |phases| && phases[n] == Waiting)
  }

  ghost predicate TableEvents(q: seq<Evt>, count: nat) {
    forall i :: 0 <= i < |q| ==> (q[i].HungryEvt? || q[i].DoneEvt?) && q[i].philo < count
  }

  /** Philosophers are sent EAT by the table and TIMEOUT by their timer: nobody but the
      table subscribes to DONE. */
  ghost predicate PhiloEvents(q: seq<Evt>) {
    forall i :: 0 <= i < |q| ==> q[i].EatEvt? || q[i] == TimeoutEvt
  }

  /** Every philosopher is in his phase, the forks are with those whose phase says so,
      and nobody waits who could eat. */
  ghost predicate Inv(s: Sys, phases: seq<Phase>) {
    var count := |s.philos|;
    count >= 2 && |phases| == count && |s.table.fork| == count &&
    TableEvents(s.tableQueue, count) &&
    (forall n :: 0 <= n < count ==> PhiloEvents(s.philos[n].queue)) &&
    (forall n :: 0 <= n < count ==> InPhase(s.philos[n], n, FromPhilo(s.tableQueue, n), phases[n])) &&
    Represents(s.table, GuestsOf(phases)) &&
    NoMissedWakeUp(GuestsOf(phases), count)
  }

  lemma InvInit(count: nat)
    requires count >= 2
    ensures Inv(Init(count), seq(count, _ => Resting(true, false)))
  {
  }

  // -------------------------------------------------------------- queue lemmas

  lemma {:induction false} FromPhiloAppend(q: seq<Evt>, e: Evt, n: nat)
    ensures FromPhilo(q + [e], n) ==
            FromPhilo(q, n) + if (e.HungryEvt? || e.DoneEvt?) && e.philo == n then [e] else []
  {
    if q != [] {
      FromPhiloAppend(q[1..], e, n);
      assert (q + [e])[1..] == q[1..] + [e];
    }
  }

  lemma {:induction false} ForPhiloAppend(q: seq<Evt>, e: Evt, n: nat)
    ensures ForPhilo(q + [e], n) == ForPhilo(q, n) + if e == TimeoutEvt || e == EatEvt(n) then [e] else []
  {
    if q != [] {
      ForPhiloAppend(q[1..], e, n);
      assert (q + [e])[1..] == q[1..] + [e];
    }
  }

  // -------------------------------------------------------------------- the moves

  /** Changing the phase of `n` within the same relation to the table. */
  lemma SameGuests(phases: seq<Phase>, n: nat, ph: Phase)
    requires n < |phases| && Holds(ph) == Holds(phases[n]) && (ph == Waiting <==> phases[n] == Waiting)
    ensures GuestsOf(phases[n := ph]) == GuestsOf(phases)
  {
  }

  /** One philosopher moves on, sending at most one event to the table. */
  lemma CellMoves(s: Sys, phases: seq<Phase>, n: nat, cell: PhiloCell, sends: seq<Evt>, ph: Phase)
    requires Inv(s, phases) && n < |s.philos| && PhiloEvents(cell.queue)
    requires sends == [] || sends == [HungryEvt(n)] || sends == [DoneEvt(n)]
    requires InPhase(cell, n, FromPhilo(s.tableQueue, n) + sends, ph)
    requires Holds(ph) == Holds(phases[n]) && (ph == Waiting <==> phases[n] == Waiting)
    ensures Inv(s.(philos := s.philos[n := cell], tableQueue := s.tableQueue + sends), phases[n := ph])
  {
    hide Represents, NoMissedWakeUp, GuestsOf, FromPhilo, InPhase;
    SameGuests(phases, n, ph);
    forall k | 0 <= k < |s.philos|
      ensures FromPhilo(s.tableQueue + sends, k)
              == if k == n then FromPhilo(s.tableQueue, k) + sends else FromPhilo(s.tableQueue, k)
    {
      SentFrom(s.tableQueue, sends, n, k);
    }
  }

  lemma SentFrom(q: seq<Evt>, sends: seq<Evt>, n: nat, k: nat)
    requires sends == [] || sends == [HungryEvt(n)] || sends == [DoneEvt(n)]
    ensures FromPhilo(q + sends, k) == if k == n then FromPhilo(q, k) + sends else FromPhilo(q, k)
  {
    if sends == [] { assert q + sends == q; } else { FromPhiloAppend(q, sends[0], k); }
  }

  function AfterExpire(ph: Phase): Phase {
    match ph case Resting(_, leaving) => Resting(false, leaving) case _ => Dining(false)
  }

  lemma ExpireInPhase(p: PhiloCell, n: nat, toTable: seq<Evt>, ph: Phase)
    requires InPhase(p, n, toTable, ph) && p.armed
    ensures InPhase(p.(armed := false, queue := p.queue + [TimeoutEvt]), n, toTable + [], AfterExpire(ph))
    ensures Holds(AfterExpire(ph)) == Holds(ph) && (AfterExpire(ph) == Waiting <==> ph == Waiting)
  {
    ForPhiloAppend(p.queue, TimeoutEvt, n);
    assert toTable + [] == toTable;
  }

  lemma ExpireKeeps(s: Sys, phases: seq<Phase>, n: nat) returns (phases': seq<Phase>)
    requires Inv(s, phases) && Enabled(s, Expire(n))
    ensures GuestsOf(phases') == GuestsOf(phases)
    ensures match Next(s, Expire(n)) case None => false case Some(s') => Inv(s', phases')
  {
    hide Represents, NoMissedWakeUp, GuestsOf, FromPhilo, InPhase, AfterExpire;
    var p := s.philos[n];
    phases' := phases[n := AfterExpire(phases[n])];
    ExpireInPhase(p, n, FromPhilo(s.tableQueue, n), phases[n]);
    SameGuests(phases, n, phases'[n]);
    CellMoves(s, phases, n, p.(armed := false, queue := p.queue + [TimeoutEvt]), [], phases'[n]);
    assert s.tableQueue + [] == s.tableQueue;
  }

  /** The phase after handling `e`. */
  function AfterEvent(ph: Phase, e: Evt, n: nat): Phase {
    if e != TimeoutEvt && e != EatEvt(n) then ph
    else match ph
      case Resting(_, leaving) => Asking(leaving)
      case Called => Dining(true)
      case _ => Resting(true, true)
  }

  /** In his phase, a philosopher handles the head of his queue without violation, and
      what he then sends takes him to the next phase. */
  lemma ReactInPhase(p: PhiloCell, n: nat, toTable: seq<Evt>, ph: Phase)
    requires InPhase(p, n, toTable, ph) && p.queue != [] && PhiloEvents(p.queue)
    ensures match React(n, p.state, p.queue[0])
            case Violation => false
            case Reaction(state, arms, sends) =>
              InPhase(PhiloCell(state, p.armed || arms, p.queue[1..]), n, toTable + sends,
                      AfterEvent(ph, p.queue[0], n)) &&
              (sends == [] || (p.queue[0] == TimeoutEvt && (sends == [HungryEvt(n)] || sends == [DoneEvt(n)])))
    ensures var ph' := AfterEvent(ph, p.queue[0], n);
            Holds(ph') == Holds(ph) && (ph' == Waiting <==> ph == Waiting)
  {
    var e, rest := p.queue[0], ForPhilo(p.queue[1..], n);
    assert ForPhilo(p.queue, n) == (if e == TimeoutEvt || e == EatEvt(n) then [e] else []) + rest;
    hide ForPhilo;
    if e == TimeoutEvt || e == EatEvt(n) {
      assert ForPhilo(p.queue, n)[0] == e;
      assert |rest| == |ForPhilo(p.queue, n)| - 1;
      match ph
      case Resting(_, leaving) =>
        assert toTable + [HungryEvt(n)] == (if leaving then [DoneEvt(n)] else []) + [HungryEvt(n)];
      case Called => assert toTable + [] == [];
      case Dining(_) => assert toTable + [DoneEvt(n)] == [DoneEvt(n)];
      case _ =>
    } else {
      assert toTable + [] == toTable;
    }
  }

  /** A philosopher handles the head of his queue. */
  lemma PhiloKeeps(s: Sys, phases: seq<Phase>, n: nat) returns (phases': seq<Phase>)
    requires Inv(s, phases) && Enabled(s, PhiloMove(n))
    ensures GuestsOf(phases') == GuestsOf(phases)
    ensures match Next(s, PhiloMove(n)) case None => false case Some(s') => Inv(s', phases')
  {
    hide Represents, NoMissedWakeUp, GuestsOf, FromPhilo, InPhase, AfterEvent, React;
    var p := s.philos[n];
    phases' := phases[n := AfterEvent(phases[n], p.queue[0], n)];
    ReactInPhase(p, n, FromPhilo(s.tableQueue, n), phases[n]);
    SameGuests(phases, n, phases'[n]);
    match React(n, p.state, p.queue[0])
    case Violation =>
    case Reaction(state, arms, sends) =>
      CellMoves(s, phases, n, PhiloCell(state, p.armed || arms, p.queue[1..]), sends, phases'[n]);
  }

  // ------------------------------------------------------------- the table's move

  /** The part of the invariant about the single philosophers. */
  ghost predicate InPhases(philos: seq<PhiloCell>, q: seq<Evt>, phases: seq<Phase>) {
    |philos| == |phases| &&
    (forall k :: 0 <= k < |philos| ==> PhiloEvents(philos[k].queue)) &&
    (forall k :: 0 <= k < |philos| ==> InPhase(philos[k], k, FromPhilo(q, k), phases[k]))
  }

  /** Once the table has taken the head of its queue. */
  function AfterHead(ph: Phase): Phase {
    match ph
    case Resting(timer, _) => Resting(timer, false)
    case Asking(true) => Asking(false)
    case _ => Waiting
  }

  lemma FromPhiloHead(q: seq<Evt>, n: nat)
    requires q != []
    ensures FromPhilo(q, n) ==
            (if (q[0].HungryEvt? || q[0].DoneEvt?) && q[0].philo == n then [q[0]] else []) + FromPhilo(q[1..], n)
  {
  }

  /** The head of the queue fits the phase of the philosopher it comes from. */
  lemma HeadInPhase(p: PhiloCell, n: nat, e: Evt, rest: seq<Evt>, ph: Phase)
    requires InPhase(p, n, [e] + rest, ph)
    ensures e == HungryEvt(n) || e == DoneEvt(n)
    ensures InPhase(p, n, rest, AfterHead(ph))
    ensures e == HungryEvt(n) ==> !Holds(ph) && ph != Waiting && AfterHead(ph) == Waiting
    ensures e == DoneEvt(n) ==> Holds(ph) && !Holds(AfterHead(ph)) && AfterHead(ph) != Waiting
  {
    var q := [e] + rest;
    assert q[0] == e && q[1..] == rest;
  }

  lemma PhaseChange(phases: seq<Phase>, n: nat, ph: Phase)
    requires n < |phases|
    ensures var g := GuestsOf(phases);
            GuestsOf(phases[n := ph]) == Guests(if Holds(ph) then g.eating + {n} else g.eating - {n},
                                                if ph == Waiting then g.waiting + {n} else g.waiting - {n})
  {
  }

  lemma HeadTaken(s: Sys, phases: seq<Phase>)
    requires Inv(s, phases) && s.tableQueue != []
    ensures var e := s.tableQueue[0];
            (e.HungryEvt? || e.DoneEvt?) && e.philo < |phases| &&
            var n := e.philo;
            var phases' := phases[n := AfterHead(phases[n])];
            var g := GuestsOf(phases);
            InPhases(s.philos, s.tableQueue[1..], phases') &&
            match e
            case HungryEvt(_) => n !in g.eating + g.waiting
                              && GuestsOf(phases') == Guests(g.eating, g.waiting + {n})
            case _ => n in g.eating && GuestsOf(phases') == Guests(g.eating - {n}, g.waiting)
  {
    hide Represents, NoMissedWakeUp, FromPhilo, InPhase, AfterHead;
    var e := s.tableQueue[0];
    var n := e.philo;
    PhaseChange(phases, n, AfterHead(phases[n]));
    forall k: nat | k < |phases| ensures FromPhilo(s.tableQueue, k) ==
            if k == n then [e] + FromPhilo(s.tableQueue[1..], k) else FromPhilo(s.tableQueue[1..], k) {
      FromPhiloHead(s.tableQueue, k);
      if k != n { assert [] + FromPhilo(s.tableQueue[1..], k) == FromPhilo(s.tableQueue[1..], k); }
    }
    HeadInPhase(s.philos[n], n, e, FromPhilo(s.tableQueue[1..], n), phases[n]);
    var g := GuestsOf(phases);
    if e.HungryEvt? { assert g.eating - {n} == g.eating; } else { assert g.waiting - {n} == g.waiting; }
  }

  /** EAT for `m` calls `m` and is of no concern to the others. */
  lemma CallOne(philos: seq<PhiloCell>, q: seq<Evt>, phases: seq<Phase>, m: nat)
    requires InPhases(philos, q, phases) && m < |phases| && phases[m] == Waiting
    ensures InPhases(Broadcast(philos, m), q, phases[m := Called])
    ensures var g := GuestsOf(phases);
            GuestsOf(phases[m := Called]) == Guests(g.eating + {m}, g.waiting - {m})
  {
    hide FromPhilo;
    var philos' := Broadcast(philos, m);
    forall k | 0 <= k < |philos|
      ensures PhiloEvents(philos'[k].queue) && InPhase(philos'[k], k, FromPhilo(q, k), phases[m := Called][k])
    {
      CallInPhase(philos[k], k, FromPhilo(q, k), phases[k], m);
    }
  }

  lemma CallInPhase(p: PhiloCell, k: nat, toTable: seq<Evt>, ph: Phase, m: nat)
    requires PhiloEvents(p.queue) && InPhase(p, k, toTable, ph) && (k == m ==> ph == Waiting)
    ensures PhiloEvents(p.queue + [EatEvt(m)])
    ensures InPhase(p.(queue := p.queue + [EatEvt(m)]), k, toTable, if k == m then Called else ph)
  {
    ForPhiloAppend(p.queue, EatEvt(m), k);
    hide ForPhilo;
    assert ForPhilo(p.queue, k) + [] == ForPhilo(p.queue, k);
  }

  /** Seating a guest who waits and can eat, if there is one at `m`. */
  lemma SeatOne(philos: seq<PhiloCell>, q: seq<Evt>, phases: seq<Phase>, m: nat) returns (phases': seq<Phase>)
    requires InPhases(philos, q, phases) && m < |phases|
    ensures var (g, eats) := Seat(GuestsOf(phases), m, |phases|);
            |phases'| == |phases| && GuestsOf(phases') == g && InPhases(BroadcastAll(philos, eats), q, phases')
  {
    hide InPhases;
    phases' := phases;
    if m in GuestsOf(phases).waiting && CanEat(GuestsOf(phases), m, |phases|) {
      CallOne(philos, q, phases, m);
      phases' := phases[m := Called];
      assert [m][1..] == [];
    }
  }

  lemma BroadcastTwice(philos: seq<PhiloCell>, a: seq<nat>, b: seq<nat>)
    requires |a| <= 1
    ensures BroadcastAll(philos, a + b) == BroadcastAll(BroadcastAll(philos, a), b)
  {
    if a == [] { assert a + b == b; } else { assert (a + b)[1..] == b && a[1..] == []; }
  }

  /** The host's seating, carried out by the table's broadcasts. */
  lemma HostSeats(philos: seq<PhiloCell>, q: seq<Evt>, before: Guests, phases: seq<Phase>, e: Evt)
    returns (phases': seq<Phase>)
    requires InPhases(philos, q, phases) && (e.HungryEvt? || e.DoneEvt?) && e.philo < |phases|
    requires GuestsOf(phases) == if e.HungryEvt? then Guests(before.eating, before.waiting + {e.philo})
                                 else Guests(before.eating - {e.philo}, before.waiting)
    ensures var (g, eats) := Host(before, e, |phases|);
            |phases'| == |phases| && GuestsOf(phases') == g && InPhases(BroadcastAll(philos, eats), q, phases')
  {
    hide InPhases, GuestsOf, Seat, Left, Right, BroadcastAll;
    var n, count := e.philo, |phases|;
    if e.HungryEvt? {
      phases' := SeatOne(philos, q, phases, n);
    } else {
      var (g1, first) := Seat(GuestsOf(phases), Right(n, count), count);
      var phases1 := SeatOne(philos, q, phases, Right(n, count));
      var (g2, second) := Seat(g1, Left(n, count), count);
      phases' := SeatOne(BroadcastAll(philos, first), q, phases1, Left(n, count));
      SeatsAtMostOne(GuestsOf(phases), Right(n, count), count);
      BroadcastTwice(philos, first, second);
    }
  }

  lemma SeatsAtMostOne(g: Guests, n: nat, count: nat)
    requires n < count
    ensures |Seat(g, n, count).1| <= 1
  {
  }

  lemma TableKeeps(s: Sys, phases: seq<Phase>) returns (phases': seq<Phase>)
    requires Inv(s, phases) && Enabled(s, TableMove)
    ensures match Next(s, TableMove) case None => false case Some(s') => Inv(s', phases')
    ensures GuestsOf(phases') == Host(GuestsOf(phases), s.tableQueue[0], |phases|).0
    ensures Serve(s.table, s.tableQueue[0]).Served? &&
            Serve(s.table, s.tableQueue[0]).eats == Host(GuestsOf(phases), s.tableQueue[0], |phases|).1
  {
    hide Represents, NoMissedWakeUp, GuestsOf, FromPhilo, InPhase, AfterHead, Serve, Host, BroadcastAll;
    var e, g := s.tableQueue[0], GuestsOf(phases);
    HeadTaken(s, phases);
    ServeRefinesHost(s.table, g, e);
    EatersDoNotWait(s.table, g);
    HostWakesUp(g, e, |phases|);
    phases' := HostSeats(s.philos, s.tableQueue[1..], g, phases[e.philo := AfterHead(phases[e.philo])], e);
  }

  lemma EatersDoNotWait(t: Seating, g: Guests)
    requires Represents(t, g)
    ensures g.eating !! g.waiting
  {
  }

  // ------------------------------------------------------------------------- runs

  /** A state that some schedule of moves leads to; a move that is not enabled is idle. */
  function Run(s: Sys, moves: seq<Move>): (r: Option<Sys>)
    requires s.table.WellFormed()
    ensures r.Some? ==> r.value.table.WellFormed() && |r.value.philos| == |s.philos|
                        && |r.value.table.fork| == |s.table.fork|
    decreases |moves|
  {
    if moves == [] then Some(s)
    else if !Enabled(s, moves[0]) then Run(s, moves[1..])
    else match Next(s, moves[0])
      case None => None
      case Some(s') => Run(s', moves[1..])
  }

  lemma MoveKeeps(s: Sys, phases: seq<Phase>, m: Move) returns (phases': seq<Phase>)
    requires Inv(s, phases) && Enabled(s, m)
    ensures match Next(s, m) case None => false case Some(s') => Inv(s', phases')
  {
    match m
    case Expire(n) => phases' := ExpireKeeps(s, phases, n);
    case PhiloMove(n) => phases' := PhiloKeeps(s, phases, n);
    case TableMove => phases' := TableKeeps(s, phases);
  }

  lemma {:induction false} RunKeeps(s: Sys, phases: seq<Phase>, moves: seq<Move>) returns (phases': seq<Phase>)
    requires Inv(s, phases)
    ensures match Run(s, moves) case None => false case Some(s') => Inv(s', phases')
    decreases |moves|
  {
    hide Next, NoMissedWakeUp, GuestsOf, FromPhilo, InPhase;
    if moves == [] {
      phases' := phases;
    } else if !Enabled(s, moves[0]) {
      phases' := RunKeeps(s, phases, moves[1..]);
    } else {
      var phases1 := MoveKeeps(s, phases, moves[0]);
      phases' := RunKeeps(Next(s, moves[0]).value, phases1, moves[1..]);
    }
  }

  /** In every run, under every interleaving, no assertion of the table or of a
      philosopher fails, and every philosopher is in a phase of the protocol. */
  lemma NoAssertionFails(count: nat, moves: seq<Move>) returns (phases: seq<Phase>)
    requires count >= 2
    ensures match Run(Init(count), moves) case None => false case Some(s) => Inv(s, phases)
  {
    InvInit(count);
    phases := RunKeeps(Init(count), seq(count, _ => Resting(true, false)), moves);
  }
}
