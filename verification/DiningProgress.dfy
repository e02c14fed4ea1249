/** Deadlock freedom: while no philosopher's thinking time runs out, every move uses up
    some of a finite weight, and a system that has come to rest is back at the start. */
module DiningProgress {
  import opened Table
  import opened Philo
  import opened Guests
  import opened Dining

  function Sum(w: seq<nat>): nat {
    if w == [] then 0 else w[0] + Sum(w[1..])
  }

  lemma {:induction false} SumAppend(a: seq<nat>, b: seq<nat>)
    ensures Sum(a + b) == Sum(a) + Sum(b)
  {
    if a == [] { assert a + b == b; } else { SumAppend(a[1..], b); assert (a + b)[1..] == a[1..] + b; }
  }

  lemma SumUpdate(a: seq<nat>, i: nat, x: nat)
    requires i < |a|
    ensures Sum(a[i := x]) + a[i] == Sum(a) + x
  {
    hide Sum;
    assert a == a[..i] + ([a[i]] + a[i + 1..]);
    assert a[i := x] == a[..i] + ([x] + a[i + 1..]);
    SumAppend(a[..i], [a[i]] + a[i + 1..]);
    SumAppend(a[..i], [x] + a[i + 1..]);
    SumAppend([a[i]], a[i + 1..]);
    SumAppend([x], a[i + 1..]);
    SumOne(a[i]);
    SumOne(x);
  }

  lemma SumOne(x: nat)
    ensures Sum([x]) == x
  {
  }

  // ------------------------------------------------------------------ the weight

  /** What an event in the table's queue can still cause, and itself. */
  function TableWeight(e: Evt, count: nat): nat {
    match e case HungryEvt(_) => count + 4 case _ => 1
  }

  function TableQueueWeight(q: seq<Evt>, count: nat): nat {
    if q == [] then 0 else TableWeight(q[0], count) + TableQueueWeight(q[1..], count)
  }

  function QueueWeight(q: seq<Evt>, n: nat): nat {
    if q == [] then 0
    else (if q[0] == TimeoutEvt then 2 else if q[0] == EatEvt(n) then 4 else 1) + QueueWeight(q[1..], n)
  }

  function CellWeight(p: PhiloCell, n: nat, count: nat): nat {
    QueueWeight(p.queue, n) +
    match p.state
    case Thinking => if p.armed then 0 else count + 3
    case Hungry => 0
    case Eating => if p.armed then 3 else 0
  }

  function CellWeights(philos: seq<PhiloCell>): (r: seq<nat>)
    ensures |r| == |philos|
  {
    seq(|philos|, n requires 0 <= n < |philos| => CellWeight(philos[n], n, |philos|))
  }

  function FlagWeights(flags: seq<bool>): (r: seq<nat>)
    ensures |r| == |flags|
  {
    seq(|flags|, n requires 0 <= n < |flags| => if flags[n] then |flags| + 3 else 0)
  }

  function Weight(s: Sys): nat {
    TableQueueWeight(s.tableQueue, |s.philos|) + Sum(CellWeights(s.philos)) + Sum(FlagWeights(s.table.isHungry))
  }

  lemma {:induction false} TableQueueAppend(q: seq<Evt>, e: Evt, count: nat)
    ensures TableQueueWeight(q + [e], count) == TableQueueWeight(q, count) + TableWeight(e, count)
  {
    if q != [] { TableQueueAppend(q[1..], e, count); assert (q + [e])[1..] == q[1..] + [e]; }
  }

  lemma {:induction false} QueueAppend(q: seq<Evt>, e: Evt, n: nat)
    ensures QueueWeight(q + [e], n)
         == QueueWeight(q, n) + if e == TimeoutEvt then 2 else if e == EatEvt(n) then 4 else 1
  {
    if q != [] { QueueAppend(q[1..], e, n); assert (q + [e])[1..] == q[1..] + [e]; }
  }

  lemma CellUpdate(philos: seq<PhiloCell>, n: nat, p: PhiloCell)
    requires n < |philos|
    ensures Sum(CellWeights(philos[n := p])) + CellWeight(philos[n], n, |philos|)
            == Sum(CellWeights(philos)) + CellWeight(p, n, |philos|)
  {
    hide CellWeight, Sum;
    var w := CellWeights(philos);
    assert CellWeights(philos[n := p]) == w[n := CellWeight(p, n, |philos|)];
    SumUpdate(w, n, CellWeight(p, n, |philos|));
  }

  lemma FlagUpdate(flags: seq<bool>, n: nat, b: bool)
    requires n < |flags|
    ensures Sum(FlagWeights(flags[n := b])) + (if flags[n] then |flags| + 3 else 0)
            == Sum(FlagWeights(flags)) + if b then |flags| + 3 else 0
  {
    hide Sum;
    var w, x := FlagWeights(flags), if b then |flags| + 3 else 0;
    assert FlagWeights(flags[n := b]) == w[n := x];
    SumUpdate(w, n, x);
  }

  // ------------------------------------------------------- each move uses weight

  /** A thinking philosopher's timer runs out: the one move that starts something new. */
  predicate StartsHunger(s: Sys, m: Move) {
    m.Expire? && m.n < |s.philos| && s.philos[m.n].state == Thinking
  }

  lemma ExpireUses(s: Sys, n: nat)
    requires s.table.WellFormed() && Enabled(s, Expire(n)) && s.philos[n].state == Eating
    ensures Weight(Next(s, Expire(n)).value) < Weight(s)
  {
    hide Sum, QueueWeight, CellWeights, FlagWeights, TableQueueWeight;
    var p := s.philos[n];
    var p' := p.(armed := false, queue := p.queue + [TimeoutEvt]);
    QueueAppend(p.queue, TimeoutEvt, n);
    CellUpdate(s.philos, n, p');
  }

  /** What one philosopher's step does to his own weight and the table queue's. */
  lemma ReactUses(p: PhiloCell, n: nat, count: nat)
    requires p.queue != [] && PhiloEvents(p.queue) && (p.state == Hungry ==> !p.armed)
    requires p.queue[0] == TimeoutEvt ==> !p.armed
    ensures match React(n, p.state, p.queue[0])
            case Violation => true
            case Reaction(state, arms, sends) =>
              |sends| <= 1 &&
              CellWeight(PhiloCell(state, p.armed || arms, p.queue[1..]), n, count)
              + (if sends == [] then 0 else TableWeight(sends[0], count)) < CellWeight(p, n, count)
  {
  }

  lemma PhiloUses(s: Sys, phases: seq<Phase>, n: nat)
    requires Inv(s, phases) && Enabled(s, PhiloMove(n))
    ensures match Next(s, PhiloMove(n)) case None => true case Some(s') => Weight(s') < Weight(s)
  {
    var p, count := s.philos[n], |s.philos|;
    TimerStopped(p, n, FromPhilo(s.tableQueue, n), phases[n]);
    hide Sum, QueueWeight, CellWeights, FlagWeights, TableQueueWeight, CellWeight, React, Inv, InPhase, TableWeight;
    ReactUses(p, n, count);
    match React(n, p.state, p.queue[0])
    case Violation =>
    case Reaction(state, arms, sends) =>
      CellUpdate(s.philos, n, PhiloCell(state, p.armed || arms, p.queue[1..]));
      if sends == [] {
        assert s.tableQueue + sends == s.tableQueue;
      } else {
        assert sends == [sends[0]];
        TableQueueAppend(s.tableQueue, sends[0], count);
      }
  }

  lemma TimerStopped(p: PhiloCell, n: nat, toTable: seq<Evt>, ph: Phase)
    requires InPhase(p, n, toTable, ph) && p.queue != []
    ensures p.state == Hungry ==> !p.armed
    ensures p.queue[0] == TimeoutEvt ==> !p.armed
  {
    if p.queue[0] == TimeoutEvt { assert ForPhilo(p.queue, n)[0] == TimeoutEvt; }
  }

  lemma {:induction false} SumAllMore(a: seq<nat>, b: seq<nat>)
    requires |a| == |b| && forall i :: 0 <= i < |a| ==> b[i] == a[i] + 1
    ensures Sum(b) == Sum(a) + |a|
  {
    if a != [] { SumAllMore(a[1..], b[1..]); }
  }

  /** A published EAT weighs one for each copy, and three more for the one it calls. */
  lemma BroadcastWeighs(philos: seq<PhiloCell>, m: nat)
    requires m < |philos|
    ensures Sum(CellWeights(Broadcast(philos, m))) == Sum(CellWeights(philos)) + |philos| + 3
  {
    var a, b := CellWeights(philos), CellWeights(Broadcast(philos, m));
    forall n: nat | n < |philos| ensures b[n] == a[n] + if n == m then 4 else 1 {
      QueueAppend(philos[n].queue, EatEvt(m), n);
    }
    hide Sum, CellWeights;
    SumUpdate(b, m, a[m] + 1);
    SumAllMore(a, b[m := a[m] + 1]);
  }

  function FlagsAndCells(flags: seq<bool>, philos: seq<PhiloCell>): nat {
    Sum(FlagWeights(flags)) + Sum(CellWeights(philos))
  }

  /** Taking a waiting philosopher's flag down pays for calling him. */
  lemma CallIsPaid(t: Seating, philos: seq<PhiloCell>, m: nat)
    requires t.WellFormed() && |t.fork| == |philos| && m < |philos| && t.isHungry[m]
    ensures FlagsAndCells(Grant(t, m).isHungry, Broadcast(philos, m)) == FlagsAndCells(t.isHungry, philos)
  {
    hide Sum, CellWeights, FlagWeights, Broadcast;
    FlagUpdate(t.isHungry, m, false);
    BroadcastWeighs(philos, m);
  }

  lemma HungryWeighs(t: Seating, philos: seq<PhiloCell>, n: nat)
    requires t.WellFormed() && |t.fork| == |philos| && n < |philos|
    ensures var r := Serve(t, HungryEvt(n));
            r.Served? ==> FlagsAndCells(r.table.isHungry, BroadcastAll(philos, r.eats))
                          == FlagsAndCells(t.isHungry, philos) + |philos| + 3
  {
    if !t.isHungry[n] {
      hide Sum, CellWeights, FlagWeights, Broadcast;
      FlagUpdate(t.isHungry, n, true);
      BroadcastWeighs(philos, n);
      assert [n][1..] == [];
      assert t.isHungry[n := false] == t.isHungry;
    }
  }

  lemma DoneWeighs(t: Seating, philos: seq<PhiloCell>, n: nat)
    requires t.WellFormed() && |t.fork| == |philos| && n < |philos|
    ensures var r := Serve(t, DoneEvt(n));
            r.Served? ==> FlagsAndCells(r.table.isHungry, BroadcastAll(philos, r.eats))
                          == FlagsAndCells(t.isHungry, philos)
  {
    var count, served := |t.fork|, Serve(t, DoneEvt(n));
    if served.Served? {
      var t0, r, l := Release(t, n), Right(n, count), Left(n, count);
      var right := t0.isHungry[r] && t0.fork[r] == Free;
      var t1 := if right then Grant(t0, r) else t0;
      var first := if right then [r] else [];
      var left := t1.isHungry[l] && t1.fork[Left(l, count)] == Free;
      var second := if left then [l] else [];
      assert served == Served(if left then Grant(t1, l) else t1, first + second);
      hide Serve, FlagsAndCells, Broadcast, Grant, Left, Right, BroadcastAll;
      if right { CallIsPaid(t0, philos, r); BroadcastOne(philos, r); } else { BroadcastNone(philos); }
      var philos1 := BroadcastAll(philos, first);
      if left { CallIsPaid(t1, philos1, l); BroadcastOne(philos1, l); } else { BroadcastNone(philos1); }
      BroadcastTwice(philos, first, second);
    }
  }

  lemma BroadcastOne(philos: seq<PhiloCell>, m: nat)
    ensures BroadcastAll(philos, [m]) == Broadcast(philos, m)
  {
    assert [m][1..] == [];
  }

  lemma BroadcastNone(philos: seq<PhiloCell>)
    ensures BroadcastAll(philos, []) == philos
  {
  }

  lemma TableUses(s: Sys, phases: seq<Phase>)
    requires Inv(s, phases) && Enabled(s, TableMove)
    ensures match Next(s, TableMove) case None => true case Some(s') => Weight(s') < Weight(s)
  {
    var e := s.tableQueue[0];
    assert TableQueueWeight(s.tableQueue, |s.philos|)
        == TableWeight(e, |s.philos|) + TableQueueWeight(s.tableQueue[1..], |s.philos|);
    hide Sum, CellWeights, FlagWeights, TableQueueWeight, BroadcastAll, Serve, InPhase, NoMissedWakeUp;
    if e.HungryEvt? { HungryWeighs(s.table, s.philos, e.philo); } else { DoneWeighs(s.table, s.philos, e.philo); }
  }

  /** Every move but the end of a thinking time uses up weight. */
  lemma MoveUses(s: Sys, phases: seq<Phase>, m: Move)
    requires Inv(s, phases) && Enabled(s, m) && !StartsHunger(s, m)
    ensures match Next(s, m) case None => false case Some(s') => Weight(s') < Weight(s)
  {
    var phases' := MoveKeeps(s, phases, m);
    hide Weight, Next;
    match m
    case Expire(n) =>
      TimerRuns(s.philos[n], n, FromPhilo(s.tableQueue, n), phases[n]);
      ExpireUses(s, n);
    case PhiloMove(n) => PhiloUses(s, phases, n);
    case TableMove => TableUses(s, phases);
  }

  lemma TimerRuns(p: PhiloCell, n: nat, toTable: seq<Evt>, ph: Phase)
    requires InPhase(p, n, toTable, ph) && p.armed
    ensures p.state == Thinking || p.state == Eating
  {
  }

  // ---------------------------------------------------------------- quiet runs

  /** Moves that are all enabled in turn, none of them the end of a thinking time. */
  predicate QuietRun(s: Sys, moves: seq<Move>)
    requires s.table.WellFormed()
    decreases |moves|
  {
    moves == [] ||
    (Enabled(s, moves[0]) && !StartsHunger(s, moves[0]) &&
     match Next(s, moves[0])
     case None => false
     case Some(s') => QuietRun(s', moves[1..]))
  }

  /** Nothing can happen any more but the end of a thinking time. */
  ghost predicate AtRest(s: Sys) {
    forall m: Move :: Enabled(s, m) ==> StartsHunger(s, m)
  }

  /** Nobody holds a fork or wants one, and no event is on its way. */
  ghost predicate AllThinking(s: Sys) {
    s.tableQueue == [] &&
    (forall n :: 0 <= n < |s.philos| ==> s.philos[n] == PhiloCell(Thinking, true, [])) &&
    (forall k :: 0 <= k < |s.table.fork| ==> s.table.fork[k] == Free) &&
    (forall k :: 0 <= k < |s.table.isHungry| ==> !s.table.isHungry[k])
  }

  /** From any reachable state, a quiet run is no longer than the weight. */
  lemma {:induction false} QuietRunIsFinite(s: Sys, phases: seq<Phase>, moves: seq<Move>)
    requires Inv(s, phases) && QuietRun(s, moves)
    ensures |moves| <= Weight(s)
    decreases |moves|
  {
    if moves != [] {
      MoveUses(s, phases, moves[0]);
      var phases' := MoveKeeps(s, phases, moves[0]);
      QuietRunIsFinite(Next(s, moves[0]).value, phases', moves[1..]);
    }
  }

  /** A system at rest has everybody thinking and all forks free: nobody is left
      waiting. */
  lemma RestIsThinking(s: Sys, phases: seq<Phase>)
    requires Inv(s, phases) && AtRest(s)
    ensures AllThinking(s)
  {
    assert !Enabled(s, TableMove);
    var g, count := GuestsOf(phases), |s.philos|;
    forall n: nat | n < count
      ensures s.philos[n] == PhiloCell(Thinking, true, []) || phases[n] == Waiting
      ensures !Holds(phases[n])
    {
      assert !Enabled(s, PhiloMove(n));
      assert Enabled(s, Expire(n)) ==> StartsHunger(s, Expire(n));
    }
    assert g.eating == {};
    forall n: nat | n < count ensures phases[n] != Waiting {
      assert CanEat(g, n, count);
    }
  }

  /** While somebody waits, somebody holds forks: he eats, or EAT or DONE is on its way
      for him, so that the table is going to look again. */
  lemma SomebodyHolds(s: Sys, phases: seq<Phase>, n: nat)
    requires Inv(s, phases) && n < |s.philos| && s.table.isHungry[n]
    ensures phases[n] == Waiting
    ensures exists k: nat :: k < |phases| && Holds(phases[k]) && (k == Left(n, |phases|) || k == Right(n, |phases|))
  {
    var g, count := GuestsOf(phases), |phases|;
    assert n in g.waiting;
    assert !CanEat(g, n, count);
    var k := if Left(n, count) in g.eating then Left(n, count) else Right(n, count);
    assert k in g.eating;
  }

  /** From every state that any run leads to: moves without a new end of a thinking time
      cannot go on for ever, and when none is left to make, everybody is thinking, no
      event is on its way, and all forks are free. */
  lemma DeadlockFree(count: nat, moves: seq<Move>, quiet: seq<Move>)
    requires count >= 2
    ensures match Run(Init(count), moves)
            case None => false
            case Some(s) =>
              (QuietRun(s, quiet) ==> |quiet| <= Weight(s)) &&
              match Run(s, quiet)
              case None => false
              case Some(s') => AtRest(s') ==> AllThinking(s')
  {
    var phases := NoAssertionFails(count, moves);
    hide Weight, Next, AllThinking, AtRest;
    var s := Run(Init(count), moves).value;
    if QuietRun(s, quiet) { QuietRunIsFinite(s, phases, quiet); }
    var phases' := RunKeeps(s, phases, quiet);
    var s' := Run(s, quiet).value;
    if AtRest(s') { RestIsThinking(s', phases'); }
  }
}
