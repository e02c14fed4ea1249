/** Runs put together from steps: a philosopher asks, eats, and leaves, while the others
    stand still. */
module DiningRuns {
  import opened Base
  import opened Table
  import opened Philo
  import opened Dining
  import opened DiningTrace

  /** The moves lead from `s` to `s'`, and the table sees `t`. */
  predicate Leads(s: Sys, moves: seq<Move>, s': Sys, t: seq<Act>) {
    s.table.WellFormed() && Run(s, moves) == Some(s') && Trace(s, moves) == t
  }

  lemma {:induction false} LeadsOn(s: Sys, a: seq<Move>, s1: Sys, t1: seq<Act>, b: seq<Move>, s2: Sys, t2: seq<Act>,
                                   t: seq<Act>)
    requires Leads(s, a, s1, t1) && Leads(s1, b, s2, t2) && t == t1 + t2
    ensures Leads(s, a + b, s2, t)
    decreases |a|
  {
    hide Next, Enabled, Shown;
    if a == [] {
      assert a + b == b && t == t2;
    } else {
      assert (a + b)[0] == a[0] && (a + b)[1..] == a[1..] + b;
      if !Enabled(s, a[0]) {
        LeadsOn(s, a[1..], s1, t1, b, s2, t2, t);
      } else {
        var s', rest := Next(s, a[0]).value, Trace(Next(s, a[0]).value, a[1..]);
        LeadsOn(s', a[1..], s1, rest, b, s2, t2, rest + t2);
        assert t == Shown(s, a[0]) + (rest + t2);
      }
    }
  }

  lemma OneMove(s: Sys, m: Move, s': Sys)
    requires s.table.WellFormed() && Enabled(s, m) && Next(s, m) == Some(s')
    ensures Leads(s, [m], s', Shown(s, m))
  {
    hide Next, Enabled, Shown;
    assert [m][1..] == [] && Run(s', []) == Some(s') && Trace(s', []) == [];
    assert Shown(s, m) + [] == Shown(s, m);
  }

  lemma NoMove(s: Sys)
    requires s.table.WellFormed()
    ensures Leads(s, [], s, [])
  {
  }

  // ------------------------------------------------------ one philosopher's steps

  /** Nothing in the queue of philosopher `n` concerns him. */
  predicate Quiet(q: seq<Evt>, n: nat) {
    forall i :: 0 <= i < |q| ==> q[i].EatEvt? && q[i].philo != n
  }

  function WithCell(s: Sys, n: nat, p: PhiloCell, sends: seq<Evt>): Sys
    requires n < |s.philos|
  {
    s.(philos := s.philos[n := p], tableQueue := s.tableQueue + sends)
  }

  lemma PhiloStep(s: Sys, n: nat, state: PhiloState, arms: bool, sends: seq<Evt>)
    requires s.table.WellFormed() && n < |s.philos| && s.philos[n].queue != []
    requires React(n, s.philos[n].state, s.philos[n].queue[0]) == Reaction(state, arms, sends)
    ensures var p := s.philos[n];
            Leads(s, [PhiloMove(n)], WithCell(s, n, PhiloCell(state, p.armed || arms, p.queue[1..]), sends), [])
  {
    hide React, Leads;
    var p := s.philos[n];
    OneMove(s, PhiloMove(n), WithCell(s, n, PhiloCell(state, p.armed || arms, p.queue[1..]), sends));
  }

  /** A philosopher takes what does not concern him off his queue, up to `e`, and handles
      `e`. */
  lemma {:induction false} HandlesLast(s: Sys, n: nat, quiet: seq<Evt>, e: Evt,
                                       state: PhiloState, arms: bool, sends: seq<Evt>)
    returns (moves: seq<Move>)
    requires s.table.WellFormed() && n < |s.philos| && s.philos[n].queue == quiet + [e] && Quiet(quiet, n)
    requires React(n, s.philos[n].state, e) == Reaction(state, arms, sends)
    ensures Leads(s, moves, WithCell(s, n, PhiloCell(state, s.philos[n].armed || arms, []), sends), [])
    decreases |quiet|
  {
    hide Leads;
    var p := s.philos[n];
    if quiet == [] {
      PhiloStep(s, n, state, arms, sends);
      assert p.queue[1..] == [];
      moves := [PhiloMove(n)];
    } else {
      assert p.queue[0] == quiet[0] && p.queue[1..] == quiet[1..] + [e];
      PhiloStep(s, n, p.state, false, []);
      var s1 := WithCell(s, n, PhiloCell(p.state, p.armed, p.queue[1..]), []);
      assert s1.tableQueue == s.tableQueue;
      var rest := HandlesLast(s1, n, quiet[1..], e, state, arms, sends);
      var s2 := WithCell(s, n, PhiloCell(state, p.armed || arms, []), sends);
      assert WithCell(s1, n, PhiloCell(state, p.armed || arms, []), sends) == s2;
      moves := [PhiloMove(n)] + rest;
      LeadsOn(s, [PhiloMove(n)], s1, [], rest, s2, [], []);
    }
  }

  /** A philosopher's time runs out, and he asks, or is done. */
  lemma TimeUp(s: Sys, n: nat) returns (moves: seq<Move>)
    requires s.table.WellFormed() && n < |s.philos| && Quiet(s.philos[n].queue, n)
    requires s.philos[n].armed && s.philos[n].state != Hungry
    ensures var asks := s.philos[n].state == Thinking;
            Leads(s, moves, WithCell(s, n, PhiloCell(if asks then Hungry else Thinking, !asks, []),
                                     [if asks then HungryEvt(n) else DoneEvt(n)]), [])
  {
    hide Leads;
    var p := s.philos[n];
    var s1 := s.(philos := s.philos[n := p.(armed := false, queue := p.queue + [TimeoutEvt])]);
    OneMove(s, Expire(n), s1);
    var asks := p.state == Thinking;
    var e := if asks then HungryEvt(n) else DoneEvt(n);
    var rest := HandlesLast(s1, n, p.queue, TimeoutEvt, if asks then Hungry else Thinking, !asks, [e]);
    var s2 := WithCell(s, n, PhiloCell(if asks then Hungry else Thinking, !asks, []), [e]);
    assert WithCell(s1, n, PhiloCell(if asks then Hungry else Thinking, !asks, []), [e]) == s2;
    moves := [Expire(n)] + rest;
    LeadsOn(s, [Expire(n)], s1, [], rest, s2, [], []);
  }

  /** The table handles the one event in its queue. */
  lemma TableTurn(s: Sys, e: Evt, t: Seating, eats: seq<nat>, shown: seq<Act>)
    requires s.table.WellFormed() && s.tableQueue == [e] && (e.HungryEvt? || e.DoneEvt?)
    requires Serve(s.table, e) == Served(t, eats) && shown == [ActOf(e)] + GrantsOf(eats)
    ensures Leads(s, [TableMove], Sys(t, [], BroadcastAll(s.philos, eats)), shown)
  {
    hide Leads, Serve;
    assert s.tableQueue[1..] == [];
    OneMove(s, TableMove, Sys(t, [], BroadcastAll(s.philos, eats)));
  }

  // ---------------------------------------------------------- while all stand still

  /** Nothing is under way: the table's queue is empty, and each philosopher is in the
      state that `states` says, with nothing in his queue that concerns him. */
  predicate Still(s: Sys, states: seq<PhiloState>) {
    s.table.WellFormed() && |s.philos| == |s.table.fork| == |states| && s.tableQueue == [] &&
    forall k :: 0 <= k < |states| ==>
      s.philos[k].state == states[k] && (s.philos[k].armed <==> states[k] != Hungry) && Quiet(s.philos[k].queue, k)
  }

  /** A philosopher asks and finds both forks free: he eats. */
  lemma AsksAndEats(s: Sys, states: seq<PhiloState>, n: nat) returns (moves: seq<Move>, s': Sys)
    requires Still(s, states) && n < |states| && states[n] == Thinking && !s.table.isHungry[n]
    requires s.table.fork[n] == Free && s.table.fork[Left(n, |s.table.fork|)] == Free
    ensures Leads(s, moves, s', [Asks(n), Granted(n)]) && Still(s', states[n := Eating])
    ensures s'.table == Grant(s.table, n)
    ensures forall k :: 0 <= k < |states| && k != n ==> s'.philos[k].queue == s.philos[k].queue + [EatEvt(n)]
  {
    hide Leads, Left, Grant;
    var ask := TimeUp(s, n);
    var s1 := WithCell(s, n, PhiloCell(Hungry, false, []), [HungryEvt(n)]);
    assert s1.tableQueue == [HungryEvt(n)];
    var t := Grant(s.table, n);
    assert [n][1..] == [] && GrantsOf([n]) == [Granted(n)];
    TableTurn(s1, HungryEvt(n), t, [n], [Asks(n), Granted(n)]);
    var s2 := Sys(t, [], Broadcast(s1.philos, n));
    assert s2.philos[n].queue == [] + [EatEvt(n)];
    var eat := HandlesLast(s2, n, [], EatEvt(n), Eating, true, []);
    s' := WithCell(s2, n, PhiloCell(Eating, true, []), []);
    LeadsOn(s, ask, s1, [], [TableMove], s2, [Asks(n), Granted(n)], [Asks(n), Granted(n)]);
    LeadsOn(s, ask + [TableMove], s2, [Asks(n), Granted(n)], eat, s', [], [Asks(n), Granted(n)]);
    moves := ask + [TableMove] + eat;
  }

  /** A philosopher asks, and a fork is taken: he waits. */
  lemma AsksAndWaits(s: Sys, states: seq<PhiloState>, n: nat) returns (moves: seq<Move>, s': Sys)
    requires Still(s, states) && n < |states| && states[n] == Thinking && !s.table.isHungry[n]
    requires !(s.table.fork[n] == Free && s.table.fork[Left(n, |s.table.fork|)] == Free)
    ensures Leads(s, moves, s', [Asks(n)]) && Still(s', states[n := Hungry])
    ensures s'.table == s.table.(isHungry := s.table.isHungry[n := true])
  {
    hide Leads, Left;
    var ask := TimeUp(s, n);
    var s1 := WithCell(s, n, PhiloCell(Hungry, false, []), [HungryEvt(n)]);
    assert s1.tableQueue == [HungryEvt(n)];
    s' := Sys(s.table.(isHungry := s.table.isHungry[n := true]), [], s1.philos);
    TableTurn(s1, HungryEvt(n), s'.table, [], [Asks(n)]);
    LeadsOn(s, ask, s1, [], [TableMove], s', [Asks(n)], [Asks(n)]);
    moves := ask + [TableMove];
  }

  /** A philosopher is done, and neither neighbour can take his place. */
  lemma Leaves(s: Sys, states: seq<PhiloState>, n: nat) returns (moves: seq<Move>, s': Sys)
    requires Still(s, states) && n < |states| && states[n] == Eating && !s.table.isHungry[n]
    requires s.table.fork[n] == Used && s.table.fork[Left(n, |s.table.fork|)] == Used
    requires var t, count := Release(s.table, n), |s.table.fork|;
             var r, l := Right(n, count), Left(n, count);
             !(t.isHungry[r] && t.fork[r] == Free) && !(t.isHungry[l] && t.fork[Left(l, count)] == Free)
    ensures Leads(s, moves, s', [Finishes(n)]) && Still(s', states[n := Thinking])
    ensures s'.table == Release(s.table, n)
    ensures forall k :: 0 <= k < |states| && k != n ==> s'.philos[k].queue == s.philos[k].queue
  {
    hide Leads, Left, Right;
    var done := TimeUp(s, n);
    var s1 := WithCell(s, n, PhiloCell(Thinking, true, []), [DoneEvt(n)]);
    assert s1.tableQueue == [DoneEvt(n)];
    s' := Sys(Release(s.table, n), [], s1.philos);
    TableTurn(s1, DoneEvt(n), s'.table, [], [Finishes(n)]);
    LeadsOn(s, done, s1, [], [TableMove], s', [Finishes(n)], [Finishes(n)]);
    moves := done + [TableMove];
  }

  lemma InitIsStill(count: nat)
    requires count >= 1
    ensures Still(Init(count), seq(count, _ => Thinking))
  {
  }
}
