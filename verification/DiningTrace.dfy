/** What an observer of the table sees over a whole run: who asks, who is granted the
    forks, who gives them back, and how many forks and messages that involves. */
module DiningTrace {
  import opened Base
  import opened Table
  import opened Guests
  import opened Dining

  datatype Act = Asks(philo: nat) | Granted(philo: nat) | Finishes(philo: nat)

  function GrantsOf(eats: seq<nat>): seq<Act> {
    if eats == [] then [] else [Granted(eats[0])] + GrantsOf(eats[1..])
  }

  /** What an enabled move shows. */
  function Shown(s: Sys, m: Move): seq<Act>
    requires s.table.WellFormed() && Enabled(s, m)
  {
    if m != TableMove then []
    else match Serve(s.table, s.tableQueue[0])
      case AssertFailed => []
      case Served(_, eats) =>
        (match s.tableQueue[0]
         case HungryEvt(n) => [Asks(n)]
         case DoneEvt(n) => [Finishes(n)]
         case _ => []) + GrantsOf(eats)
  }

  /** What a run shows from the first move on. */
  function Trace(s: Sys, moves: seq<Move>): seq<Act>
    requires s.table.WellFormed()
    decreases |moves|
  {
    if moves == [] then []
    else if !Enabled(s, moves[0]) then Trace(s, moves[1..])
    else match Next(s, moves[0])
      case None => []
      case Some(s') => Shown(s, moves[0]) + Trace(s', moves[1..])
  }

  // ------------------------------------------------------ one philosopher's cycle

  /** The part of a trace that is about philosopher `n`. */
  function About(t: seq<Act>, n: nat): seq<Act> {
    if t == [] then [] else (if t[0].philo == n then [t[0]] else []) + About(t[1..], n)
  }

  lemma {:induction false} AboutConcat(a: seq<Act>, b: seq<Act>, n: nat)
    ensures About(a + b, n) == About(a, n) + About(b, n)
  {
    if a == [] {
      assert a + b == b;
    } else {
      AboutCons(a[0], a[1..], n);
      AboutCons(a[0], a[1..] + b, n);
      hide About;
      AboutConcat(a[1..], b, n);
      assert a == [a[0]] + a[1..];
      assert a + b == [a[0]] + (a[1..] + b);
    }
  }

  lemma AboutCons(act: Act, rest: seq<Act>, n: nat)
    ensures About([act] + rest, n) == (if act.philo == n then [act] else []) + About(rest, n)
  {
    assert ([act] + rest)[1..] == rest;
  }

  /** Where a philosopher stands with the table: 0 idle, 1 waiting, 2 granted. */
  ghost function Standing(g: Guests, n: nat): nat {
    if n in g.eating then 2 else if n in g.waiting then 1 else 0
  }

  function InCycle(n: nat, i: nat): Act {
    if i % 3 == 0 then Asks(n) else if i % 3 == 1 then Granted(n) else Finishes(n)
  }

  /** `t` runs round the cycle Asks, Granted, Finishes from standing `from`. */
  ghost predicate RoundsFrom(t: seq<Act>, n: nat, from: nat) {
    forall i: nat :: i < |t| ==> t[i] == InCycle(n, from + i)
  }

  lemma RoundsJoin(a: seq<Act>, b: seq<Act>, n: nat, from: nat, mid: nat)
    requires RoundsFrom(a, n, from) && RoundsFrom(b, n, mid) && (from + |a|) % 3 == mid % 3
    ensures RoundsFrom(a + b, n, from)
  {
    forall i: nat | i < |a + b| ensures (a + b)[i] == InCycle(n, from + i) {
      if i >= |a| { SameInCycle(n, mid + (i - |a|), from + i, i - |a|, mid, from + |a|); }
    }
  }

  lemma SameInCycle(n: nat, i: nat, j: nat, k: nat, x: nat, y: nat)
    requires i == x + k && j == y + k && x % 3 == y % 3
    ensures InCycle(n, i) == InCycle(n, j)
  {
  }

  /** One seating by the host: it shows a grant for the one seated, who was waiting. */
  lemma SeatShows(g: Guests, m: nat, count: nat, n: nat)
    requires m < count && g.eating !! g.waiting
    ensures var (g', eats) := Seat(g, m, count);
            var t := About(GrantsOf(eats), n);
            g'.eating !! g'.waiting &&
            RoundsFrom(t, n, Standing(g, n)) && Standing(g', n) == (Standing(g, n) + |t|) % 3
  {
    var (g', eats) := Seat(g, m, count);
    if eats != [] {
      assert eats[1..] == [] && GrantsOf(eats) == [Granted(m)];
      assert About([Granted(m)], n) == if n == m then [Granted(m)] else [];
    }
  }

  lemma {:induction false} GrantsConcat(a: seq<nat>, b: seq<nat>)
    ensures GrantsOf(a + b) == GrantsOf(a) + GrantsOf(b)
  {
    if a == [] {
      assert a + b == b;
    } else {
      GrantsCons(a[0], a[1..]);
      GrantsCons(a[0], a[1..] + b);
      hide GrantsOf;
      GrantsConcat(a[1..], b);
      assert a == [a[0]] + a[1..];
      assert a + b == [a[0]] + (a[1..] + b);
    }
  }

  lemma GrantsCons(m: nat, rest: seq<nat>)
    ensures GrantsOf([m] + rest) == [Granted(m)] + GrantsOf(rest)
  {
    assert ([m] + rest)[1..] == rest;
  }

  lemma Mod3Chain(x: nat, a: nat, b: nat)
    ensures ((x + a) % 3 + b) % 3 == (x + a + b) % 3
    ensures (x + a) % 3 % 3 == (x + a) % 3
  {
  }

  lemma TwoSeatsShow(g: Guests, r: nat, l: nat, count: nat, n: nat)
    requires r < count && l < count && g.eating !! g.waiting
    ensures var (g1, first) := Seat(g, r, count);
            var (g2, second) := Seat(g1, l, count);
            var t := About(GrantsOf(first + second), n);
            RoundsFrom(t, n, Standing(g, n)) && Standing(g2, n) == (Standing(g, n) + |t|) % 3
  {
    hide *;
    var (g1, first) := Seat(g, r, count);
    var (g2, second) := Seat(g1, l, count);
    SeatShows(g, r, count, n);
    SeatShows(g1, l, count, n);
    GrantsConcat(first, second);
    AboutConcat(GrantsOf(first), GrantsOf(second), n);
    var t1, t2 := About(GrantsOf(first), n), About(GrantsOf(second), n);
    Mod3Chain(Standing(g, n), |t1|, |t2|);
    RoundsJoin(t1, t2, n, Standing(g, n), Standing(g1, n));
  }

  function ActOf(e: Evt): Act
    requires e.HungryEvt? || e.DoneEvt?
  {
    if e.HungryEvt? then Asks(e.philo) else Finishes(e.philo)
  }

  /** The act by itself: asking leads from idle to waiting, finishing from granted to idle. */
  lemma ActShows(g: Guests, g0: Guests, e: Evt, n: nat)
    requires (e.HungryEvt? || e.DoneEvt?) && g.eating !! g.waiting
    requires if e.HungryEvt? then e.philo !in g.eating + g.waiting else e.philo in g.eating
    requires g0 == if e.HungryEvt? then Guests(g.eating, g.waiting + {e.philo})
                   else Guests(g.eating - {e.philo}, g.waiting)
    ensures var t := About([ActOf(e)], n);
            RoundsFrom(t, n, Standing(g, n)) && Standing(g0, n) == (Standing(g, n) + |t|) % 3
    ensures g0.eating !! g0.waiting
  {
    assert About([ActOf(e)], n) == (if e.philo == n then [ActOf(e)] else []) + About([], n);
  }

  /** The host's own act and the seatings it leads to keep to the cycle. */
  lemma HostShows(g: Guests, e: Evt, count: nat, n: nat)
    requires (e.HungryEvt? || e.DoneEvt?) && e.philo < count && g.eating !! g.waiting
    requires if e.HungryEvt? then e.philo !in g.eating + g.waiting else e.philo in g.eating
    ensures var (g', eats) := Host(g, e, count);
            var t := About([ActOf(e)] + GrantsOf(eats), n);
            RoundsFrom(t, n, Standing(g, n)) && Standing(g', n) == (Standing(g, n) + |t|) % 3
  {
    hide *;
    var m := e.philo;
    var (g', eats) := Host(g, e, count);
    var g0 := if e.HungryEvt? then Guests(g.eating, g.waiting + {m}) else Guests(g.eating - {m}, g.waiting);
    HostUnfolds(g, g0, e, count);
    ActShows(g, g0, e, n);
    if e.HungryEvt? {
      SeatShows(g0, m, count, n);
    } else {
      TwoSeatsShow(g0, Right(m, count), Left(m, count), count, n);
    }
    AboutConcat([ActOf(e)], GrantsOf(eats), n);
    var t1, t2 := About([ActOf(e)], n), About(GrantsOf(eats), n);
    Mod3Chain(Standing(g, n), |t1|, |t2|);
    RoundsJoin(t1, t2, n, Standing(g, n), Standing(g0, n));
  }

  lemma HostUnfolds(g: Guests, g0: Guests, e: Evt, count: nat)
    requires (e.HungryEvt? || e.DoneEvt?) && e.philo < count
    requires g0 == if e.HungryEvt? then Guests(g.eating, g.waiting + {e.philo})
                   else Guests(g.eating - {e.philo}, g.waiting)
    ensures e.HungryEvt? ==> Host(g, e, count) == Seat(g0, e.philo, count)
    ensures e.DoneEvt? ==>
      var (g1, first) := Seat(g0, Right(e.philo, count), count);
      var (g2, second) := Seat(g1, Left(e.philo, count), count);
      Host(g, e, count) == (g2, first + second)
  {
    hide Seat, Left, Right;
  }

  // ------------------------------------------------------------------ whole runs

  lemma InvGives(s: Sys, phases: seq<Phase>)
    requires Inv(s, phases)
    ensures s.table.WellFormed() && GuestsOf(phases).eating !! GuestsOf(phases).waiting
    ensures |s.table.fork| == |s.philos| == |phases| >= 2
  {
  }

  lemma HeadExists(s: Sys)
    requires Enabled(s, TableMove)
    ensures s.tableQueue != []
  {
  }

  lemma TraceStep(s: Sys, moves: seq<Move>)
    requires s.table.WellFormed() && moves != [] && Enabled(s, moves[0]) && Next(s, moves[0]).Some?
    ensures var s' := Next(s, moves[0]).value;
            Run(s, moves) == Run(s', moves[1..]) && Trace(s, moves) == Shown(s, moves[0]) + Trace(s', moves[1..])
  {
  }

  lemma TraceSkips(s: Sys, moves: seq<Move>)
    requires s.table.WellFormed() && moves != [] && !Enabled(s, moves[0])
    ensures Run(s, moves) == Run(s, moves[1..]) && Trace(s, moves) == Trace(s, moves[1..])
  {
  }

  lemma NothingShown(s: Sys, g: Guests, n: nat)
    requires s.table.WellFormed()
    ensures Run(s, []) == Some(s) && Trace(s, []) == []
    ensures RoundsFrom(About([], n), n, Standing(g, n)) && Standing(g, n) == (Standing(g, n) + |About([], n)|) % 3
  {
  }

  lemma {:induction false} TraceRounds(s: Sys, phases: seq<Phase>, moves: seq<Move>, n: nat)
    returns (phases': seq<Phase>)
    requires Inv(s, phases)
    ensures match Run(s, moves) case None => false case Some(s') => Inv(s', phases')
    ensures var t := About(Trace(s, moves), n);
            RoundsFrom(t, n, Standing(GuestsOf(phases), n)) &&
            Standing(GuestsOf(phases'), n) == (Standing(GuestsOf(phases), n) + |t|) % 3
    decreases |moves|
  {
    hide *;
    InvGives(s, phases);
    if moves == [] {
      phases' := phases;
      NothingShown(s, GuestsOf(phases), n);
    } else if !Enabled(s, moves[0]) {
      TraceSkips(s, moves);
      phases' := TraceRounds(s, phases, moves[1..], n);
    } else {
      var phases1 := MoveShows(s, phases, moves[0], n);
      var s1 := Next(s, moves[0]).value;
      TraceStep(s, moves);
      phases' := TraceRounds(s1, phases1, moves[1..], n);
      var shown, rest := Shown(s, moves[0]), Trace(s1, moves[1..]);
      AboutConcat(shown, rest, n);
      var from, mid := Standing(GuestsOf(phases), n), Standing(GuestsOf(phases1), n);
      Mod3Chain(from, |About(shown, n)|, |About(rest, n)|);
      RoundsJoin(About(shown, n), About(rest, n), n, from, mid);
    }
  }

  lemma ShownIs(s: Sys, m: Move)
    requires s.table.WellFormed() && Enabled(s, m)
    ensures m != TableMove ==> Shown(s, m) == []
    ensures m == TableMove && Serve(s.table, s.tableQueue[0]).Served?
            && (s.tableQueue[0].HungryEvt? || s.tableQueue[0].DoneEvt?) ==>
              Shown(s, m) == [ActOf(s.tableQueue[0])] + GrantsOf(Serve(s.table, s.tableQueue[0]).eats)
  {
    hide Serve, GrantsOf;
  }

  lemma MoveShows(s: Sys, phases: seq<Phase>, m: Move, n: nat) returns (phases': seq<Phase>)
    requires Inv(s, phases) && Enabled(s, m)
    ensures match Next(s, m) case None => false case Some(s') => Inv(s', phases')
    ensures var t := About(Shown(s, m), n);
            RoundsFrom(t, n, Standing(GuestsOf(phases), n)) &&
            Standing(GuestsOf(phases'), n) == (Standing(GuestsOf(phases), n) + |t|) % 3
  {
    hide *;
    InvGives(s, phases);
    ShownIs(s, m);
    NothingShown(s, GuestsOf(phases), n);
    match m
    case Expire(k) => phases' := ExpireKeeps(s, phases, k);
    case PhiloMove(k) => phases' := PhiloKeeps(s, phases, k);
    case TableMove => phases' := TableShows(s, phases, n);
  }

  lemma TableShows(s: Sys, phases: seq<Phase>, n: nat) returns (phases': seq<Phase>)
    requires Inv(s, phases) && Enabled(s, TableMove)
    ensures match Next(s, TableMove) case None => false case Some(s') => Inv(s', phases')
    ensures var t := About(Shown(s, TableMove), n);
            RoundsFrom(t, n, Standing(GuestsOf(phases), n)) &&
            Standing(GuestsOf(phases'), n) == (Standing(GuestsOf(phases), n) + |t|) % 3
  {
    hide *;
    phases' := TableKeeps(s, phases);
    HeadShows(s, phases, n);
  }

  /** The table's move, told of the guests alone. */
  lemma HeadShows(s: Sys, phases: seq<Phase>, n: nat)
    requires Inv(s, phases) && Enabled(s, TableMove)
    ensures var g, t := GuestsOf(phases), About(Shown(s, TableMove), n);
            RoundsFrom(t, n, Standing(g, n)) &&
            Standing(Host(g, s.tableQueue[0], |phases|).0, n) == (Standing(g, n) + |t|) % 3
  {
    hide *;
    HeadExists(s);
    var e := s.tableQueue[0];
    InvGives(s, phases);
    HeadTaken(s, phases);
    var phases' := TableKeeps(s, phases);
    ShownIs(s, TableMove);
    HostShows(GuestsOf(phases), e, |phases|, n);
  }

  /** In every run, what the table sees of a philosopher is a prefix of
      Asks, Granted, Finishes, Asks, Granted, Finishes, ... */
  lemma EachGoesRound(count: nat, moves: seq<Move>, n: nat)
    requires count >= 2
    ensures RoundsFrom(About(Trace(Init(count), moves), n), n, 0)
  {
    var phases := seq(count, _ => Resting(true, false));
    InvInit(count);
    var phases' := TraceRounds(Init(count), phases, moves, n);
    assert Standing(GuestsOf(phases), n) == 0;
  }
}
