/** How often a philosopher who waits can be passed over: at most once with up to three
    philosophers, and without bound with more. */
module DiningFairness {
  import opened Base
  import opened Table
  import opened Philo
  import opened Guests
  import opened Dining
  import opened DiningTrace
  import opened DiningCounts
  import opened DiningRuns

  /** In no run are more than `b` grants given to others between a philosopher's asking
      and his own grant, or while he still waits. */
  ghost predicate PassedOverAtMost(count: nat, b: nat)
    requires count >= 1
  {
    forall moves: seq<Move>, n: nat, i: nat, j: nat ::
      i < j <= |Trace(Init(count), moves)| && Waits(Trace(Init(count), moves), n, i, j) ==>
        Grants(Trace(Init(count), moves)[i..j]) <= b
  }

  /** Philosopher `n` asks at `i`, and has not been granted the forks before `j`. */
  predicate Waits(t: seq<Act>, n: nat, i: nat, j: nat)
    requires i < j <= |t|
  {
    t[i] == Asks(n) && Granted(n) !in t[i..j]
  }

  // --------------------------------------------------------- up to three philosophers

  /** Nobody eats beside another, or while he waits. */
  ghost predicate Orderly(g: Guests, count: nat) {
    (forall x: nat :: x in g.eating ==> x < count && Left(x, count) !in g.eating && x !in g.waiting) &&
    (forall x: nat :: x in g.waiting ==> x < count) &&
    NoMissedWakeUp(g, count)
  }

  /** How many others can come before `n`, who waits: none once his left neighbour eats,
      who looks to his right first when he is done. */
  ghost function Ahead(g: Guests, n: nat, count: nat): nat
    requires n < count
  {
    if Left(n, count) in g.eating then 0 else 1
  }

  lemma OneEats(g: Guests, count: nat, n: nat)
    requires 2 <= count <= 3 && Orderly(g, count) && n in g.waiting
    ensures n < count && n !in g.eating
    ensures g.eating == {Left(n, count)} || g.eating == {Right(n, count)}
  {
    hide Left, Right;
    var l, r := Left(n, count), Right(n, count);
    assert !CanEat(g, n, count);
    forall x | x in g.eating ensures x == l || x == r { Neighbours(n, count, x); }
    Neighbours(n, count, n);
    if l in g.eating { assert g.eating == {l}; } else { assert g.eating == {r}; }
  }

  /** Another one asks while `n` waits: he eats beside the one who eats. */
  lemma AskPassesNobody(g: Guests, x: nat, count: nat, n: nat)
    requires 2 <= count <= 3 && Orderly(g, count) && n in g.waiting && x < count && x !in g.eating + g.waiting
    ensures Host(g, HungryEvt(x), count) == (Guests(g.eating, g.waiting + {x}), [])
  {
    hide Left, Right;
    OneEats(g, count, n);
    Neighbours(n, count, x);
    assert !CanEat(Guests(g.eating, g.waiting + {x}), x, count);
  }

  lemma Neighbours(n: nat, count: nat, x: nat)
    requires n < count && 2 <= count <= 3 && x < count
    ensures var l, r := Left(n, count), Right(n, count);
            l < count && r < count && l != n && r != n && Right(l, count) == n && Left(r, count) == n &&
            (count == 2 ==> l == r) && (count == 3 ==> l != r && Left(l, count) == r && Right(r, count) == l) &&
            (x == n || x == l || x == r)
  {
    hide *;
  }

  /** His left neighbour is done: `n` is seated. */
  lemma LeftIsDone(g: Guests, count: nat, n: nat)
    requires 2 <= count <= 3 && Orderly(g, count) && n in g.waiting && g.eating == {Left(n, count)}
    ensures Host(g, DoneEvt(Left(n, count)), count).1 == [n]
  {
    hide Left, Right;
    OneEats(g, count, n);
    Neighbours(n, count, n);
    var l, r := Left(n, count), Right(n, count);
    var g0 := Guests(g.eating - {l}, g.waiting);
    assert g0.eating == {};
    var g1 := Guests({n}, g.waiting - {n});
    assert g0.eating + {n} == {n};
    assert Seat(g0, n, count) == (g1, [n]);
    assert Seat(g1, Left(l, count), count) == (g1, []);
  }

  /** His right neighbour is done: `n` is seated, unless his left neighbour waits too. */
  lemma RightIsDone(g: Guests, count: nat, n: nat)
    requires count == 3 && Orderly(g, count) && n in g.waiting && g.eating == {Right(n, count)}
    ensures var l := Left(n, count);
            var (g', eats) := Host(g, DoneEvt(Right(n, count)), count);
            eats == [n] || (eats == [l] && l != n && n in g'.waiting && l in g'.eating)
  {
    hide Left, Right;
    OneEats(g, count, n);
    Neighbours(n, count, n);
    var l, r := Left(n, count), Right(n, count);
    var g0 := Guests(g.eating - {r}, g.waiting);
    assert g0.eating == {};
    if l in g.waiting {
      var g1 := Guests({l}, g.waiting - {l});
      assert g0.eating + {l} == {l};
      assert Seat(g0, l, count) == (g1, [l]);
      assert Seat(g1, n, count) == (g1, []);
    } else {
      assert Seat(g0, l, count) == (g0, []);
    }
  }

  /** One event while `n` waits. */
  lemma HostPassesOver(g: Guests, e: Evt, count: nat, n: nat)
    requires 2 <= count <= 3 && Orderly(g, count) && n in g.waiting
    requires (e.HungryEvt? || e.DoneEvt?) && e.philo < count
    requires if e.HungryEvt? then e.philo !in g.eating + g.waiting else e.philo in g.eating
    ensures var (g', eats) := Host(g, e, count);
            eats == [n] || (n !in eats && n in g'.waiting && |eats| + Ahead(g', n, count) <= Ahead(g, n, count))
  {
    hide Host, Orderly, Left, Right;
    OneEats(g, count, n);
    Neighbours(n, count, n);
    if e.HungryEvt? {
      AskPassesNobody(g, e.philo, count, n);
    } else if g.eating == {Left(n, count)} {
      LeftIsDone(g, count, n);
    } else {
      RightIsDone(g, count, n);
    }
  }

  /** The event with which `n` asks. */
  lemma HostOnAsking(g: Guests, count: nat, n: nat)
    requires 2 <= count <= 3 && Orderly(g, count) && n < count && n !in g.eating + g.waiting
    ensures var (g', eats) := Host(g, HungryEvt(n), count);
            eats == [n] || (eats == [] && n in g'.waiting && Ahead(g', n, count) <= count - 2)
  {
    if count == 2 { assert Left(n, count) == Right(n, count); }
  }

  lemma InvIsOrderly(s: Sys, phases: seq<Phase>)
    requires Inv(s, phases)
    ensures Orderly(GuestsOf(phases), |phases|)
  {
  }

  /** The table's move, told of the guests. */
  lemma TableShown(s: Sys, phases: seq<Phase>) returns (phases': seq<Phase>, e: Evt)
    requires Inv(s, phases) && Enabled(s, TableMove)
    ensures match Next(s, TableMove) case None => false case Some(s') => Inv(s', phases')
    ensures |phases'| == |phases| && (e.HungryEvt? || e.DoneEvt?) && e.philo < |phases|
    ensures var g := GuestsOf(phases);
            (if e.HungryEvt? then e.philo !in g.eating + g.waiting else e.philo in g.eating) &&
            GuestsOf(phases') == Host(g, e, |phases|).0 &&
            Shown(s, TableMove) == [ActOf(e)] + GrantsOf(Host(g, e, |phases|).1)
  {
    hide *;
    HeadExists(s);
    e := s.tableQueue[0];
    InvGives(s, phases);
    HeadTaken(s, phases);
    phases' := TableKeeps(s, phases);
    ShownIs(s, TableMove);
    InvGives(Next(s, TableMove).value, phases');
  }

  /** An act that leads to `n` being seated, and nobody else. */
  predicate IsSeating(shown: seq<Act>, n: nat) {
    |shown| == 2 && !shown[0].Granted? && shown[1] == Granted(n)
  }

  /** A move while `n` waits. */
  lemma MovePassesOver(s: Sys, phases: seq<Phase>, m: Move, n: nat) returns (phases': seq<Phase>)
    requires Inv(s, phases) && 2 <= |phases| <= 3 && Enabled(s, m) && n in GuestsOf(phases).waiting
    ensures match Next(s, m) case None => false case Some(s') => Inv(s', phases')
    ensures |phases'| == |phases| && n < |phases|
    ensures var shown, g' := Shown(s, m), GuestsOf(phases');
            IsSeating(shown, n) ||
            (n in g'.waiting &&
             Grants(shown) + Ahead(g', n, |phases|) <= Ahead(GuestsOf(phases), n, |phases|))
  {
    hide *;
    InvGives(s, phases);
    InvIsOrderly(s, phases);
    OneEats(GuestsOf(phases), |phases|, n);
    ShownIs(s, m);
    CountNothing();
    match m
    case Expire(k) => phases' := ExpireKeeps(s, phases, k); InvGives(Next(s, m).value, phases');
    case PhiloMove(k) => phases' := PhiloKeeps(s, phases, k); InvGives(Next(s, m).value, phases');
    case TableMove =>
      var e;
      phases', e := TableShown(s, phases);
      HostPassesOver(GuestsOf(phases), e, |phases|, n);
      ShownGrants(e, Host(GuestsOf(phases), e, |phases|).1);
  }

  lemma ShownGrants(e: Evt, eats: seq<nat>)
    requires e.HungryEvt? || e.DoneEvt?
    ensures Grants([ActOf(e)] + GrantsOf(eats)) == |eats| && !ActOf(e).Granted?
    ensures |eats| == 1 ==> [ActOf(e)] + GrantsOf(eats) == [ActOf(e), Granted(eats[0])]
    ensures |eats| == 1 ==> IsSeating([ActOf(e)] + GrantsOf(eats), eats[0])
    ensures eats == [] ==> [ActOf(e)] + GrantsOf(eats) == [ActOf(e)]
  {
    CountGrantsOf(eats);
    CountsConcat([ActOf(e)], GrantsOf(eats));
    CountAct(e);
    if |eats| == 1 { assert eats[1..] == []; }
  }

  /** The move that shows `n` asking. */
  lemma MoveWithAsk(s: Sys, phases: seq<Phase>, m: Move, n: nat, i: nat) returns (phases': seq<Phase>)
    requires Inv(s, phases) && 2 <= |phases| <= 3 && Enabled(s, m)
    requires i < |Shown(s, m)| && Shown(s, m)[i] == Asks(n)
    ensures match Next(s, m) case None => false case Some(s') => Inv(s', phases')
    ensures i == 0 && |phases'| == |phases| && n < |phases|
    ensures Shown(s, m) == [Asks(n), Granted(n)] ||
            (Shown(s, m) == [Asks(n)] && n in GuestsOf(phases').waiting &&
             Ahead(GuestsOf(phases'), n, |phases|) <= |phases| - 2)
  {
    hide *;
    InvGives(s, phases);
    InvIsOrderly(s, phases);
    ShownIs(s, m);
    var e;
    phases', e := TableShown(s, phases);
    var eats := Host(GuestsOf(phases), e, |phases|).1;
    AskComesFirst(e, eats, n, i);
    HostOnAsking(GuestsOf(phases), |phases|, n);
    ShownGrants(e, eats);
  }

  lemma AskComesFirst(e: Evt, eats: seq<nat>, n: nat, i: nat)
    requires (e.HungryEvt? || e.DoneEvt?) && i < |[ActOf(e)] + GrantsOf(eats)|
    requires ([ActOf(e)] + GrantsOf(eats))[i] == Asks(n)
    ensures i == 0 && e == HungryEvt(n) && ActOf(e) == Asks(n)
  {
    if i > 0 { AllGrants(eats, i - 1); }
  }

  lemma {:induction false} AllGrants(eats: seq<nat>, i: nat)
    requires i < |GrantsOf(eats)|
    ensures GrantsOf(eats)[i].Granted?
  {
    if i > 0 { AllGrants(eats[1..], i - 1); }
  }

  lemma GrantsOfPart(t: seq<Act>, j: nat)
    requires j <= |t|
    ensures Grants(t[..j]) <= Grants(t)
  {
    CountsConcat(t[..j], t[j..]);
    assert t[..j] + t[j..] == t;
  }

  /** From a state in which `n` waits, until he is granted the forks. */
  lemma {:induction false} WaitIsShort(s: Sys, phases: seq<Phase>, moves: seq<Move>, n: nat, j: nat)
    requires Inv(s, phases) && 2 <= |phases| <= 3 && n in GuestsOf(phases).waiting
    requires s.table.WellFormed() && j <= |Trace(s, moves)| && Granted(n) !in Trace(s, moves)[..j]
    ensures n < |phases| && Grants(Trace(s, moves)[..j]) <= Ahead(GuestsOf(phases), n, |phases|)
    decreases |moves|
  {
    hide *;
    InvIsOrderly(s, phases);
    OneEats(GuestsOf(phases), |phases|, n);
    CountNothing();
    if moves == [] {
      NothingShown(s, GuestsOf(phases), n);
    } else if !Enabled(s, moves[0]) {
      TraceSkips(s, moves);
      WaitIsShort(s, phases, moves[1..], n, j);
    } else {
      var phases1 := MovePassesOver(s, phases, moves[0], n);
      TraceStep(s, moves);
      var shown, rest := Shown(s, moves[0]), Trace(Next(s, moves[0]).value, moves[1..]);
      var t := Trace(s, moves);
      if IsSeating(shown, n) {
        BeforeSeating(t, shown, rest, n, 0, j);
      } else if j <= |shown| {
        assert t[..j] == shown[..j];
        GrantsOfPart(shown, j);
      } else {
        var more := j - |shown|;
        assert t[..j] == shown + rest[..more];
        InvGives(Next(s, moves[0]).value, phases1);
        WaitIsShort(Next(s, moves[0]).value, phases1, moves[1..], n, more);
        CountsConcat(shown, rest[..more]);
      }
    }
  }

  /** Before `n` is seated, the act that leads to it shows no grant. */
  lemma BeforeSeating(t: seq<Act>, shown: seq<Act>, rest: seq<Act>, n: nat, i: nat, j: nat)
    requires t == shown + rest && IsSeating(shown, n) && i <= j <= |t| && i == 0 && Granted(n) !in t[i..j]
    ensures Grants(t[i..j]) == 0
  {
    assert forall x :: i <= x < j ==> t[x] == t[i..j][x - i];
    if j == 1 { assert t[i..j] == [shown[0]]; }
  }

  lemma SameCount(s: Sys, phases: seq<Phase>, m: Move, phases': seq<Phase>)
    requires Inv(s, phases) && Enabled(s, m) && Next(s, m).Some? && Inv(Next(s, m).value, phases')
    ensures |phases'| == |phases| && Next(s, m).value.table.WellFormed()
  {
  }

  lemma WaitsIf(t: seq<Act>, n: nat, i: nat, j: nat)
    requires i < j <= |t| && t[i] == Asks(n) && Granted(n) !in t[i..j]
    ensures Waits(t, n, i, j)
  {
  }

  /** The first move shows `n` asking. */
  lemma AskedNow(s: Sys, phases: seq<Phase>, moves: seq<Move>, n: nat, i: nat, j: nat)
    requires Inv(s, phases) && 2 <= |phases| <= 3 && s.table.WellFormed() && moves != [] && Enabled(s, moves[0])
    requires i < j <= |Trace(s, moves)| && Waits(Trace(s, moves), n, i, j)
    requires i < |Shown(s, moves[0])| && Shown(s, moves[0])[i] == Asks(n)
    ensures Grants(Trace(s, moves)[i..j]) <= |phases| - 2
  {
    hide *;
    WaitsGives(Trace(s, moves), n, i, j);
    var phases1 := MoveWithAsk(s, phases, moves[0], n, i);
    TraceStep(s, moves);
    var s1, shown, rest := Next(s, moves[0]).value, Shown(s, moves[0]), Trace(Next(s, moves[0]).value, moves[1..]);
    var t := Trace(s, moves);
    SeatsAtOnce(n);
    if shown == [Asks(n), Granted(n)] {
      BeforeSeating(t, shown, rest, n, i, j);
    } else {
      assert t[0..j] == [Asks(n)] + rest[..j - 1];
      assert forall x :: x in rest[..j - 1] ==> x in t[0..j];
      SameCount(s, phases, moves[0], phases1);
      WaitIsShort(s1, phases1, moves[1..], n, j - 1);
      CountsConcat([Asks(n)], rest[..j - 1]);
      CountAct(HungryEvt(n));
    }
  }

  lemma SeatsAtOnce(n: nat)
    ensures IsSeating([Asks(n), Granted(n)], n) && ActOf(HungryEvt(n)) == Asks(n)
  {
  }

  lemma WaitsGives(t: seq<Act>, n: nat, i: nat, j: nat)
    requires i < j <= |t| && Waits(t, n, i, j)
    ensures t[i] == Asks(n) && Granted(n) !in t[i..j]
  {
  }

  lemma {:induction false} AskedAt(s: Sys, phases: seq<Phase>, moves: seq<Move>, n: nat, i: nat, j: nat)
    requires Inv(s, phases) && 2 <= |phases| <= 3 && s.table.WellFormed()
    requires i < j <= |Trace(s, moves)| && Waits(Trace(s, moves), n, i, j)
    ensures Grants(Trace(s, moves)[i..j]) <= |phases| - 2
    decreases |moves|
  {
    hide *;
    CountNothing();
    if moves == [] {
      NothingShown(s, GuestsOf(phases), n);
    } else if !Enabled(s, moves[0]) {
      TraceSkips(s, moves);
      AskedAt(s, phases, moves[1..], n, i, j);
    } else {
      InvGives(s, phases);
      var phases1 := MoveKeeps(s, phases, moves[0]);
      SameCount(s, phases, moves[0], phases1);
      TraceStep(s, moves);
      var s1, shown, rest := Next(s, moves[0]).value, Shown(s, moves[0]), Trace(Next(s, moves[0]).value, moves[1..]);
      var t := Trace(s, moves);
      WaitsGives(t, n, i, j);
      if i < |shown| {
        assert shown[i] == t[i];
        AskedNow(s, phases, moves, n, i, j);
      } else {
        assert t[i..j] == rest[i - |shown|..j - |shown|];
        WaitsIf(rest, n, i - |shown|, j - |shown|);
        AskedAt(s1, phases1, moves[1..], n, i - |shown|, j - |shown|);
      }
    }
  }

  /** With two philosophers nobody is passed over, with three at most once. */
  lemma ShortWaits(count: nat)
    requires 2 <= count <= 3
    ensures PassedOverAtMost(count, count - 2)
  {
    InvInit(count);
    var phases := seq(count, _ => Resting(true, false));
    hide Trace, Waits, Inv, Grants;
    forall moves: seq<Move>, n: nat, i: nat, j: nat
      | i < j <= |Trace(Init(count), moves)| && Waits(Trace(Init(count), moves), n, i, j)
      ensures Grants(Trace(Init(count), moves)[i..j]) <= count - 2
    {
      AskedAt(Init(count), phases, moves, n, i, j);
    }
  }

  /** With three philosophers it does happen: 0 asks while 2 eats, then 1 asks, and when 2
      is done he looks to 1 first. */
  lemma ThreePassOver() returns (moves: seq<Move>)
    ensures Run(Init(3), moves).Some?
    ensures Trace(Init(3), moves) == [Asks(2), Granted(2), Asks(0), Asks(1), Finishes(2), Granted(1)]
    ensures !PassedOverAtMost(3, 0)
  {
    InitIsStill(3);
    hide Leads;
    var s0, states := Init(3), seq(3, _ => Thinking);
    var eat, s1 := AsksAndEats(s0, states, 2);
    var wait0, s2 := AsksAndWaits(s1, states[2 := Eating], 0);
    var wait1, s3 := AsksAndWaits(s2, states[2 := Eating][0 := Hungry], 1);
    var done := TimeUp(s3, 2);
    var s4 := WithCell(s3, 2, PhiloCell(Thinking, true, []), [DoneEvt(2)]);
    assert s4.tableQueue == [DoneEvt(2)];
    var served := Serve(s4.table, DoneEvt(2));
    assert served.Served? && served.eats == [1];
    var t3 := [Asks(2), Granted(2), Asks(0), Asks(1)];
    assert [1][1..] == [] && GrantsOf([1]) == [Granted(1)];
    TableTurn(s4, DoneEvt(2), served.table, [1], [Finishes(2), Granted(1)]);
    var s5 := Sys(served.table, [], BroadcastAll(s4.philos, [1]));
    LeadsOn(s0, eat, s1, [Asks(2), Granted(2)], wait0, s2, [Asks(0)], t3[..3]);
    LeadsOn(s0, eat + wait0, s2, t3[..3], wait1, s3, [Asks(1)], t3);
    LeadsOn(s0, eat + wait0 + wait1, s3, t3, done, s4, [], t3);
    moves := eat + wait0 + wait1 + done + [TableMove];
    LeadsOn(s0, eat + wait0 + wait1 + done, s4, t3, [TableMove], s5, [Finishes(2), Granted(1)],
            t3 + [Finishes(2), Granted(1)]);
    LedTo(s0, moves, s5, t3 + [Finishes(2), Granted(1)]);
    PassedOverOnce(moves);
  }

  lemma LedTo(s: Sys, moves: seq<Move>, s': Sys, t: seq<Act>)
    requires Leads(s, moves, s', t)
    ensures s.table.WellFormed() && Run(s, moves) == Some(s') && Trace(s, moves) == t
  {
  }

  lemma PassedOverOnce(moves: seq<Move>)
    requires Trace(Init(3), moves) == [Asks(2), Granted(2), Asks(0), Asks(1), Finishes(2), Granted(1)]
    ensures !PassedOverAtMost(3, 0)
  {
    hide Trace;
    var t := Trace(Init(3), moves);
    assert t[2..6] == [Asks(0), Asks(1), Finishes(2)] + [Granted(1)];
    CountsConcat([Asks(0), Asks(1), Finishes(2)], [Granted(1)]);
    assert Waits(t, 0, 2, 6);
  }

  // ------------------------------------------------------- four philosophers and more

  /** Both neighbours of `n` eat, and nobody else than `n` is marked as waiting. */
  predicate Squeezed(s: Sys, states: seq<PhiloState>, n: nat) {
    Still(s, states) && |states| >= 4 && n < |states| &&
    var count, t := |states|, s.table;
    var l, r := Left(n, count), Right(n, count);
    states[l] == Eating && states[r] == Eating && states[n] == Hungry &&
    t.fork[n] == Used && t.fork[l] == Used && t.fork[r] == Used && t.fork[Left(l, count)] == Used &&
    forall k :: 0 <= k < count && k != n ==> !t.isHungry[k]
  }

  lemma FourApart(n: nat, count: nat)
    requires count >= 4 && n < count
    ensures var l, r := Left(n, count), Right(n, count);
            l != n && r != n && l != r && Right(l, count) == n && Left(r, count) == n &&
            Left(l, count) != n && Left(l, count) != r && Right(r, count) != n && Right(r, count) != l
  {
    hide *;
  }

  lemma ReleaseGrant(t: Seating, n: nat)
    requires t.WellFormed() && n < |t.fork| && !t.isHungry[n]
    requires t.fork[n] == Used && t.fork[Left(n, |t.fork|)] == Used
    ensures Grant(Release(t, n), n) == t
  {
    hide Left;
    var t' := Grant(Release(t, n), n);
    assert t'.fork == t.fork && t'.isHungry == t.isHungry;
  }

  /** A neighbour `m` of `n` is done, asks again, and is granted the forks again. */
  lemma EatsAgain(s: Sys, states: seq<PhiloState>, n: nat, m: nat) returns (moves: seq<Move>, s': Sys)
    requires Squeezed(s, states, n) && (m == Left(n, |states|) || m == Right(n, |states|))
    ensures Leads(s, moves, s', [Finishes(m), Asks(m), Granted(m)]) && Squeezed(s', states, n)
  {
    hide Leads, Left, Right, Grant;
    FourApart(n, |states|);
    var leave, s1 := Leaves(s, states, m);
    ReleaseGrant(s.table, m);
    var eat, s2 := AsksAndEats(s1, states[m := Thinking], m);
    assert states[m := Thinking][m := Eating] == states;
    LeadsOn(s, leave, s1, [Finishes(m)], eat, s2, [Asks(m), Granted(m)], [Finishes(m), Asks(m), Granted(m)]);
    moves, s' := leave + eat, s2;
  }

  /** The acts `t` have `k` grants for each neighbour of `n`, and none for `n`. */
  predicate Bypasses(t: seq<Act>, n: nat, count: nat, k: nat)
    requires n < count
  {
    Granted(n) !in t && multiset(t)[Granted(Left(n, count))] >= k && multiset(t)[Granted(Right(n, count))] >= k
  }

  /** The two neighbours of `n` take turns, `k` times each. */
  lemma {:induction false} TakeTurns(s: Sys, states: seq<PhiloState>, n: nat, k: nat)
    returns (moves: seq<Move>, s': Sys, t: seq<Act>)
    requires Squeezed(s, states, n)
    ensures Leads(s, moves, s', t) && Bypasses(t, n, |states|, k) && |t| == 6 * k
    ensures Squeezed(s', states, n)
    decreases k
  {
    hide Leads, Left, Right, Squeezed;
    if k == 0 {
      SqueezedIs(s, states, n);
      NoMove(s);
      moves, s', t := [], s, [];
    } else {
      SqueezedIs(s, states, n);
      var l, r := Left(n, |states|), Right(n, |states|);
      var left, s1 := EatsAgain(s, states, n, l);
      var right, s2 := EatsAgain(s1, states, n, r);
      var rest, s3, t3 := TakeTurns(s2, states, n, k - 1);
      var t1, t2 := [Finishes(l), Asks(l), Granted(l)], [Finishes(r), Asks(r), Granted(r)];
      LeadsOn(s, left, s1, t1, right, s2, t2, t1 + t2);
      t := t1 + t2 + t3;
      LeadsOn(s, left + right, s2, t1 + t2, rest, s3, t3, t);
      assert multiset(t) == multiset(t1) + multiset(t2) + multiset(t3);
      moves, s' := left + right + rest, s3;
    }
  }

  lemma SqueezedIs(s: Sys, states: seq<PhiloState>, n: nat)
    requires Squeezed(s, states, n)
    ensures s.table.WellFormed() && |states| >= 4 && n < |states|
    ensures Left(n, |states|) != n && Right(n, |states|) != n
  {
    FourApart(n, |states|);
  }

  /** Both neighbours of `n` are granted their forks, and then `n` asks. */
  lemma Squeeze(count: nat, n: nat) returns (moves: seq<Move>, s: Sys, states: seq<PhiloState>, t: seq<Act>)
    requires count >= 4 && n < count
    ensures Leads(Init(count), moves, s, t) && Squeezed(s, states, n) && |states| == count
    ensures t != [] && t[|t| - 1] == Asks(n)
  {
    hide Leads, Left, Right;
    InitIsStill(count);
    FourApart(n, count);
    var l, r, s0 := Left(n, count), Right(n, count), Init(count);
    var states0 := seq(count, _ => Thinking);
    var left, s1 := AsksAndEats(s0, states0, l);
    var states1 := states0[l := Eating];
    var right, s2 := AsksAndEats(s1, states1, r);
    var states2 := states1[r := Eating];
    var ask, s3 := AsksAndWaits(s2, states2, n);
    states := states2[n := Hungry];
    var t1, t2 := [Asks(l), Granted(l)], [Asks(r), Granted(r)];
    LeadsOn(s0, left, s1, t1, right, s2, t2, t1 + t2);
    t := t1 + t2 + [Asks(n)];
    LeadsOn(s0, left + right, s2, t1 + t2, ask, s3, [Asks(n)], t);
    moves, s := left + right + ask, s3;
  }

  /** With four philosophers or more, any one of them can be kept waiting while each of
      his neighbours eats, is done and eats again, as often as one likes. */
  lemma LongWait(count: nat, n: nat, k: nat) returns (moves: seq<Move>, i: nat)
    requires count >= 4 && n < count
    ensures Run(Init(count), moves).Some?
    ensures var t := Trace(Init(count), moves);
            i < |t| && t[i] == Asks(n) && Bypasses(t[i..], n, count, k)
  {
    var first, s1, states, t1 := Squeeze(count, n);
    var turns, s2, t2 := TakeTurns(s1, states, n, k);
    LeadsOn(Init(count), first, s1, t1, turns, s2, t2, t1 + t2);
    moves, i := first + turns, |t1| - 1;
    assert (t1 + t2)[i..] == [Asks(n)] + t2;
    hide Left, Right;
    assert multiset([Asks(n)] + t2) == multiset([Asks(n)]) + multiset(t2);
  }

  lemma {:induction false} GrantsCounted(t: seq<Act>, m: nat)
    ensures Grants(t) >= multiset(t)[Granted(m)]
  {
    if t != [] {
      GrantsCounted(t[1..], m);
      assert t == [t[0]] + t[1..];
      assert multiset(t) == multiset([t[0]]) + multiset(t[1..]);
    }
  }

  /** There is a bound on how often one who waits is passed over exactly if there are no
      more than three philosophers. */
  lemma PassedOverIff(count: nat)
    requires count >= 2
    ensures (exists b: nat :: PassedOverAtMost(count, b)) <==> count <= 3
    ensures count <= 3 ==> PassedOverAtMost(count, count - 2)
  {
    if count <= 3 {
      ShortWaits(count);
    } else {
      forall b: nat ensures !PassedOverAtMost(count, b) {
        var moves, i := LongWait(count, 0, b + 1);
        hide Trace, Run, Left, Right;
        var t := Trace(Init(count), moves);
        assert t[i..|t|] == t[i..];
        assert Waits(t, 0, i, |t|);
        GrantsCounted(t[i..], Left(0, count));
      }
    }
  }
}
