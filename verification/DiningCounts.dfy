/** How many: forks in use, grants outstanding, and events waiting for the table. */
module DiningCounts {
  import opened Table
  import opened Guests
  import opened Dining
  import opened DiningTrace

  function CountTrue(f: seq<bool>): nat {
    if f == [] then 0 else CountTrue(f[..|f| - 1]) + if f[|f| - 1] then 1 else 0
  }

  lemma {:induction false} CountConcat(a: seq<bool>, b: seq<bool>)
    ensures CountTrue(a + b) == CountTrue(a) + CountTrue(b)
  {
    if b == [] {
      assert a + b == a;
    } else {
      CountConcat(a, b[..|b| - 1]);
      assert (a + b)[..|a + b| - 1] == a + b[..|b| - 1];
    }
  }

  lemma {:induction false} CountEither(u: seq<bool>, a: seq<bool>, b: seq<bool>)
    requires |u| == |a| == |b|
    requires forall k :: 0 <= k < |u| ==> u[k] == (a[k] || b[k]) && !(a[k] && b[k])
    ensures CountTrue(u) == CountTrue(a) + CountTrue(b)
  {
    if u != [] { CountEither(u[..|u| - 1], a[..|a| - 1], b[..|b| - 1]); }
  }

  lemma {:induction false} CountBelow(f: seq<bool>)
    ensures CountTrue(f) <= |f|
  {
    if f != [] { CountBelow(f[..|f| - 1]); }
  }

  function Members(s: set<nat>, count: nat): (f: seq<bool>)
    ensures |f| == count
  {
    seq(count, n requires 0 <= n < count => n in s)
  }

  lemma {:induction false} CountMembers(s: set<nat>, count: nat)
    ensures CountTrue(Members(s, count)) == |set n | n in s && n < count|
  {
    if count > 0 {
      CountMembers(s, count - 1);
      var f := Members(s, count);
      assert f[..count - 1] == Members(s, count - 1);
      var below, upTo := set n | n in s && n < count - 1, set n | n in s && n < count;
      assert upTo == if count - 1 in s then below + {count - 1} else below;
    } else {
      assert (set n | n in s && n < 0) == {};
    }
  }

  function UsedForks(t: Seating): seq<bool> {
    seq(|t.fork|, k requires 0 <= k < |t.fork| => t.fork[k] == Used)
  }

  /** Fork `k` lies between `k` and his right neighbour, who do not eat together. */
  lemma ForkSides(t: Seating, g: Guests, k: nat)
    requires Represents(t, g) && k < |t.fork|
    ensures UsedForks(t)[k] == (k in g.eating || Right(k, |t.fork|) in g.eating)
    ensures !(k in g.eating && Right(k, |t.fork|) in g.eating)
  {
    assert Left(Right(k, |t.fork|), |t.fork|) == k;
  }

  /** The seats, each seen from its left neighbour's place. */
  lemma Rotated(s: set<nat>, count: nat)
    requires count > 0
    ensures var e := Members(s, count);
            var r := [e[count - 1]] + e[..count - 1];
            |r| == count && (forall k: nat :: k < count ==> r[k] == (Right(k, count) in s)) &&
            CountTrue(r) == CountTrue(e)
  {
    var e := Members(s, count);
    var last, front := [e[count - 1]], e[..count - 1];
    assert e == front + last;
    CountConcat(last, front);
    CountConcat(front, last);
  }

  /** Each eater has two forks of his own: twice as many forks are used as guests eat,
      so at most half of the philosophers eat at a time. */
  lemma TwoForksEach(t: Seating, g: Guests)
    requires Represents(t, g)
    ensures CountTrue(UsedForks(t)) == 2 * |g.eating| <= |t.fork|
  {
    var count := |t.fork|;
    assert (set n | n in g.eating && n < count) == g.eating;
    hide Represents, CountTrue, Right;
    var e := Members(g.eating, count);
    var r := [e[count - 1]] + e[..count - 1];
    Rotated(g.eating, count);
    forall k: nat | k < count ensures UsedForks(t)[k] == (e[k] || r[k]) && !(e[k] && r[k]) {
      ForkSides(t, g, k);
    }
    CountEither(UsedForks(t), e, r);
    CountMembers(g.eating, count);
    CountBelow(UsedForks(t));
  }

  // ------------------------------------------------------------ grants in a run

  function Grants(t: seq<Act>): nat {
    if t == [] then 0 else (if t[0].Granted? then 1 else 0) + Grants(t[1..])
  }

  function Finished(t: seq<Act>): nat {
    if t == [] then 0 else (if t[0].Finishes? then 1 else 0) + Finished(t[1..])
  }

  lemma {:induction false} CountsConcat(a: seq<Act>, b: seq<Act>)
    ensures Grants(a + b) == Grants(a) + Grants(b) && Finished(a + b) == Finished(a) + Finished(b)
  {
    if a == [] { assert a + b == b; } else { CountsConcat(a[1..], b); assert (a + b)[1..] == a[1..] + b; }
  }

  lemma {:induction false} CountGrantsOf(eats: seq<nat>)
    ensures Grants(GrantsOf(eats)) == |eats| && Finished(GrantsOf(eats)) == 0
  {
    if eats != [] {
      CountGrantsOf(eats[1..]);
      assert GrantsOf(eats)[1..] == GrantsOf(eats[1..]);
    }
  }

  /** Who is seated was not eating before; who finishes was. */
  lemma HostCounts(g: Guests, e: Evt, count: nat)
    requires (e.HungryEvt? || e.DoneEvt?) && e.philo < count
    requires e.DoneEvt? ==> e.philo in g.eating
    ensures var (g', eats) := Host(g, e, count);
            |g'.eating| + (if e.DoneEvt? then 1 else 0) == |g.eating| + |eats|
  {
  }

  lemma TableCounts(s: Sys, phases: seq<Phase>) returns (phases': seq<Phase>)
    requires Inv(s, phases) && Enabled(s, TableMove)
    ensures match Next(s, TableMove) case None => false case Some(s') => Inv(s', phases')
    ensures |GuestsOf(phases').eating| + Finished(Shown(s, TableMove))
         == |GuestsOf(phases).eating| + Grants(Shown(s, TableMove))
  {
    hide *;
    HeadExists(s);
    var e := s.tableQueue[0];
    InvGives(s, phases);
    HeadTaken(s, phases);
    phases' := TableKeeps(s, phases);
    ShownIs(s, TableMove);
    HostCounts(GuestsOf(phases), e, |phases|);
    var eats := Host(GuestsOf(phases), e, |phases|).1;
    CountGrantsOf(eats);
    CountsConcat([ActOf(e)], GrantsOf(eats));
    CountAct(e);
  }

  lemma CountAct(e: Evt)
    requires e.HungryEvt? || e.DoneEvt?
    ensures Grants([ActOf(e)]) == 0 && Finished([ActOf(e)]) == if e.DoneEvt? then 1 else 0
  {
  }

  lemma MoveCounts(s: Sys, phases: seq<Phase>, m: Move) returns (phases': seq<Phase>)
    requires Inv(s, phases) && Enabled(s, m)
    ensures match Next(s, m) case None => false case Some(s') => Inv(s', phases')
    ensures |GuestsOf(phases').eating| + Finished(Shown(s, m)) == |GuestsOf(phases).eating| + Grants(Shown(s, m))
  {
    hide *;
    InvGives(s, phases);
    ShownIs(s, m);
    CountNothing();
    match m
    case Expire(k) => phases' := ExpireKeeps(s, phases, k);
    case PhiloMove(k) => phases' := PhiloKeeps(s, phases, k);
    case TableMove => phases' := TableCounts(s, phases);
  }

  lemma CountNothing()
    ensures Grants([]) == 0 && Finished([]) == 0
  {
  }

  lemma {:induction false} RunCounts(s: Sys, phases: seq<Phase>, moves: seq<Move>) returns (phases': seq<Phase>)
    requires Inv(s, phases)
    ensures match Run(s, moves) case None => false case Some(s') => Inv(s', phases')
    ensures |GuestsOf(phases').eating| + Finished(Trace(s, moves))
         == |GuestsOf(phases).eating| + Grants(Trace(s, moves))
    decreases |moves|
  {
    InvGives(s, phases);
    if moves == [] {
      phases' := phases;
    } else if !Enabled(s, moves[0]) {
      hide *;
      TraceSkips(s, moves);
      phases' := RunCounts(s, phases, moves[1..]);
    } else {
      hide *;
      var phases1 := MoveCounts(s, phases, moves[0]);
      var s1 := Next(s, moves[0]).value;
      TraceStep(s, moves);
      phases' := RunCounts(s1, phases1, moves[1..]);
      CountsConcat(Shown(s, moves[0]), Trace(s1, moves[1..]));
    }
  }

  /** In every run the forks in use are twice the grants not yet given back, and those
      are never more than half of the philosophers. */
  lemma ForksAreConserved(count: nat, moves: seq<Move>)
    requires count >= 2
    ensures match Run(Init(count), moves)
            case None => false
            case Some(s) =>
              var t := Trace(Init(count), moves);
              Finished(t) <= Grants(t) && CountTrue(UsedForks(s.table)) == 2 * (Grants(t) - Finished(t)) <= count
  {
    var s0, phases := Init(count), seq(count, _ => Resting(true, false));
    InvInit(count);
    assert GuestsOf(phases).eating == {};
    hide GuestsOf, Trace, Run, Grants, Finished;
    var phases' := RunCounts(s0, phases, moves);
    var s := Run(s0, moves).value;
    TwoForksEach(s.table, GuestsOf(phases'));
  }

  // -------------------------------------------------------- the table's backlog

  function TotalFrom(q: seq<Evt>, c: nat): nat {
    if c == 0 then 0 else TotalFrom(q, c - 1) + |FromPhilo(q, c - 1)|
  }

  lemma {:induction false} TotalOfCons(q: seq<Evt>, c: nat)
    requires q != [] && (q[0].HungryEvt? || q[0].DoneEvt?)
    ensures TotalFrom(q, c) == TotalFrom(q[1..], c) + if q[0].philo < c then 1 else 0
  {
    if c > 0 {
      TotalOfCons(q, c - 1);
      FromPhiloHead(q, c - 1);
    }
  }

  lemma {:induction false} TotalIsAll(q: seq<Evt>, count: nat)
    requires TableEvents(q, count)
    ensures TotalFrom(q, count) == |q|
  {
    if q == [] {
      TotalOfNone(count);
    } else {
      TotalIsAll(q[1..], count);
      TotalOfCons(q, count);
    }
  }

  lemma {:induction false} TotalOfNone(c: nat)
    ensures TotalFrom([], c) == 0
  {
    if c > 0 { TotalOfNone(c - 1); }
  }

  /** Each philosopher has at most two events waiting for the table; if two, then DONE
      before HUNGRY; and DONE only while he holds his forks. */
  lemma OwnBacklog(s: Sys, phases: seq<Phase>, n: nat)
    requires Inv(s, phases) && n < |s.philos|
    ensures var own := FromPhilo(s.tableQueue, n);
            own == [] || own == [HungryEvt(n)] ||
            (n in GuestsOf(phases).eating && (own == [DoneEvt(n)] || own == [DoneEvt(n), HungryEvt(n)]))
  {
    assert InPhase(s.philos[n], n, FromPhilo(s.tableQueue, n), phases[n]);
    hide FromPhilo;
  }

  lemma {:induction false} BacklogUpTo(s: Sys, phases: seq<Phase>, c: nat)
    requires Inv(s, phases) && c <= |s.philos|
    ensures TotalFrom(s.tableQueue, c) <= c + CountTrue(Members(GuestsOf(phases).eating, c))
  {
    hide Inv, FromPhilo, GuestsOf;
    if c > 0 {
      BacklogUpTo(s, phases, c - 1);
      OwnBacklog(s, phases, c - 1);
      var eating := GuestsOf(phases).eating;
      assert Members(eating, c)[..c - 1] == Members(eating, c - 1);
    }
  }

  /** The table never has more events waiting than there are philosophers and pairs of
      philosophers. */
  lemma BacklogBounded(count: nat, moves: seq<Move>)
    requires count >= 2
    ensures match Run(Init(count), moves) case None => false case Some(s) => |s.tableQueue| <= count + count / 2
  {
    var phases := NoAssertionFails(count, moves);
    hide Run, CountTrue, UsedForks, GuestsOf, Members;
    var s, eating := Run(Init(count), moves).value, GuestsOf(phases).eating;
    TotalIsAll(s.tableQueue, count);
    BacklogUpTo(s, phases, count);
    CountMembers(eating, count);
    TwoForksEach(s.table, GuestsOf(phases));
    EatersBelow(s.table, GuestsOf(phases));
  }

  lemma EatersBelow(t: Seating, g: Guests)
    requires Represents(t, g)
    ensures (set n | n in g.eating && n < |t.fork|) == g.eating
  {
  }
}
