/** Who eats and who waits: what the table's forks and flags stand for. */
module Guests {
  import opened Table

  /** `eating` hold their forks as the table sees it: from the grant until DONE is handled. */
  datatype Guests = Guests(eating: set<nat>, waiting: set<nat>)

  predicate CanEat(g: Guests, n: nat, count: nat)
    requires n < count
  {
    n !in g.eating && Left(n, count) !in g.eating && Right(n, count) !in g.eating
  }

  /** Seats `n` if he waits and no neighbour eats. */
  function Seat(g: Guests, n: nat, count: nat): (Guests, seq<nat>)
    requires n < count
  {
    if n in g.waiting && CanEat(g, n, count)
    then (Guests(g.eating + {n}, g.waiting - {n}), [n])
    else (g, [])
  }

  /** What the table is for: a guest who asks waits until no neighbour eats; a guest who
      is done leaves, and his right and then his left neighbour are seated if they can be. */
  function Host(g: Guests, e: Evt, count: nat): (Guests, seq<nat>)
    requires (e.HungryEvt? || e.DoneEvt?) && e.philo < count
  {
    match e
    case HungryEvt(n) => Seat(Guests(g.eating, g.waiting + {n}), n, count)
    case DoneEvt(n) =>
      var (g1, first) := Seat(Guests(g.eating - {n}, g.waiting), Right(n, count), count);
      var (g2, second) := Seat(g1, Left(n, count), count);
      (g2, first + second)
    case _ => (g, [])
  }

  /** No two neighbours eat, nobody who eats waits, each fork is used exactly when one
      of the two philosophers beside it eats, and each flag is set for one who waits. */
  ghost predicate Represents(t: Seating, g: Guests) {
    var count := |t.fork|;
    t.WellFormed() && count >= 2 &&
    (forall n: nat :: n in g.eating ==> n < count && Left(n, count) !in g.eating && n !in g.waiting) &&
    (forall n: nat :: n in g.waiting <==> n < count && t.isHungry[n]) &&
    (forall k: nat :: k < count ==> (t.fork[k] == Used <==> k in g.eating || Right(k, count) in g.eating))
  }

  /** No guest waits who could eat. */
  ghost predicate NoMissedWakeUp(g: Guests, count: nat) {
    forall n: nat :: n in g.waiting && n < count ==> !CanEat(g, n, count)
  }

  /** For one who does not eat, both forks are free exactly when no neighbour eats. */
  lemma BothForksFree(t: Seating, g: Guests, n: nat)
    requires Represents(t, g) && n < |t.fork| && n !in g.eating
    ensures t.fork[n] == Free && t.fork[Left(n, |t.fork|)] == Free <==> CanEat(g, n, |t.fork|)
  {
    assert Right(Left(n, |t.fork|), |t.fork|) == n;
  }

  lemma GrantSeats(t: Seating, g: Guests, n: nat)
    requires Represents(t, g) && n < |t.fork| && CanEat(g, n, |t.fork|)
    ensures Represents(Grant(t, n), Guests(g.eating + {n}, g.waiting - {n}))
  {
    var count := |t.fork|;
    var t', g' := Grant(t, n), Guests(g.eating + {n}, g.waiting - {n});
    forall x | x in g'.eating ensures x < count && Left(x, count) !in g'.eating && x !in g'.waiting {
      assert Left(x, count) == n <==> x == Right(n, count);
    }
    forall k: nat | k < count ensures t'.fork[k] == Used <==> k in g'.eating || Right(k, count) in g'.eating {
      assert Right(k, count) == n <==> k == Left(n, count);
    }
  }

  lemma ReleaseLeaves(t: Seating, g: Guests, n: nat)
    requires Represents(t, g) && n in g.eating
    ensures Represents(Release(t, n), Guests(g.eating - {n}, g.waiting))
  {
    var count := |t.fork|;
    var t', g' := Release(t, n), Guests(g.eating - {n}, g.waiting);
    forall k: nat | k < count ensures t'.fork[k] == Used <==> k in g'.eating || Right(k, count) in g'.eating {
      assert Right(k, count) == n <==> k == Left(n, count);
      if k == n { assert Left(Right(n, count), count) == n; }
    }
  }

  /** The flag and the far fork decide whether a neighbour of one who has just left can
      be seated: the near fork has been freed. */
  lemma OneForkSuffices(t: Seating, g: Guests, n: nat)
    requires Represents(t, g) && n < |t.fork| && n !in g.eating
    ensures var r, l := Right(n, |t.fork|), Left(n, |t.fork|);
            (t.isHungry[r] && t.fork[r] == Free <==> r in g.waiting && CanEat(g, r, |t.fork|)) &&
            (t.isHungry[l] && t.fork[Left(l, |t.fork|)] == Free <==> l in g.waiting && CanEat(g, l, |t.fork|))
  {
    var count := |t.fork|;
    var r, l := Right(n, count), Left(n, count);
    assert Left(r, count) == n && Right(l, count) == n && Right(Left(l, count), count) == l;
    if r in g.waiting { BothForksFree(t, g, r); }
  }

  lemma SeatIsGrant(t: Seating, g: Guests, n: nat)
    requires Represents(t, g) && n < |t.fork|
    ensures var (g', eats) := Seat(g, n, |t.fork|);
            Represents(if eats == [] then t else Grant(t, n), g')
  {
    if n in g.waiting && CanEat(g, n, |t.fork|) { GrantSeats(t, g, n); }
  }

  /** The fork array and the flags do exactly what the host of the guests does. */
  lemma ServeRefinesHost(t: Seating, g: Guests, e: Evt)
    requires Represents(t, g) && (e.HungryEvt? || e.DoneEvt?) && e.philo < |t.fork|
    requires if e.HungryEvt? then e.philo !in g.eating + g.waiting else e.philo in g.eating
    ensures match Serve(t, e)
            case AssertFailed => false
            case Served(t', eats) => eats == Host(g, e, |t.fork|).1 && Represents(t', Host(g, e, |t.fork|).0)
  {
    match e
    case HungryEvt(n) => HungryRefines(t, g, n);
    case DoneEvt(n) => DoneRefines(t, g, n);
  }

  lemma HungryRefines(t: Seating, g: Guests, n: nat)
    requires Represents(t, g) && n < |t.fork| && n !in g.eating + g.waiting
    ensures match Serve(t, HungryEvt(n))
            case AssertFailed => false
            case Served(t', eats) => eats == Host(g, HungryEvt(n), |t.fork|).1
                                     && Represents(t', Host(g, HungryEvt(n), |t.fork|).0)
  {
    var count := |t.fork|;
    BothForksFree(t, g, n);
    if CanEat(g, n, count) {
      GrantSeats(t, g, n);
      assert g.waiting - {n} == g.waiting + {n} - {n};
    }
  }

  lemma DoneRefines(t: Seating, g: Guests, n: nat)
    requires Represents(t, g) && n in g.eating
    ensures match Serve(t, DoneEvt(n))
            case AssertFailed => false
            case Served(t', eats) => eats == Host(g, DoneEvt(n), |t.fork|).1
                                     && Represents(t', Host(g, DoneEvt(n), |t.fork|).0)
  {
    var count := |t.fork|;
    EaterHasForks(t, g, n);
    var r, l := Right(n, count), Left(n, count);
    var t0, g0 := Release(t, n), Guests(g.eating - {n}, g.waiting);
    ReleaseLeaves(t, g, n);
    hide Represents, Release, Grant, Left, Right, CanEat;
    OneForkSuffices(t0, g0, n);
    SeatIsGrant(t0, g0, r);
    var (g1, first) := Seat(g0, r, count);
    var t1 := if first == [] then t0 else Grant(t0, r);
    NeighbourIsNot(n, count);
    OneForkSuffices(t1, g1, n);
    SeatIsGrant(t1, g1, l);
  }

  lemma NeighbourIsNot(n: nat, count: nat)
    requires n < count && count >= 2
    ensures Right(n, count) != n && Left(n, count) != n
  {
  }

  lemma EaterHasForks(t: Seating, g: Guests, n: nat)
    requires Represents(t, g) && n in g.eating
    ensures n < |t.fork| && !t.isHungry[n] && t.fork[n] == Used && t.fork[Left(n, |t.fork|)] == Used
  {
    assert Right(Left(n, |t.fork|), |t.fork|) == n;
  }

  /** The host never leaves a guest waiting who could eat. */
  lemma HostWakesUp(g: Guests, e: Evt, count: nat)
    requires (e.HungryEvt? || e.DoneEvt?) && e.philo < count && count >= 2
    requires NoMissedWakeUp(g, count) && g.eating !! g.waiting
    requires if e.HungryEvt? then e.philo !in g.eating + g.waiting else e.philo in g.eating
    ensures NoMissedWakeUp(Host(g, e, count).0, count)
  {
    var n, g' := e.philo, Host(g, e, count).0;
    forall x | x in g'.waiting && x < count ensures !CanEat(g', x, count) {
      if e.DoneEvt? && x != Left(n, count) && x != Right(n, count) {
        assert Left(x, count) != n && Right(x, count) != n;
        assert !CanEat(g, x, count);
      }
    }
  }
}
