/** How long the queues can grow: a philosopher's without bound, the table's exactly up
    to the bound that it has in every run. */
module DiningQueues {
  import opened Table
  import opened Philo
  import opened Dining
  import opened DiningTrace
  import opened DiningRuns

  // ----------------------------------------------------- a philosopher's queue

  /** Philosopher `m` goes round his cycle `k` times, and `p` gets `k` copies of EAT. */
  lemma {:induction false} RoundAndRound(s: Sys, states: seq<PhiloState>, m: nat, p: nat, k: nat)
    returns (moves: seq<Move>, s': Sys, t: seq<Act>)
    requires Still(s, states) && m < |states| && p < |states| && m != p && |states| >= 2 && states[m] == Thinking
    requires s.table.fork[m] == Free && s.table.fork[Left(m, |states|)] == Free
    requires forall n :: 0 <= n < |states| ==> !s.table.isHungry[n]
    ensures Leads(s, moves, s', t) && |s'.philos| == |states|
    ensures |s'.philos[p].queue| == |s.philos[p].queue| + k
    decreases k
  {
    hide Leads, Left, Right;
    if k == 0 {
      NoMove(s);
      moves, s', t := [], s, [];
    } else {
      var eat, s1 := AsksAndEats(s, states, m);
      assert states[m := Eating][m := Thinking] == states;
      var leave, s2 := Leaves(s1, states[m := Eating], m);
      GrantRelease(s.table, m);
      var rest, s3, t3 := RoundAndRound(s2, states, m, p, k - 1);
      LeadsOn(s, eat, s1, [Asks(m), Granted(m)], leave, s2, [Finishes(m)], [Asks(m), Granted(m), Finishes(m)]);
      t := [Asks(m), Granted(m), Finishes(m)] + t3;
      LeadsOn(s, eat + leave, s2, [Asks(m), Granted(m), Finishes(m)], rest, s3, t3, t);
      moves, s' := eat + leave + rest, s3;
    }
  }

  lemma GrantRelease(t: Seating, n: nat)
    requires t.WellFormed() && n < |t.fork| && !t.isHungry[n]
    requires t.fork[n] == Free && t.fork[Left(n, |t.fork|)] == Free
    ensures Release(Grant(t, n), n) == t
  {
    hide Left;
    var t' := Release(Grant(t, n), n);
    assert t'.fork == t.fork && t'.isHungry == t.isHungry;
  }

  /** However many philosophers there are, the queue of any one of them can grow beyond
      any bound: copies of EAT for another pile up in it. */
  lemma QueueUnbounded(count: nat, p: nat, b: nat) returns (moves: seq<Move>)
    requires count >= 2 && p < count
    ensures match Run(Init(count), moves) case None => false case Some(s) => |s.philos[p].queue| > b
  {
    InitIsStill(count);
    var m, s', t := Left(p, count), Init(count), [];
    moves, s', t := RoundAndRound(Init(count), seq(count, _ => Thinking), m, p, b + 1);
  }

  // --------------------------------------------------------- the table's queue

  /** The even philosophers below `2 * h` eat, and nobody else does. */
  function EvenEat(count: nat, h: nat): seq<PhiloState> {
    seq(count, n => if n % 2 == 0 && n < 2 * h then Eating else Thinking)
  }

  predicate ForksBelow(t: Seating, h: nat) {
    (forall k :: 0 <= k < |t.fork| ==> (t.fork[k] == Used <==> k < 2 * h)) &&
    (forall k :: 0 <= k < |t.isHungry| ==> !t.isHungry[k])
  }

  /** Every other philosopher is given his forks. */
  lemma {:induction false} EvenSeated(count: nat, h: nat) returns (moves: seq<Move>, s: Sys, t: seq<Act>)
    requires count >= 2 && 2 * h <= count
    ensures Leads(Init(count), moves, s, t) && Still(s, EvenEat(count, h)) && ForksBelow(s.table, h)
  {
    hide Leads;
    if h == 0 {
      InitIsStill(count);
      NoMove(Init(count));
      moves, s, t := [], Init(count), [];
      assert EvenEat(count, 0) == seq(count, _ => Thinking);
    } else {
      var first, s1, t1 := EvenSeated(count, h - 1);
      var n := 2 * (h - 1);
      var eat, s2 := AsksAndEats(s1, EvenEat(count, h - 1), n);
      assert EvenEat(count, h - 1)[n := Eating] == EvenEat(count, h);
      t := t1 + [Asks(n), Granted(n)];
      LeadsOn(Init(count), first, s1, t1, eat, s2, [Asks(n), Granted(n)], t);
      moves, s := first + eat, s2;
    }
  }

  /** How many of the philosophers below `c` are even and below `2 * h`. */
  function EvenBelow(c: nat, h: nat): nat {
    if c <= 2 * h then (c + 1) / 2 else h
  }

  /** While the table stands still, each philosopher below `c` asks, and before that is
      done if he was eating. */
  lemma {:induction false} AllAsk(s: Sys, count: nat, h: nat, c: nat)
    returns (moves: seq<Move>, s': Sys, t: seq<Act>)
    requires Still(s, EvenEat(count, h)) && 2 * h <= count && c <= count
    ensures Leads(s, moves, s', t) && s'.table == s.table && |s'.philos| == count
    ensures forall k :: c <= k < count ==> s'.philos[k] == s.philos[k]
    ensures |s'.tableQueue| == c + EvenBelow(c, h)
  {
    hide Leads;
    if c == 0 {
      NoMove(s);
      moves, s', t := [], s, [];
    } else {
      var first, s1, t1 := AllAsk(s, count, h, c - 1);
      var n := c - 1;
      var up := TimeUp(s1, n);
      if n % 2 == 0 && n < 2 * h {
        var s2 := WithCell(s1, n, PhiloCell(Thinking, true, []), [DoneEvt(n)]);
        var again := TimeUp(s2, n);
        s' := WithCell(s2, n, PhiloCell(Hungry, false, []), [HungryEvt(n)]);
        LeadsOn(s1, up, s2, [], again, s', [], []);
        up := up + again;
      } else {
        s' := WithCell(s1, n, PhiloCell(Hungry, false, []), [HungryEvt(n)]);
      }
      t := t1;
      LeadsOn(s, first, s1, t1, up, s', [], t);
      moves := first + up;
    }
  }

  /** The bound on the table's queue is reached. */
  lemma BacklogReached(count: nat) returns (moves: seq<Move>)
    requires count >= 2
    ensures match Run(Init(count), moves) case None => false case Some(s) => |s.tableQueue| == count + count / 2
  {
    var h := count / 2;
    var seated, s1, t1 := EvenSeated(count, h);
    var ask, s2, t2 := AllAsk(s1, count, h, count);
    LeadsOn(Init(count), seated, s1, t1, ask, s2, t2, t1 + t2);
    moves := seated + ask;
  }
}
