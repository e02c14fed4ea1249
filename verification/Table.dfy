/** The table of the dining philosophers (table.c): it owns the forks, and grants them. */
module Table {
  /** The events of the protocol; TIMEOUT is private to a philosopher. */
  datatype Evt = HungryEvt(philo: nat) | EatEvt(philo: nat) | DoneEvt(philo: nat) | TimeoutEvt

  datatype Fork = Free | Used

  /** The source's LEFT and RIGHT macros, for `count` philosophers. */
  function Left(n: nat, count: nat): (m: nat)
    requires n < count
    ensures m == if n + 1 == count then 0 else n + 1
  {
    (n + 1) % count
  }

  function Right(n: nat, count: nat): (m: nat)
    requires n < count
    ensures m == if n == 0 then count - 1 else n - 1
  {
    RightWraps(n, count);
    (n + (count - 1)) % count
  }

  lemma RightWraps(n: nat, count: nat)
    requires n < count
    ensures (n + (count - 1)) % count == if n == 0 then count - 1 else n - 1
  {
    if n > 0 { assert (n - 1 + count) / count == 1; }
  }

  datatype Seating = Seating(fork: seq<Fork>, isHungry: seq<bool>) {
    predicate WellFormed() {
      |fork| == |isHungry| >= 1
    }
  }

  /** What handling an event comes to: an assertion of the source fails, or the table
      is in a new state and has published EAT for the philosophers in `eats`. */
  datatype Served = AssertFailed | Served(table: Seating, eats: seq<nat>)

  /** Both forks of philosopher `n` are taken, and EAT is published for him. */
  function Grant(t: Seating, n: nat): Seating
    requires t.WellFormed() && n < |t.fork|
  {
    Seating(t.fork[n := Used][Left(n, |t.fork|) := Used], t.isHungry[n := false])
  }

  function Release(t: Seating, n: nat): Seating
    requires t.WellFormed() && n < |t.fork|
  {
    t.(fork := t.fork[n := Free][Left(n, |t.fork|) := Free])
  }

  /** Table_serving on the events of the protocol. */
  function Serve(t: Seating, e: Evt): (r: Served)
    requires t.WellFormed()
    ensures r.Served? ==> r.table.WellFormed() && |r.table.fork| == |t.fork|
  {
    var count := |t.fork|;
    match e
    case HungryEvt(n) =>
      if n >= count || t.isHungry[n] then AssertFailed
      else if t.fork[Left(n, count)] == Free && t.fork[n] == Free then Served(Grant(t, n), [n])
      else Served(t.(isHungry := t.isHungry[n := true]), [])
    case DoneEvt(n) =>
      if n >= count || t.isHungry[n] then AssertFailed
      else if t.fork[n] != Used || t.fork[Left(n, count)] != Used then AssertFailed
      else
        var t0 := Release(t, n);
        var r := Right(n, count);
        var right := t0.isHungry[r] && t0.fork[r] == Free;
        var t1 := if right then Grant(t0, r) else t0;
        var l := Left(n, count);
        var left := t1.isHungry[l] && t1.fork[Left(l, count)] == Free;
        Served(if left then Grant(t1, l) else t1, (if right then [r] else []) + (if left then [l] else []))
    case _ => Served(t, [])
  }

  /** The table's assertions fail exactly on an event from nobody, from one who is marked as
      waiting, or of one who is done without having his forks; other events than HUNGRY and
      DONE are none of its business. */
  lemma AssertsIff(t: Seating, e: Evt)
    requires t.WellFormed()
    ensures var n, count := if e.TimeoutEvt? then 0 else e.philo, |t.fork|;
            Serve(t, e).AssertFailed? <==>
              (e.HungryEvt? || e.DoneEvt?) &&
              (n >= count || t.isHungry[n] || (e.DoneEvt? && (t.fork[n] == Free || t.fork[Left(n, count)] == Free)))
    ensures e.EatEvt? || e.TimeoutEvt? ==> Serve(t, e) == Served(t, [])
  {
    hide Left, Right;
  }

  class TableObject {
    const fork: array<Fork>
    const isHungry: array<bool>

    ghost predicate Valid() {
      fork.Length == isHungry.Length >= 1
    }

    ghost function View(): Seating
      reads fork, isHungry
    {
      Seating(fork[..], isHungry[..])
    }

    /** Table_ctor: all forks are free, and nobody is hungry. */
    constructor (count: nat)
      requires count >= 1
      ensures Valid() && fork.Length == count && fresh(fork) && fresh(isHungry)
      ensures forall n :: 0 <= n < count ==> fork[n] == Free && !isHungry[n]
    {
      fork := new Fork[count];
      isHungry := new bool[count];
      new;
      for n := 0 to count
        invariant forall k :: 0 <= k < n ==> fork[k] == Free && !isHungry[k]
      {
        fork[n] := Free;
        isHungry[n] := false;
      }
    }

    method SetForks(n: nat, f: Fork)
      requires Valid() && n < fork.Length
      modifies fork
      ensures fork[..] == old(fork[..])[n := f][Left(n, fork.Length) := f]
    {
      var m := Left(n, fork.Length);
      fork[m], fork[n] := f, f;
    }

    /** Grants the forks to a philosopher found waiting. */
    method GrantWaiting(n: nat)
      requires Valid() && n < fork.Length
      modifies fork, isHungry
      ensures View() == Grant(old(View()), n)
    {
      SetForks(n, Used);
      isHungry[n] := false;
    }

    /** A philosopher who was not waiting asks for the forks. */
    method ServeHungry(n: nat) returns (eats: seq<nat>)
      requires Valid() && n < fork.Length && !isHungry[n]
      modifies fork, isHungry
      ensures Serve(old(View()), HungryEvt(n)) == Served(View(), eats)
    {
      var m := Left(n, fork.Length);
      if fork[m] == Free && fork[n] == Free {
        SetForks(n, Used);
        assert isHungry[..][n := false] == isHungry[..];
        eats := [n];
      } else {
        isHungry[n] := true;
        eats := [];
      }
    }

    /** A philosopher gives his forks back: first the right, then the left neighbour
        may get them. */
    method ServeDone(n: nat) returns (eats: seq<nat>)
      requires Valid() && n < fork.Length && !isHungry[n]
      requires fork[n] == Used && fork[Left(n, fork.Length)] == Used
      modifies fork, isHungry
      ensures Serve(old(View()), DoneEvt(n)) == Served(View(), eats)
    {
      hide Left, Right, Grant;
      eats := [];
      SetForks(n, Free);
      assert View() == Release(old(View()), n);
      var m := Right(n, fork.Length);
      if isHungry[m] && fork[m] == Free {
        GrantWaiting(m);
        eats := eats + [m];
      }
      m := Left(n, fork.Length);
      var k := Left(m, fork.Length);
      if isHungry[m] && fork[k] == Free {
        GrantWaiting(m);
        eats := eats + [m];
      }
    }

    /** Handles one event; `ok` is false when an assertion of the source fails, and
        `eats` are the philosophers for whom EAT is published, in that order. */
    method Serving(e: Evt) returns (ok: bool, eats: seq<nat>)
      requires Valid()
      modifies fork, isHungry
      ensures match Serve(old(View()), e)
              case AssertFailed => !ok && View() == old(View())
              case Served(t, published) => ok && View() == t && eats == published
    {
      hide Left, Right, Grant, Release;
      ok, eats := true, [];
      match e {
        case HungryEvt(n) =>
          if n >= fork.Length || isHungry[n] { return false, []; }
          eats := ServeHungry(n);
        case DoneEvt(n) =>
          if n >= fork.Length || isHungry[n] { return false, []; }
          if fork[n] != Used || fork[Left(n, fork.Length)] != Used { return false, []; }
          eats := ServeDone(n);
        case _ =>
      }
    }
  }
}
