/** A philosopher (philo.c): thinking, hungry, eating, driven by its own timer. */
module Philo {
  import opened Table

  datatype PhiloState = Thinking | Hungry | Eating

  /** What handling an event comes to: the new state, whether the timer was armed on
      the way, and the events sent to the table. */
  datatype Reaction = Violation | Reaction(state: PhiloState, arms: bool, sends: seq<Evt>)

  /** One run-to-completion step of philosopher `id`, with its exit and entry actions. */
  function React(id: nat, state: PhiloState, e: Evt): Reaction {
    match state
    case Thinking =>
      (match e
       case TimeoutEvt => Reaction(Hungry, false, [HungryEvt(id)])
       case EatEvt(n) => if n == id then Violation else Reaction(state, false, [])
       case DoneEvt(n) => if n == id then Violation else Reaction(state, false, [])
       case _ => Reaction(state, false, []))
    case Hungry =>
      (match e
       case EatEvt(n) => if n == id then Reaction(Eating, true, []) else Reaction(state, false, [])
       case DoneEvt(n) => if n == id then Violation else Reaction(state, false, [])
       case _ => Reaction(state, false, []))
    case Eating =>
      (match e
       case TimeoutEvt => Reaction(Thinking, true, [DoneEvt(id)])
       case EatEvt(n) => if n == id then Violation else Reaction(state, false, [])
       case DoneEvt(n) => if n == id then Violation else Reaction(state, false, [])
       case _ => Reaction(state, false, []))
  }

  /** A philosopher's assertions fail exactly on an EAT for him for which he has not asked,
      and on his own DONE. */
  lemma AssertsIff(id: nat, state: PhiloState, e: Evt)
    ensures React(id, state, e).Violation? <==> (e == EatEvt(id) && state != Hungry) || e == DoneEvt(id)
  {
  }

  /** Only his timer and, while he is hungry, his own EAT move him on. */
  lemma MovedIff(id: nat, state: PhiloState, e: Evt)
    requires !React(id, state, e).Violation?
    ensures React(id, state, e) != Reaction(state, false, []) <==>
              if state == Hungry then e == EatEvt(id) else e == TimeoutEvt
  {
  }

  class PhiloObject {
    const id: nat
    var state: PhiloState
    var armed: bool       // the time event is running
    var sent: seq<Evt>    // what this philosopher has posted or published so far

    /** The initial transition enters `thinking`, which arms the timer. */
    constructor (id: nat)
      ensures this.id == id && state == Thinking && armed && sent == []
    {
      this.id := id;
      state, armed, sent := Thinking, true, [];
    }

    /** Q_TRAN: the exit action of the old state, then the entry action of the new. */
    method Tran(target: PhiloState)
      modifies this
      ensures state == target
      ensures armed == (old(armed) || target != Hungry)
      ensures sent == old(sent) + (if old(state) == Eating then [DoneEvt(id)] else [])
                                + (if target == Hungry then [HungryEvt(id)] else [])
    {
      if state == Eating { sent := sent + [DoneEvt(id)]; }
      state := target;
      match target {
        case Thinking => armed := true;
        case Hungry => sent := sent + [HungryEvt(id)];
        case Eating => armed := true;
      }
    }

    method Dispatch(e: Evt) returns (ok: bool)
      modifies this
      ensures match React(id, old(state), e)
              case Violation => !ok && state == old(state) && armed == old(armed) && sent == old(sent)
              case Reaction(s, arms, sends) =>
                ok && state == s && armed == (old(armed) || arms) && sent == old(sent) + sends
    {
      ok := true;
      match state {
        case Thinking =>
          if e == TimeoutEvt {
            Tran(Hungry);
          } else if e.EatEvt? || e.DoneEvt? {
            ok := e.philo != id;
          }
        case Hungry =>
          if e.EatEvt? {
            if e.philo == id {
              Tran(Eating);
            }
          } else if e.DoneEvt? {
            ok := e.philo != id;
          }
        case Eating =>
          if e == TimeoutEvt {
            Tran(Thinking);
          } else if e.EatEvt? || e.DoneEvt? {
            ok := e.philo != id;
          }
      }
    }
  }
}
