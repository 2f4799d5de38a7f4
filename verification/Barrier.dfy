/** The barrier's record, changed in place by one thread's next atomic step. */
module Barrier {
  import opened BarrierSteps

  datatype Moved = Stuck | Took(step: Step)

  method WakeAll(pc: seq<Pc>) returns (woken: seq<Pc>)
    ensures woken == Wake(pc)
  {
    woken := [];
    for i := 0 to |pc|
      invariant woken == Wake(pc)[..i]
    {
      woken := woken + [if pc[i] == Asleep then Woken else pc[i]];
    }
  }

  class PtBarrier {
    var needed: nat
    var called: int
    var mutex: Holder
    var pc: seq<Pc>
    var left: seq<nat>
    ghost var entered: seq<nat>
    ghost var round: nat
    const rounds: nat

    ghost function Model(): State
      reads this
    {
      State(needed, called, mutex, pc, entered, left, round)
    }

    ghost predicate Valid()
      reads this
    {
      Inv(Model(), rounds)
    }

    /** The barrier for that many threads, each of which will wait that many times. */
    constructor (count: nat, rounds: nat)
      ensures Valid() && this.rounds == rounds && Model() == Start(count)
    {
      this.rounds := rounds;
      needed, called, mutex := count, 0, Free;
      pc, left, entered, round := seq(count, _ => Out), seq(count, _ => 0), seq(count, _ => 0), 0;
      new;
      StartInv(count, rounds);
    }

    /** Thread `t` goes on by one atomic step of its wait, unless it must wait or has done all
        its rounds. */
    method Advance(t: nat) returns (moved: Moved)
      requires Valid() && t < needed
      modifies this
      ensures Valid()
      ensures moved.Took? ==>
                moved.step.t == t && Enabled(old(Model()), rounds, moved.step)
                && Model() == Next(old(Model()), rounds, moved.step)
      ensures moved.Stuck? ==>
                Model() == old(Model()) && forall step: Step :: step.t == t ==> !Enabled(Model(), rounds, step)
    {
      ghost var s := Model();
      assert Inv(s, rounds) && ThreadOk(s, rounds, t) && Shape(s);
      moved := Stuck;
      hide Inv;
      match pc[t] {
        case Out =>
          if mutex == Free && left[t] < rounds {
            mutex, pc, moved := Held(t), pc[t := Locked], Took(Lock(t));
          }
        case Locked =>
          called := called + 1;
          pc, entered, moved := pc[t := Counted], entered[t := entered[t] + 1], Took(Count(t));
        case Counted =>
          if called == needed {
            called := 0;
            pc, round, moved := pc[t := Resetting], round + 1, Took(Reset(t));
          } else {
            mutex, pc, moved := Free, pc[t := Asleep], Took(Sleep(t));
          }
        case Asleep =>
        case Resetting =>
          var woken := WakeAll(pc);
          pc, moved := woken[t := Leaving], Took(Broadcast(t));
        case Woken =>
          if mutex == Free {
            mutex, pc, moved := Held(t), pc[t := Leaving], Took(Relock(t));
          }
        case Leaving =>
          mutex, pc, left, moved := Free, pc[t := Out], left[t := left[t] + 1], Took(Unlock(t));
      }
      if moved.Took? {
        assert Model() == Next(s, rounds, moved.step);
        StepInv(s, rounds, moved.step);
      } else {
        assert Model() == s;
      }
    }
  }
}
