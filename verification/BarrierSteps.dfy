/** The reusable barrier as a system of atomic steps: `needed` threads, each of which waits at
    the barrier `rounds` times, in any interleaving. A sleeping thread is woken by the broadcast
    and by nothing else. */
module BarrierSteps {

  /** Where a thread is. `Resetting`, too, holds the mutex: between setting `called` to zero and
      the broadcast. */
  datatype Pc = Out | Locked | Counted | Asleep | Resetting | Woken | Leaving

  datatype Holder = Free | Held(t: nat)

  /** `entered` and `left` count, per thread, the rounds it was counted in for and the rounds it
      has come back from; `round` is the number of rounds for which all have arrived. */
  datatype State = State(
    needed: nat,
    called: int,
    mutex: Holder,
    pc: seq<Pc>,
    entered: seq<nat>,
    left: seq<nat>,
    round: nat)

  datatype Step = Lock(t: nat) | Count(t: nat) | Reset(t: nat) | Broadcast(t: nat) | Sleep(t: nat) | Relock(t: nat) | Unlock(t: nat)

  ghost function Start(needed: nat): State {
    State(needed, 0, Free, seq(needed, _ => Out), seq(needed, _ => 0), seq(needed, _ => 0), 0)
  }

  ghost predicate Shape(s: State) {
    |s.pc| == s.needed && |s.entered| == s.needed && |s.left| == s.needed
  }

  ghost predicate Enabled(s: State, rounds: nat, step: Step)
    requires Shape(s)
  {
    && step.t < s.needed
    && match step
       case Lock(t) => s.pc[t] == Out && s.left[t] < rounds && s.mutex == Free
       case Count(t) => s.pc[t] == Locked
       case Reset(t) => s.pc[t] == Counted && s.called == s.needed
       case Broadcast(t) => s.pc[t] == Resetting
       case Sleep(t) => s.pc[t] == Counted && s.called != s.needed
       case Relock(t) => s.pc[t] == Woken && s.mutex == Free
       case Unlock(t) => s.pc[t] == Leaving
  }

  ghost function Wake(pc: seq<Pc>): (w: seq<Pc>)
    ensures |w| == |pc|
  {
    seq(|pc|, i requires 0 <= i < |pc| => if pc[i] == Asleep then Woken else pc[i])
  }

  ghost function Next(s: State, rounds: nat, step: Step): (n: State)
    requires Shape(s) && Enabled(s, rounds, step)
    ensures Shape(n)
  {
    match step
    case Lock(t) => s.(mutex := Held(t), pc := s.pc[t := Locked])
    case Count(t) => s.(called := s.called + 1, pc := s.pc[t := Counted], entered := s.entered[t := s.entered[t] + 1])
    case Reset(t) => s.(called := 0, pc := s.pc[t := Resetting], round := s.round + 1)
    case Broadcast(t) => s.(pc := Wake(s.pc)[t := Leaving])
    case Sleep(t) => s.(mutex := Free, pc := s.pc[t := Asleep])
    case Relock(t) => s.(mutex := Held(t), pc := s.pc[t := Leaving])
    case Unlock(t) => s.(mutex := Free, pc := s.pc[t := Out], left := s.left[t := s.left[t] + 1])
  }

  // ------------------------------------------------------------ the invariant

  ghost predicate Holds(p: Pc) {
    p == Locked || p == Counted || p == Resetting || p == Leaving
  }

  /** The threads already counted in for the round that is filling up. */
  ghost function Arrived(s: State): set<nat>
    requires Shape(s)
  {
    set t: nat | t < s.needed && s.entered[t] == s.round + 1
  }

  ghost predicate ThreadOk(s: State, rounds: nat, t: nat)
    requires Shape(s) && t < s.needed
  {
    var e, l := s.entered[t], s.left[t];
    && (Holds(s.pc[t]) <==> s.mutex == Held(t))
    && e <= rounds
    && match s.pc[t]
       case Out => e == s.round && l == e
       case Locked => e == s.round && l == e && l < rounds
       case Counted => e == s.round + 1 && l == s.round
       case Asleep =>
         if s.mutex.Held? && s.mutex.t < s.needed && s.pc[s.mutex.t] == Resetting
         then e == s.round && l + 1 == e
         else e == s.round + 1 && l == s.round
       case Resetting => e == s.round && l + 1 == e && forall u: nat :: u < s.needed && u != t ==> s.pc[u] == Asleep
       case Woken => e == s.round && l + 1 == e
       case Leaving => e == s.round && l + 1 == e
  }

  ghost predicate Inv(s: State, rounds: nat) {
    && Shape(s)
    && (forall t: nat {:trigger ThreadOk(s, rounds, t)} :: t < s.needed ==> ThreadOk(s, rounds, t))
    && s.called == |Arrived(s)|
    && (s.mutex.Held? ==> s.mutex.t < s.needed)
    && (s.called == s.needed > 0 ==> s.mutex.Held? && s.pc[s.mutex.t] == Counted)
  }

  lemma StartInv(needed: nat, rounds: nat)
    ensures Inv(Start(needed), rounds)
  {
    var s := Start(needed);
    assert Arrived(s) == {};
  }

  /** A set of threads as large as all of them is all of them. */
  lemma Everyone(a: set<nat>, n: nat)
    requires forall t :: t in a ==> t < n
    ensures |a| <= n
    ensures |a| == n ==> forall t: nat :: t < n ==> t in a
    decreases n
  {
    if n > 0 {
      Everyone(a - {n - 1}, n - 1);
      if n - 1 in a { assert a == (a - {n - 1}) + {n - 1}; } else { assert a == a - {n - 1}; }
    } else {
      assert a == {};
    }
  }

  lemma ArrivedKept(s: State, n: State)
    requires Shape(s) && Shape(n) && n.needed == s.needed && n.entered == s.entered && n.round == s.round
    ensures Arrived(n) == Arrived(s)
  {
  }

  lemma CountInv(s: State, rounds: nat, t: nat)
    requires Inv(s, rounds) && Enabled(s, rounds, Count(t))
    ensures Inv(Next(s, rounds, Count(t)), rounds)
  {
    var n := Next(s, rounds, Count(t));
    assert ThreadOk(s, rounds, t);
    ArrivedMore(s, rounds, t);
    Everyone(Arrived(n), n.needed);
    hide Arrived;
    forall u: nat | u < n.needed ensures ThreadOk(n, rounds, u) {
      assert ThreadOk(s, rounds, u);
    }
    hide ThreadOk;
  }

  lemma ArrivedMore(s: State, rounds: nat, t: nat)
    requires Shape(s) && Enabled(s, rounds, Count(t)) && s.entered[t] == s.round
    ensures Arrived(Next(s, rounds, Count(t))) == Arrived(s) + {t} && t !in Arrived(s)
  {
  }

  lemma ResetInv(s: State, rounds: nat, t: nat)
    requires Inv(s, rounds) && Enabled(s, rounds, Reset(t))
    ensures Inv(Next(s, rounds, Reset(t)), rounds)
  {
    var n := Next(s, rounds, Reset(t));
    assert ThreadOk(s, rounds, t);
    Everyone(Arrived(s), s.needed);
    forall u: nat | u < s.needed ensures s.entered[u] == s.round + 1 && (u != t ==> s.pc[u] == Asleep) {
      assert ThreadOk(s, rounds, u) && u in Arrived(s);
    }
    assert Arrived(n) == {};
    forall u: nat | u < n.needed ensures ThreadOk(n, rounds, u) {
      assert ThreadOk(s, rounds, u);
    }
  }

  lemma BroadcastInv(s: State, rounds: nat, t: nat)
    requires Inv(s, rounds) && Enabled(s, rounds, Broadcast(t))
    ensures Inv(Next(s, rounds, Broadcast(t)), rounds)
  {
    var n := Next(s, rounds, Broadcast(t));
    assert ThreadOk(s, rounds, t);
    ArrivedKept(s, n);
    forall u: nat | u < n.needed ensures ThreadOk(n, rounds, u) {
      assert ThreadOk(s, rounds, u);
    }
  }

  /** Taking or giving up the mutex moves one thread only. */
  lemma MutexInv(s: State, rounds: nat, step: Step)
    requires Inv(s, rounds) && Enabled(s, rounds, step)
    requires step.Lock? || step.Sleep? || step.Relock? || step.Unlock?
    ensures Inv(Next(s, rounds, step), rounds)
  {
    var n := Next(s, rounds, step);
    assert ThreadOk(s, rounds, step.t);
    ArrivedKept(s, n);
    forall u: nat | u < n.needed ensures ThreadOk(n, rounds, u) {
      assert ThreadOk(s, rounds, u);
    }
  }

  lemma StepInv(s: State, rounds: nat, step: Step)
    requires Inv(s, rounds) && Enabled(s, rounds, step)
    ensures Inv(Next(s, rounds, step), rounds)
  {
    match step
    case Count(t) => CountInv(s, rounds, t);
    case Reset(t) => ResetInv(s, rounds, t);
    case Broadcast(t) => BroadcastInv(s, rounds, t);
    case _ => MutexInv(s, rounds, step);
  }

  // ------------------------------------------------------------ what the barrier promises

  /** When a thread has come back from a round, every thread has been counted in for it. */
  lemma NobodyLeavesEarly(s: State, rounds: nat, t: nat, u: nat)
    requires Inv(s, rounds) && t < s.needed && u < s.needed
    ensures s.left[t] <= s.round <= s.entered[u]
  {
    assert ThreadOk(s, rounds, t) && ThreadOk(s, rounds, u);
  }

  /** No thread is two rounds ahead of another. */
  lemma RoundsStayClose(s: State, rounds: nat, t: nat, u: nat)
    requires Inv(s, rounds) && t < s.needed && u < s.needed
    ensures s.left[t] <= s.left[u] + 1 && s.entered[t] <= s.entered[u] + 1
  {
    assert ThreadOk(s, rounds, t) && ThreadOk(s, rounds, u);
  }

  /** `called` is the number of threads asleep at the barrier, with the one just counted in, and
      zero while the last arrival is about to wake the sleepers. */
  lemma CalledCountsTheWaiting(s: State, rounds: nat)
    requires Inv(s, rounds)
    ensures var waiting := set t: nat | t < s.needed && (s.pc[t] == Asleep || s.pc[t] == Counted);
            if s.mutex.Held? && s.pc[s.mutex.t] == Resetting then s.called == 0 && |waiting| == s.needed - 1
            else s.called == |waiting|
  {
    var waiting := set t: nat | t < s.needed && (s.pc[t] == Asleep || s.pc[t] == Counted);
    if s.mutex.Held? && s.pc[s.mutex.t] == Resetting {
      var h := s.mutex.t;
      assert ThreadOk(s, rounds, h);
      forall t: nat | t < s.needed ensures s.entered[t] == s.round { assert ThreadOk(s, rounds, t); }
      assert Arrived(s) == {};
      forall t: nat | t < s.needed ensures t in waiting + {h} { assert t == h || s.pc[t] == Asleep; }
      AllOf(waiting + {h}, s.needed);
      assert h !in waiting;
    } else {
      forall t: nat | t < s.needed ensures t in waiting <==> t in Arrived(s) { assert ThreadOk(s, rounds, t); }
      assert waiting == Arrived(s);
    }
  }

  lemma AllOf(a: set<nat>, n: nat)
    requires (forall t: nat :: t < n ==> t in a) && forall t :: t in a ==> t < n
    ensures |a| == n
    decreases n
  {
    if n > 0 {
      assert a == (a - {n - 1}) + {n - 1};
      AllOf(a - {n - 1}, n - 1);
    } else {
      assert a == {};
    }
  }

  // ------------------------------------------------------------ no deadlock

  ghost function MutexStep(s: State): Step
    requires Shape(s) && s.mutex.Held? && s.mutex.t < s.needed
  {
    var t := s.mutex.t;
    match s.pc[t]
    case Locked => Count(t)
    case Counted => if s.called == s.needed then Reset(t) else Sleep(t)
    case Resetting => Broadcast(t)
    case _ => Unlock(t)
  }

  /** Unless every thread has come back from its last round, some thread can go on. */
  lemma SomeoneCanStep(s: State, rounds: nat, t: nat) returns (step: Step)
    requires Inv(s, rounds) && t < s.needed && s.left[t] < rounds
    ensures Enabled(s, rounds, step)
  {
    if s.mutex.Held? {
      assert ThreadOk(s, rounds, s.mutex.t);
      return MutexStep(s);
    }
    assert ThreadOk(s, rounds, t);
    if exists u: nat :: u < s.needed && s.pc[u] == Woken {
      var u: nat :| u < s.needed && s.pc[u] == Woken;
      return Relock(u);
    }
    if s.pc[t] == Out { return Lock(t); }
    if exists u: nat :: u < s.needed && s.pc[u] == Out {
      var u: nat :| u < s.needed && s.pc[u] == Out;
      assert ThreadOk(s, rounds, u);
      return Lock(u);
    }
    forall u: nat | u < s.needed ensures u in Arrived(s) { assert ThreadOk(s, rounds, u); }
    AllOf(Arrived(s), s.needed);
    assert false;
  }

  // ------------------------------------------------------------ every run ends

  ghost function Stage(p: Pc): nat {
    match p
    case Out => 0
    case Locked => 1
    case Counted => 2
    case Asleep => 3
    case Resetting => 3
    case Woken => 4
    case Leaving => 5
  }

  ghost function Done(s: State, n: nat): nat
    requires Shape(s) && n <= s.needed
  {
    if n == 0 then 0 else Done(s, n - 1) + 6 * s.left[n - 1] + Stage(s.pc[n - 1])
  }

  lemma {:induction false} DoneGrows(s: State, n: State, k: nat, t: nat)
    requires Shape(s) && Shape(n) && n.needed == s.needed && k <= s.needed && t < s.needed
    requires forall u: nat :: u < s.needed ==> 6 * s.left[u] + Stage(s.pc[u]) <= 6 * n.left[u] + Stage(n.pc[u])
    requires 6 * s.left[t] + Stage(s.pc[t]) < 6 * n.left[t] + Stage(n.pc[t])
    ensures Done(s, k) <= Done(n, k) && (t < k ==> Done(s, k) < Done(n, k))
  {
    if k > 0 { DoneGrows(s, n, k - 1, t); }
  }

  lemma {:induction false} DoneBound(s: State, rounds: nat, k: nat)
    requires Inv(s, rounds) && k <= s.needed
    ensures Done(s, k) <= 6 * rounds * k
  {
    if k > 0 {
      assert ThreadOk(s, rounds, k - 1);
      DoneBound(s, rounds, k - 1);
      assert 6 * rounds * k == 6 * rounds * (k - 1) + 6 * rounds;
    }
  }

  lemma StepAdvances(s: State, rounds: nat, step: Step)
    requires Inv(s, rounds) && Enabled(s, rounds, step)
    ensures Done(s, s.needed) < Done(Next(s, rounds, step), s.needed)
  {
    assert ThreadOk(s, rounds, step.t);
    DoneGrows(s, Next(s, rounds, step), s.needed, step.t);
  }

  ghost predicate Possible(needed: nat, rounds: nat, steps: seq<Step>)
    decreases |steps|, 0
  {
    var k := |steps| - 1;
    k >= 0 ==> Possible(needed, rounds, steps[..k]) && Enabled(After(needed, rounds, steps[..k]), rounds, steps[k])
  }

  ghost function After(needed: nat, rounds: nat, steps: seq<Step>): (s: State)
    requires Possible(needed, rounds, steps)
    ensures Inv(s, rounds) && s.needed == needed && |steps| <= Done(s, needed)
    decreases |steps|, 1
  {
    var k := |steps| - 1;
    if k < 0 then StartInv(needed, rounds); Start(needed) else
      var u := After(needed, rounds, steps[..k]);
      StepInv(u, rounds, steps[k]);
      StepAdvances(u, rounds, steps[k]);
      Next(u, rounds, steps[k])
  }

  /** In every run of any number of threads and rounds: nobody leaves a round that somebody has
      not entered; the run is at most `6 * rounds * needed` steps long; and where it cannot go
      on, every thread has completed all its rounds. */
  lemma EveryRun(needed: nat, rounds: nat, steps: seq<Step>)
    requires Possible(needed, rounds, steps)
    ensures var s := After(needed, rounds, steps);
            && (forall t: nat, u: nat :: t < needed && u < needed ==> s.left[t] <= s.entered[u] && s.left[t] <= s.left[u] + 1)
            && |steps| <= 6 * rounds * needed
            && ((forall step :: !Enabled(s, rounds, step)) ==> forall t: nat :: t < needed ==> s.left[t] == rounds)
  {
    var s := After(needed, rounds, steps);
    forall t: nat, u: nat | t < needed && u < needed ensures s.left[t] <= s.entered[u] && s.left[t] <= s.left[u] + 1 {
      NobodyLeavesEarly(s, rounds, t, u);
      RoundsStayClose(s, rounds, t, u);
    }
    DoneBound(s, rounds, needed);
    if forall step :: !Enabled(s, rounds, step) {
      forall t: nat | t < needed ensures s.left[t] == rounds {
        assert ThreadOk(s, rounds, t);
        if s.left[t] < rounds { var step := SomeoneCanStep(s, rounds, t); }
      }
    }
  }
}
