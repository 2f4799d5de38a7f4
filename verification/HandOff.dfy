/** The flag, the mutex and the buffer that the client's two threads share, changed in place. */
module HandOff {
  import opened HandOffSteps

  class Slot {
    var ready: bool
    var mutex: Owner
    var buf: Line
    var reader: Reader
    var worker: Worker
    var taken: nat
    var done: seq<Action>
    const input: seq<Line>

    ghost function Model(): State
      reads this
    {
      State(ready, mutex, buf, reader, worker, taken, done)
    }

    ghost predicate Valid()
      reads this
    {
      Inv(Model(), input)
    }

    constructor (input: seq<Line>)
      ensures Valid() && this.input == input && Model() == Start()
    {
      this.input := input;
      ready, mutex, buf, reader, worker, taken, done := false, Nobody, [], TestClear, TestReady, 0, [];
    }

    method AdvanceReader()
      requires Valid()
      modifies this
      ensures Valid() && Model() == ReaderStep(old(Model()), input)
    {
      ReaderInv(Model(), input);
      match reader
      case TestClear => if !ready { reader := WantLock; }
      case WantLock => if mutex == Nobody { mutex, reader := TheReader, HaveLock; }
      case HaveLock => buf, reader := [], Cleared;
      case Cleared =>
        if taken < |input| {
          buf, taken, reader := input[taken], taken + 1, Filled;
        } else {
          reader := Stopped;
        }
      case Filled => ready, reader := true, Flagged;
      case Flagged => mutex, reader := Nobody, TestClear;
      case Stopped =>
    }

    method AdvanceWorker()
      requires Valid()
      modifies this
      ensures Valid() && Model() == WorkerStep(old(Model()))
    {
      WorkerInv(Model(), input);
      match worker
      case TestReady => if ready { worker := WantBuffer; }
      case WantBuffer => if mutex == Nobody { mutex, worker := TheWorker, HaveBuffer; }
      case HaveBuffer =>
        if |buf| > 0 && buf[0] == '!' {
          buf, worker := Strip(buf), Stripped;
        } else {
          done, worker := done + [Chat(buf)], Acted;
        }
      case Stripped => done, worker := done + [Command(if |buf| > 0 then buf[1..] else [])], Acted;
      case Acted => ready, worker := false, Unflagged;
      case Unflagged => mutex, worker := Nobody, TestReady;
    }
  }
}
