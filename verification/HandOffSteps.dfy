/** The chat client's one-slot hand-off of input lines from the thread that reads them to the
    thread that acts on them, as a system of atomic steps in any interleaving. */
module HandOffSteps {

  type Line = string

  /** What the main thread makes of a line: a command without its `!` and its newline, or a
      chat message. */
  datatype Action = Command(text: string) | Chat(text: string)

  ghost function IsCommand(l: Line): bool { |l| > 0 && l[0] == '!' }

  function Strip(l: Line): Line {
    if |l| > 0 && l[|l| - 1] == '\n' then l[..|l| - 1] else l
  }

  ghost function Meaning(l: Line): Action {
    if IsCommand(l) then Command(Strip(l)[1..]) else Chat(l)
  }

  ghost predicate EndedCommand(l: Line, t: string) {
    l == "!" + t + "\n"
  }

  ghost predicate BareCommand(l: Line, t: string) {
    l == "!" + t && (t == [] || t[|t| - 1] != '\n')
  }

  /** What the user is promised of a line: after `!` the rest is a command, without the newline
      that ends it; any other line is a chat message as it stands. */
  ghost predicate ActsOn(l: Line, a: Action) {
    && (forall t {:trigger EndedCommand(l, t)} :: EndedCommand(l, t) ==> a == Command(t))
    && (forall t {:trigger BareCommand(l, t)} :: BareCommand(l, t) ==> a == Command(t))
    && (l == [] || l[0] != '!' ==> a == Chat(l))
  }

  lemma MeaningActs(l: Line)
    ensures ActsOn(l, Meaning(l))
  {
    forall t | EndedCommand(l, t) ensures Meaning(l) == Command(t) {
      assert l[0] == '!' && l[|l| - 1] == '\n' && l[..|l| - 1] == "!" + t;
    }
    forall t | BareCommand(l, t) ensures Meaning(l) == Command(t) {
      assert l[0] == '!' && l[1..] == t;
      if t != [] { assert l[|l| - 1] == t[|t| - 1]; }
    }
  }

  /** Every line falls under one of the three cases, so the promise leaves no choice. */
  lemma ActIsUnique(l: Line, a: Action, b: Action)
    requires ActsOn(l, a) && ActsOn(l, b)
    ensures a == b
  {
    if l != [] && l[0] == '!' {
      var t := l[1..];
      assert l == "!" + t;
      if t != [] && t[|t| - 1] == '\n' {
        assert t == t[..|t| - 1] + "\n";
        assert EndedCommand(l, t[..|t| - 1]);
      } else {
        assert BareCommand(l, t);
      }
    }
  }

  /** Between two lines of each thread's loop. */
  datatype Reader = TestClear | WantLock | HaveLock | Cleared | Filled | Flagged | Stopped
  datatype Worker = TestReady | WantBuffer | HaveBuffer | Stripped | Acted | Unflagged

  datatype Owner = Nobody | TheReader | TheWorker

  /** `ready` and `buf` are shared; `taken` counts the lines read of `input`, and `done` lists
      what the worker has acted on. */
  datatype State = State(
    ready: bool,
    mutex: Owner,
    buf: Line,
    reader: Reader,
    worker: Worker,
    taken: nat,
    done: seq<Action>)

  ghost function Start(): State { State(false, Nobody, [], TestClear, TestReady, 0, []) }

  /** The reading thread's next atomic step; where it cannot take one, the state stays. */
  ghost function ReaderStep(s: State, input: seq<Line>): State {
    match s.reader
    case TestClear => if s.ready then s else s.(reader := WantLock)
    case WantLock => if s.mutex == Nobody then s.(mutex := TheReader, reader := HaveLock) else s
    case HaveLock => s.(buf := [], reader := Cleared)
    case Cleared =>
      if s.taken < |input| then s.(buf := input[s.taken], taken := s.taken + 1, reader := Filled)
      else s.(reader := Stopped)
    case Filled => s.(ready := true, reader := Flagged)
    case Flagged => s.(mutex := Nobody, reader := TestClear)
    case Stopped => s
  }

  ghost function WorkerStep(s: State): State {
    match s.worker
    case TestReady => if s.ready then s.(worker := WantBuffer) else s
    case WantBuffer => if s.mutex == Nobody then s.(mutex := TheWorker, worker := HaveBuffer) else s
    case HaveBuffer =>
      if IsCommand(s.buf) then s.(buf := Strip(s.buf), worker := Stripped)
      else s.(done := s.done + [Chat(s.buf)], worker := Acted)
    case Stripped => s.(done := s.done + [Command(if |s.buf| > 0 then s.buf[1..] else [])], worker := Acted)
    case Acted => s.(ready := false, worker := Unflagged)
    case Unflagged => s.(mutex := Nobody, worker := TestReady)
  }

  ghost predicate ReaderHolds(r: Reader) {
    r == HaveLock || r == Cleared || r == Filled || r == Flagged || r == Stopped
  }

  ghost predicate WorkerHolds(w: Worker) {
    w == HaveBuffer || w == Stripped || w == Acted || w == Unflagged
  }

  /** A line has been read and not been acted on. */
  ghost predicate Pending(s: State) {
    s.reader == Filled || (s.ready && s.worker != Acted)
  }

  ghost function Meanings(ls: seq<Line>): seq<Action> {
    seq(|ls|, i requires 0 <= i < |ls| => Meaning(ls[i]))
  }

  ghost predicate Inv(s: State, input: seq<Line>) {
    && (ReaderHolds(s.reader) <==> s.mutex == TheReader)
    && (WorkerHolds(s.worker) <==> s.mutex == TheWorker)
    && (s.reader == Flagged ==> s.ready)
    && (s.reader != TestClear && s.reader != Flagged ==> !s.ready)
    && (s.worker == TestReady || s.worker == Unflagged || s.ready)
    && (s.worker == Unflagged ==> !s.ready)
    && s.taken <= |input|
    && (s.reader == Stopped ==> s.taken == |input|)
    && |s.done| + (if Pending(s) then 1 else 0) == s.taken
    && s.done == Meanings(input[..|s.done|])
    && (Pending(s) ==>
          if s.worker == Stripped then IsCommand(input[|s.done|]) && s.buf == Strip(input[|s.done|])
          else s.buf == input[|s.done|])
  }

  lemma MeaningsMore(input: seq<Line>, k: nat)
    requires k < |input|
    ensures Meanings(input[..k]) + [Meaning(input[k])] == Meanings(input[..k + 1])
  {
  }

  lemma ReaderInv(s: State, input: seq<Line>)
    requires Inv(s, input)
    ensures Inv(ReaderStep(s, input), input)
  {
  }

  lemma WorkerInv(s: State, input: seq<Line>)
    requires Inv(s, input)
    ensures Inv(WorkerStep(s), input)
  {
    if s.worker == HaveBuffer || s.worker == Stripped { MeaningsMore(input, |s.done|); }
  }

  // ------------------------------------------------------------ runs

  datatype Thread = ReaderThread | WorkerThread

  ghost function Next(s: State, input: seq<Line>, t: Thread): State {
    if t == ReaderThread then ReaderStep(s, input) else WorkerStep(s)
  }

  ghost function After(input: seq<Line>, ts: seq<Thread>): (s: State)
    ensures Inv(s, input)
  {
    if ts == [] then Start() else
      var u := After(input, ts[..|ts| - 1]);
      ReaderInv(u, input);
      WorkerInv(u, input);
      Next(u, input, ts[|ts| - 1])
  }

  /** In every interleaving: the first lines have been acted on as promised, in order, each once;
      at most one line read is still to be acted on; and once the reader has stopped at the end
      of the input, all of it has been acted on. */
  lemma EveryLineOnce(input: seq<Line>, ts: seq<Thread>)
    ensures var s := After(input, ts);
            && |s.done| <= s.taken <= |s.done| + 1 && s.taken <= |input|
            && (forall k :: 0 <= k < |s.done| ==> ActsOn(input[k], s.done[k]))
            && (s.reader == Stopped ==> |s.done| == |input|)
  {
    var s := After(input, ts);
    forall k | 0 <= k < |s.done| ensures ActsOn(input[k], s.done[k]) {
      MeaningActs(input[k]);
      assert s.done[k] == Meaning(input[..|s.done|][k]);
    }
  }

  /** While the worker holds the buffer the reader changes neither the buffer nor the flag, and
      the worker changes them only while it holds the buffer. */
  lemma BufferIsPrivate(input: seq<Line>, ts: seq<Thread>)
    ensures var s := After(input, ts);
            && (WorkerHolds(s.worker) ==>
                  ReaderStep(s, input).buf == s.buf && ReaderStep(s, input).ready == s.ready)
            && (!WorkerHolds(s.worker) ==> WorkerStep(s).buf == s.buf && WorkerStep(s).ready == s.ready)
            && (WorkerHolds(s.worker) && s.worker != Unflagged && s.worker != Acted ==>
                  s.taken == |s.done| + 1)
  {
  }

  // ------------------------------------------------------------ progress

  ghost function ReaderStage(r: Reader): int {
    match r
    case TestClear => 0
    case WantLock => 1
    case HaveLock => 2
    case Cleared => 3
    case Filled => -2
    case Flagged => -1
    case Stopped => 4
  }

  ghost function WorkerStage(w: Worker): int {
    match w
    case TestReady => 0
    case WantBuffer => 1
    case HaveBuffer => 2
    case Stripped => 3
    case Acted => -2
    case Unflagged => -1
  }

  ghost function Work(s: State): int {
    6 * s.taken + ReaderStage(s.reader) + 6 * |s.done| + WorkerStage(s.worker)
  }

  /** How many of the steps found something to do. */
  ghost function Moves(input: seq<Line>, ts: seq<Thread>): nat {
    if ts == [] then 0 else
      var u := After(input, ts[..|ts| - 1]);
      Moves(input, ts[..|ts| - 1]) + (if Next(u, input, ts[|ts| - 1]) == u then 0 else 1)
  }

  lemma StepWorks(s: State, input: seq<Line>, t: Thread)
    requires Inv(s, input)
    ensures Next(s, input, t) == s || Work(Next(s, input, t)) > Work(s)
    ensures Work(s) <= 12 * |input| + 4
  {
  }

  lemma {:induction false} MovesBounded(input: seq<Line>, ts: seq<Thread>)
    ensures Moves(input, ts) <= Work(After(input, ts))
    decreases |ts|
  {
    if ts != [] {
      var front, t := ts[..|ts| - 1], ts[|ts| - 1];
      MovesBounded(input, front);
      StepWorks(After(input, front), input, t);
      hide Work, Next, Inv;
    }
  }

  lemma StuckMeansFinished(s: State, input: seq<Line>)
    requires Inv(s, input)
    requires ReaderStep(s, input) == s && WorkerStep(s) == s
    ensures s.reader == Stopped
  {
  }

  /** The threads never block each other for good: they have something to do a bounded number of
      times, and when neither has, the reader has stopped and every line has been acted on. */
  lemma NoDeadlock(input: seq<Line>, ts: seq<Thread>)
    ensures Moves(input, ts) <= 12 * |input| + 4
    ensures var s := After(input, ts);
            (forall t :: Next(s, input, t) == s) ==> s.reader == Stopped && |s.done| == |input|
  {
    var s := After(input, ts);
    MovesBounded(input, ts);
    StepWorks(s, input, ReaderThread);
    EveryLineOnce(input, ts);
    if forall t :: Next(s, input, t) == s {
      assert Next(s, input, ReaderThread) == s && Next(s, input, WorkerThread) == s;
      StuckMeansFinished(s, input);
    }
  }
}
