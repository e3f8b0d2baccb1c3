/** One scheduled task as a concurrent step system: the loop goroutine, the goroutines
    that execute its function, callers of Cancel, and the receiver of the done channel.
 */
module Scheduler {
  import opened Text

  datatype Mode = RunOnce | FixedRate | FixedDelay | Dynamic

  datatype Err = Canceled | TaskError

  /** Where the loop goroutine is. `Waiting` is the blocking receive inside an execution
      that is waited for; the last four are the deferred function. */
  datatype LoopPc = Initial | Waiting(e: nat) | Repeating | Exiting | Sending | Closing | Ended

  /** Where an execution goroutine is; `Finished` has notified its error channel. `failed`
      says that its function returned an error or panicked. */
  datatype ExecPc = Running | Failing | Handling | Reported | Notifying(failed: bool) | Finished(failed: bool)

  /** A caller inside Cancel: before and after it has stored the error. */
  datatype CancelPc = Locked | Stored

  /** Who holds the mutex. */
  datatype Holder = Free | ByLoop | ByExec(e: nat) | ByCaller(pc: CancelPc)

  datatype State = State(
    mode: Mode,
    cancelOnError: bool,
    loop: LoopPc,
    execs: seq<ExecPc>,      // in the order they were started
    holder: Holder,
    ctxDone: bool,
    err: Option<Err>,
    buffer: seq<Option<Err>>,  // the done channel, capacity one
    sent: seq<Option<Err>>,    // everything ever sent on it
    closes: nat)

  predicate Init(s: State) {
    && s.loop == Initial && s.execs == [] && s.holder == Free
    && !s.ctxDone && s.err == None && s.buffer == [] && s.sent == [] && s.closes == 0
  }

  datatype Step =
    | Fire | StopLoop | WaitOver | LockToExit | Send | Close
    | Succeed(e: nat) | Fail(e: nat) | LockToHandle(e: nat) | StoreError(e: nat) | FinishHandling(e: nat) | Notify(e: nat)
    | CancelLock | CancelStore | CancelDone | Receive

  /** The first execution is waited for except at a fixed rate and for dynamic triggers, and
      later ones with a fixed delay. */
  predicate Waits(m: Mode) {
    m == RunOnce || m == FixedDelay
  }

  predicate Enabled(s: State, a: Step) {
    match a
    case Fire => s.loop == Initial || s.loop == Repeating
    case StopLoop => (s.loop == Initial || s.loop == Repeating) && s.ctxDone
    case WaitOver => s.loop.Waiting? && s.loop.e < |s.execs| && s.execs[s.loop.e].Finished?
    case LockToExit => s.loop == Exiting && s.holder == Free
    case Send => s.loop == Sending && |s.buffer| < 1
    case Close => s.loop == Closing
    case Succeed(e) => e < |s.execs| && s.execs[e] == Running
    case Fail(e) => e < |s.execs| && s.execs[e] == Running
    case LockToHandle(e) => e < |s.execs| && s.execs[e] == Failing && s.holder == Free
    case StoreError(e) => e < |s.execs| && s.execs[e] == Handling
    case FinishHandling(e) => e < |s.execs| && s.execs[e] == Reported
    case Notify(e) => e < |s.execs| && s.execs[e].Notifying?
    case CancelLock => s.holder == Free
    case CancelStore => s.holder == ByCaller(Locked)
    case CancelDone => s.holder == ByCaller(Stored)
    case Receive => s.buffer != []
  }

  function Take(s: State, a: Step): State
    requires Enabled(s, a)
  {
    match a
    case Fire =>
      s.(execs := s.execs + [Running], loop := if Waits(s.mode) then Waiting(|s.execs|) else Repeating)
    case StopLoop => s.(loop := Exiting)
    case WaitOver => s.(loop := if s.mode == RunOnce then Exiting else Repeating)
    case LockToExit => s.(loop := Sending, holder := ByLoop)
    case Send => s.(loop := Closing, buffer := [s.err], sent := s.sent + [s.err])
    case Close => s.(loop := Ended, closes := s.closes + 1, holder := Free)
    case Succeed(e) => s.(execs := s.execs[e := Notifying(false)])
    case Fail(e) => s.(execs := s.execs[e := Failing])
    case LockToHandle(e) => s.(execs := s.execs[e := Handling], holder := ByExec(e))
    case StoreError(e) => s.(execs := s.execs[e := Reported], err := Some(TaskError))
    case FinishHandling(e) =>
      s.(execs := s.execs[e := Notifying(true)], holder := Free, ctxDone := s.ctxDone || s.cancelOnError)
    case Notify(e) => s.(execs := s.execs[e := Finished(s.execs[e].failed)])
    case CancelLock => s.(holder := ByCaller(Locked))
    case CancelStore => s.(holder := ByCaller(Stored), err := Some(Canceled))
    case CancelDone => s.(holder := Free, ctxDone := true)
    case Receive => s.(buffer := [])
  }

  /***************************** Invariants *****************************/

  /** The holder of the mutex is where the code holds it. */
  predicate MutexInv(s: State) {
    && (s.holder == ByLoop <==> s.loop == Sending || s.loop == Closing)
    && (forall e | 0 <= e < |s.execs| :: s.holder == ByExec(e) <==> s.execs[e] == Handling || s.execs[e] == Reported)
    && (s.holder.ByExec? ==> s.holder.e < |s.execs|)
  }

  /** One value is sent, before the channel is closed, once. */
  predicate DoneInv(s: State) {
    && |s.sent| == (if s.loop == Closing || s.loop == Ended then 1 else 0)
    && s.closes == (if s.loop == Ended then 1 else 0)
    && (s.buffer == [] || (s.buffer == s.sent && |s.sent| == 1))
  }

  predicate IsPast(l: LoopPc) {
    l == Exiting || l == Sending || l == Closing || l == Ended
  }

  /** When executions are waited for, the only one in flight is the one waited for. */
  predicate SerialInv(s: State) {
    Waits(s.mode) ==>
      && (forall e | 0 <= e < |s.execs| && !s.execs[e].Finished? :: s.loop == Waiting(e))
      && (s.loop.Waiting? ==> s.loop.e < |s.execs|)
      && (s.loop == Initial ==> s.execs == [])
      && (s.mode == RunOnce ==> |s.execs| <= 1 && s.loop != Repeating)
  }

  /** The execution has stored its error. */
  predicate HasFailed(x: ExecPc) {
    x == Reported || x == Notifying(true) || x == Finished(true)
  }

  /** The context is cancelled only after an error has been stored, no stored error is ever
      withdrawn, and a loop that has left without a finished execution has been cancelled. */
  predicate ErrorInv(s: State) {
    && (s.ctxDone ==> s.err.Some?)
    && (s.holder == ByCaller(Stored) ==> s.err.Some?)
    && (forall e | 0 <= e < |s.execs| && HasFailed(s.execs[e]) :: s.err.Some?)
    && (IsPast(s.loop) && (s.mode != RunOnce || s.execs == []) ==> s.ctxDone)
    && (s.err == Some(TaskError) ==> exists e :: 0 <= e < |s.execs| && HasFailed(s.execs[e]))
    && (!Waits(s.mode) ==> !s.loop.Waiting?)
  }

  /** What the value that was sent says. */
  predicate ValueInv(s: State) {
    && (s.sent == [None] ==> s.mode == RunOnce && s.execs == [Finished(false)])
    && (s.sent == [Some(TaskError)] ==> exists e :: 0 <= e < |s.execs| && HasFailed(s.execs[e]))
  }

  predicate Inv(s: State) {
    MutexInv(s) && DoneInv(s) && SerialInv(s) && ErrorInv(s) && ValueInv(s)
  }

  lemma InitInv(s: State)
    requires Init(s)
    ensures Inv(s)
  {
  }

  lemma StepKeepsMutex(s: State, a: Step)
    requires MutexInv(s) && Enabled(s, a)
    ensures MutexInv(Take(s, a))
  {
  }

  lemma StepKeepsDone(s: State, a: Step)
    requires DoneInv(s) && Enabled(s, a)
    ensures DoneInv(Take(s, a))
  {
  }

  lemma StepKeepsSerial(s: State, a: Step)
    requires SerialInv(s) && Enabled(s, a)
    ensures SerialInv(Take(s, a))
  {
  }

  /** An execution that has failed stays failed, under the same number. */
  lemma FailureStays(s: State, a: Step, e: nat)
    requires Enabled(s, a) && e < |s.execs| && HasFailed(s.execs[e])
    ensures e < |Take(s, a).execs| && HasFailed(Take(s, a).execs[e])
  {
  }

  lemma StepKeepsError(s: State, a: Step)
    requires SerialInv(s) && ErrorInv(s) && Enabled(s, a)
    ensures ErrorInv(Take(s, a))
  {
    if a.StoreError? {
      assert HasFailed(Take(s, a).execs[a.e]);
    } else if s.err == Some(TaskError) {
      var e :| 0 <= e < |s.execs| && HasFailed(s.execs[e]);
      FailureStays(s, a, e);
    }
  }

  lemma StepKeepsValue(s: State, a: Step)
    requires DoneInv(s) && SerialInv(s) && ErrorInv(s) && ValueInv(s) && Enabled(s, a)
    ensures ValueInv(Take(s, a))
  {
    if a == Send {
      SendKeepsValue(s);
    } else if s.sent == [Some(TaskError)] {
      var e :| 0 <= e < |s.execs| && HasFailed(s.execs[e]);
      FailureStays(s, a, e);
    }
  }

  lemma SendKeepsValue(s: State)
    requires DoneInv(s) && SerialInv(s) && ErrorInv(s) && Enabled(s, Send)
    ensures ValueInv(Take(s, Send))
  {
    assert s.sent + [s.err] == [s.err];
    if s.err == None {
      assert s.execs == [s.execs[0]];
      assert s.execs[0] == Finished(false);
    }
  }

  lemma StepKeepsInv(s: State, a: Step)
    requires Inv(s) && Enabled(s, a)
    ensures Inv(Take(s, a))
  {
    StepKeepsMutex(s, a);
    StepKeepsDone(s, a);
    StepKeepsSerial(s, a);
    StepKeepsError(s, a);
    StepKeepsValue(s, a);
  }

  /***************************** Runs *****************************/

  /** The steps of `run` can be taken one after another from `s`. */
  predicate Runs(s: State, run: seq<Step>)
    decreases |run|
  {
    run == [] || (Enabled(s, run[0]) && Runs(Take(s, run[0]), run[1..]))
  }

  function After(s: State, run: seq<Step>): State
    requires Runs(s, run)
    decreases |run|
  {
    if run == [] then s else After(Take(s, run[0]), run[1..])
  }

  lemma {:induction false} RunKeepsInv(s: State, run: seq<Step>)
    requires Inv(s) && Runs(s, run)
    ensures Inv(After(s, run)) && After(s, run).mode == s.mode
    decreases |run|
  {
    if run != [] {
      StepKeepsInv(s, run[0]);
      RunKeepsInv(Take(s, run[0]), run[1..]);
    }
  }

  predicate InFlight(s: State, e: nat) {
    e < |s.execs| && !s.execs[e].Finished?
  }

  ghost predicate NeverOverlaps(s: State) {
    forall e: nat, f: nat | InFlight(s, e) && InFlight(s, f) :: e == f
  }

  ghost predicate SignalledIdle(s: State) {
    s.sent != [] ==> forall e: nat | e < |s.execs| :: !InFlight(s, e)
  }

  /** In every run of a run-once or fixed-delay task, in whatever order its goroutines, its
      callers and its receiver take their steps: executions never overlap, none is in
      flight once the done channel has been signalled, and a run-once task executes at most
      once. */
  lemma SerialRuns(s: State, run: seq<Step>)
    requires Init(s) && Runs(s, run) && (s.mode == RunOnce || s.mode == FixedDelay)
    ensures NeverOverlaps(After(s, run)) && SignalledIdle(After(s, run))
    ensures s.mode == RunOnce ==> |After(s, run).execs| <= 1
  {
    InitInv(s);
    RunKeepsInv(s, run);
  }

  /** In every run of every mode: at most one value is sent, the channel is closed once and
      only after that; the value is nil only for a run-once task that executed without
      failing, and a task error only if an execution failed. */
  lemma OneSignal(s: State, run: seq<Step>)
    requires Init(s) && Runs(s, run)
    ensures var t := After(s, run);
      && |t.sent| <= 1 && t.closes <= |t.sent|
      && (t.loop == Ended <==> t.closes == 1)
      && (t.sent == [None] ==> t.mode == RunOnce && t.execs == [Finished(false)])
      && (t.sent == [Some(TaskError)] ==> exists e :: 0 <= e < |t.execs| && HasFailed(t.execs[e]))
  {
    InitInv(s);
    RunKeepsInv(s, run);
  }

  /** The sender never blocks on the done channel while it holds the mutex. */
  lemma SendNeverBlocks(s: State, run: seq<Step>)
    requires Init(s) && Runs(s, run) && After(s, run).loop == Sending
    ensures Enabled(After(s, run), Send)
  {
    InitInv(s);
    RunKeepsInv(s, run);
  }

  /** Without a call of Cancel the cancellation error is neither stored nor sent. */
  lemma {:induction false} CanceledOnlyByCancel(s: State, run: seq<Step>)
    requires Runs(s, run) && CancelStore !in run
    requires s.err != Some(Canceled) && Some(Canceled) !in s.sent
    ensures After(s, run).err != Some(Canceled) && Some(Canceled) !in After(s, run).sent
    decreases |run|
  {
    if run != [] {
      var t := Take(s, run[0]);
      assert t.err != Some(Canceled) && Some(Canceled) !in t.sent;
      CanceledOnlyByCancel(t, run[1..]);
    }
  }

  /** The execution has failed and its error has been dealt with. */
  predicate Handled(x: ExecPc) {
    x == Notifying(true) || x == Finished(true)
  }

  ghost predicate SomeHandled(s: State) {
    exists e :: 0 <= e < |s.execs| && Handled(s.execs[e])
  }

  lemma StepHandles(s: State, a: Step)
    requires Enabled(s, a)
    ensures SomeHandled(Take(s, a)) <==> SomeHandled(s) || a.FinishHandling?
  {
    var t := Take(s, a);
    if e :| 0 <= e < |s.execs| && Handled(s.execs[e]) {
      assert Handled(t.execs[e]);
    }
    if a.FinishHandling? {
      assert Handled(t.execs[a.e]);
    }
    if e :| 0 <= e < |t.execs| && Handled(t.execs[e]) && !a.FinishHandling? {
      assert e < |s.execs| && Handled(s.execs[e]);
    }
  }

  lemma {:induction false} CancelledBy(s: State, run: seq<Step>)
    requires Runs(s, run) && (s.ctxDone <==> s.cancelOnError && SomeHandled(s))
    ensures var t := After(s, run);
            t.ctxDone <==> CancelDone in run || (t.cancelOnError && SomeHandled(t))
    ensures After(s, run).cancelOnError == s.cancelOnError
    decreases |run|
  {
    if run != [] {
      var t := Take(s, run[0]);
      StepHandles(s, run[0]);
      if run[0] == CancelDone {
        StaysCancelled(t, run[1..]);
      } else {
        CancelledBy(t, run[1..]);
      }
    }
  }

  lemma {:induction false} StaysCancelled(s: State, run: seq<Step>)
    requires Runs(s, run) && s.ctxDone
    ensures After(s, run).ctxDone && After(s, run).cancelOnError == s.cancelOnError
    decreases |run|
  {
    if run != [] {
      StaysCancelled(Take(s, run[0]), run[1..]);
    }
  }

  /** In every run the context is cancelled exactly if a caller of Cancel has done so, or an
      error has been dealt with and the task is to be cancelled on errors. */
  lemma CancelledExactly(s: State, run: seq<Step>)
    requires Init(s) && Runs(s, run)
    ensures var t := After(s, run);
            t.ctxDone <==> CancelDone in run || (s.cancelOnError && SomeHandled(t))
  {
    CancelledBy(s, run);
  }

  /** The execution is past its function; whether that failed. */
  predicate IsOver(x: ExecPc) {
    x.Notifying? || x.Finished?
  }

  predicate IsFailing(x: ExecPc) {
    x == Failing || x == Handling || x == Reported || (IsOver(x) && x.failed)
  }

  lemma {:induction false} FailedBy(s: State, run: seq<Step>, e: nat)
    requires Runs(s, run) && e < |After(s, run).execs|
    ensures IsFailing(After(s, run).execs[e]) <==> (e < |s.execs| && IsFailing(s.execs[e])) || Fail(e) in run
    decreases |run|
  {
    if run != [] {
      var t := Take(s, run[0]);
      FailedBy(t, run[1..], e);
      if e < |s.execs| {
        assert IsFailing(t.execs[e]) <==> IsFailing(s.execs[e]) || run[0] == Fail(e);
      } else {
        assert e < |t.execs| ==> !IsFailing(t.execs[e]);
      }
    }
  }

  /** In every run an execution that is over counts as failed exactly if its function
      returned an error or panicked. */
  lemma FailedExactly(s: State, run: seq<Step>, e: nat)
    requires Init(s) && Runs(s, run) && e < |After(s, run).execs| && IsOver(After(s, run).execs[e])
    ensures After(s, run).execs[e].failed <==> Fail(e) in run
  {
    FailedBy(s, run, e);
  }

  /** The step stores an error, and which. */
  function Stores(a: Step): Option<Err> {
    match a
    case StoreError(_) => Some(TaskError)
    case CancelStore => Some(Canceled)
    case _ => None
  }

  function LastStored(run: seq<Step>): Option<Err> {
    if run == [] then None
    else
      var n := |run| - 1;
      if Stores(run[n]).Some? then Stores(run[n]) else LastStored(run[..n])
  }

  lemma {:induction false} StoredBy(s: State, run: seq<Step>)
    requires Runs(s, run)
    ensures After(s, run).err == if LastStored(run).Some? then LastStored(run) else s.err
    decreases |run|
  {
    if run != [] {
      StoredBy(Take(s, run[0]), run[1..]);
      LastOfTail(run);
    }
  }

  lemma {:induction false} LastOfTail(run: seq<Step>)
    requires run != []
    ensures LastStored(run) == if LastStored(run[1..]).Some? then LastStored(run[1..]) else Stores(run[0])
    decreases |run|
  {
    var n := |run| - 1;
    if n > 0 {
      LastOfTail(run[..n]);
      assert run[1..][..n - 1] == run[..n][1..] && run[1..][n - 1] == run[n];
    }
  }

  /** The error that is kept is the one stored last; what is sent is the error at that time,
      so the value on the channel is the error stored last before it was sent. */
  lemma LastErrorWins(s: State, before: seq<Step>)
    requires Init(s) && Runs(s, before) && Enabled(After(s, before), Send)
    ensures Take(After(s, before), Send).sent == [LastStored(before)]
  {
    InitInv(s);
    RunKeepsInv(s, before);
    StoredBy(s, before);
  }

  /** A run-once task that nobody cancels signals nil exactly if its execution succeeded,
      and its own error exactly if the execution failed. */
  lemma RunOnceVerdict(s: State, run: seq<Step>)
    requires Init(s) && s.mode == RunOnce && Runs(s, run) && CancelStore !in run && After(s, run).sent != []
    ensures var t := After(s, run);
      && (t.sent == [None] <==> t.execs == [Finished(false)])
      && (t.sent == [Some(TaskError)] <==> t.execs == [Finished(true)])
  {
    InitInv(s);
    RunKeepsInv(s, run);
    CanceledOnlyByCancel(s, run);
    Verdict(After(s, run));
  }

  lemma Verdict(t: State)
    requires Inv(t) && t.mode == RunOnce && t.sent != [] && Some(Canceled) !in t.sent && t.err != Some(Canceled)
    ensures t.sent == [None] <==> t.execs == [Finished(false)]
    ensures t.sent == [Some(TaskError)] <==> t.execs == [Finished(true)]
  {
    OnlyExecution(t);
    assert t.sent == [t.sent[0]];
    assert t.sent[0] in t.sent;
    match t.sent[0]
    case None =>
    case Some(Canceled) =>
    case Some(TaskError) =>
      var e :| 0 <= e < |t.execs| && HasFailed(t.execs[e]);
      assert t.execs == [t.execs[e]];
  }

  /** By the time it has signalled, an execution has either finished or never started. */
  lemma OnlyExecution(t: State)
    requires Inv(t) && t.mode == RunOnce && t.sent != []
    ensures t.execs == [] || (exists b :: t.execs == [Finished(b)])
  {
    if t.execs != [] {
      assert t.execs == [t.execs[0]];
      assert !InFlight(t, 0);
      assert t.execs[0] == Finished(t.execs[0].failed);
    }
  }

  /***************************** The other two modes *****************************/

  lemma RunStep(s: State, a: Step, rest: seq<Step>)
    requires Enabled(s, a) && Runs(Take(s, a), rest)
    ensures Runs(s, [a] + rest) && After(s, [a] + rest) == After(Take(s, a), rest)
  {
    assert ([a] + rest)[1..] == rest;
  }

  /** At a fixed rate and with dynamic triggers two executions can overlap. */
  lemma Overlaps(s: State) returns (run: seq<Step>)
    requires Init(s) && (s.mode == FixedRate || s.mode == Dynamic)
    ensures Runs(s, run) && !NeverOverlaps(After(s, run))
  {
    var t := Take(s, Fire);
    var u := Take(t, Fire);
    run := [Fire] + ([Fire] + []);
    RunStep(t, Fire, []);
    RunStep(s, Fire, [Fire] + []);
    assert InFlight(u, 0) && InFlight(u, 1);
  }

  lemma Cancels(s: State) returns (run: seq<Step>, t: State)
    requires s.holder == Free && s.loop == Repeating && s.buffer == []
    ensures Runs(s, run) && After(s, run) == t
    ensures t.execs == s.execs && t.sent == s.sent + [Some(Canceled)]
  {
    var s1 := Take(s, CancelLock);
    var s2 := Take(s1, CancelStore);
    var s3 := Take(s2, CancelDone);
    var s4 := Take(s3, StopLoop);
    var s5 := Take(s4, LockToExit);
    t := Take(s5, Send);
    RunStep(s5, Send, []);
    RunStep(s4, LockToExit, [Send] + []);
    RunStep(s3, StopLoop, [LockToExit] + ([Send] + []));
    RunStep(s2, CancelDone, [StopLoop] + ([LockToExit] + ([Send] + [])));
    RunStep(s1, CancelStore, [CancelDone] + ([StopLoop] + ([LockToExit] + ([Send] + []))));
    run := [CancelLock] + ([CancelStore] + ([CancelDone] + ([StopLoop] + ([LockToExit] + ([Send] + [])))));
    RunStep(s, CancelLock, [CancelStore] + ([CancelDone] + ([StopLoop] + ([LockToExit] + ([Send] + [])))));
  }

  /** There the done channel can be signalled while an execution is still running. */
  lemma SignalsEarly(s: State) returns (run: seq<Step>)
    requires Init(s) && (s.mode == FixedRate || s.mode == Dynamic)
    ensures Runs(s, run) && !SignalledIdle(After(s, run))
  {
    var t := Take(s, Fire);
    var rest, u := Cancels(t);
    RunStep(s, Fire, rest);
    run := [Fire] + rest;
    assert InFlight(u, 0);
  }

  /** Both guarantees hold of all the runs of a task exactly when its mode waits for every
      execution. */
  lemma SerialExactly(s: State)
    requires Init(s)
    ensures s.mode == RunOnce || s.mode == FixedDelay <==> forall run | Runs(s, run) :: NeverOverlaps(After(s, run))
    ensures s.mode == RunOnce || s.mode == FixedDelay <==> forall run | Runs(s, run) :: SignalledIdle(After(s, run))
  {
    if s.mode == RunOnce || s.mode == FixedDelay {
      forall run | Runs(s, run)
        ensures NeverOverlaps(After(s, run)) && SignalledIdle(After(s, run))
      {
        SerialRuns(s, run);
      }
    } else {
      var r := Overlaps(s);
      var q := SignalsEarly(s);
    }
  }

  /***************************** What can happen *****************************/

  lemma {:induction false} RunConcat(s: State, a: seq<Step>, b: seq<Step>)
    requires Runs(s, a) && Runs(After(s, a), b)
    ensures Runs(s, a + b) && After(s, a + b) == After(After(s, a), b)
    decreases |a|
  {
    if a == [] {
      assert a + b == b;
    } else {
      RunConcat(Take(s, a[0]), a[1..], b);
      assert (a + b)[1..] == a[1..] + b;
    }
  }

  /** One more execution that succeeds, from the initial state or from one that is repeating. */
  lemma Again(s: State) returns (run: seq<Step>, t: State)
    requires s.loop == Initial || s.loop == Repeating
    ensures Runs(s, run) && After(s, run) == t && CancelStore !in run
    ensures t.execs == s.execs + [Finished(false)] && t.err == s.err && t.holder == s.holder
    ensures t.buffer == s.buffer && t.sent == s.sent
    ensures t.mode == s.mode && t.loop == if s.mode == RunOnce then Exiting else Repeating
  {
    var e := |s.execs|;
    var s1 := Take(s, Fire);
    var s2 := Take(s1, Succeed(e));
    var s3 := Take(s2, Notify(e));
    var last := if Waits(s.mode) then [WaitOver] + [] else [];
    t := if Waits(s.mode) then Take(s3, WaitOver) else s3;
    if Waits(s.mode) {
      RunStep(s3, WaitOver, []);
    }
    RunStep(s2, Notify(e), last);
    RunStep(s1, Succeed(e), [Notify(e)] + last);
    run := [Fire] + ([Succeed(e)] + ([Notify(e)] + last));
    RunStep(s, Fire, [Succeed(e)] + ([Notify(e)] + last));
  }

  /** A task that is not to run once can execute any number of times. */
  lemma {:induction false} Repeats(s: State, n: nat) returns (run: seq<Step>)
    requires Init(s) && s.mode != RunOnce
    ensures Runs(s, run) && |After(s, run).execs| == n
    ensures After(s, run).loop == if n == 0 then Initial else Repeating
    ensures After(s, run).mode == s.mode
  {
    if n == 0 {
      run := [];
    } else {
      var before := Repeats(s, n - 1);
      var more, t := Again(After(s, before));
      RunConcat(s, before, more);
      run := before + more;
    }
  }

  /** Signalling once the loop has left. */
  lemma Signals(s: State) returns (run: seq<Step>)
    requires s.loop == Exiting && s.holder == Free && s.buffer == []
    ensures Runs(s, run) && After(s, run).sent == s.sent + [s.err]
  {
    var s1 := Take(s, LockToExit);
    RunStep(s1, Send, []);
    run := [LockToExit] + ([Send] + []);
    RunStep(s, LockToExit, [Send] + []);
  }

  /** An execution that fails. */
  lemma FailsOnce(s: State) returns (run: seq<Step>, t: State)
    requires Init(s) && s.mode == RunOnce
    ensures Runs(s, run) && After(s, run) == t
    ensures t.loop == Exiting && t.holder == Free && t.buffer == [] && t.sent == [] && t.err == Some(TaskError)
  {
    var s1 := Take(s, Fire);
    var s2 := Take(s1, Fail(0));
    var s3 := Take(s2, LockToHandle(0));
    var s4 := Take(s3, StoreError(0));
    var s5 := Take(s4, FinishHandling(0));
    var s6 := Take(s5, Notify(0));
    t := Take(s6, WaitOver);
    RunStep(s6, WaitOver, []);
    RunStep(s5, Notify(0), [WaitOver] + []);
    RunStep(s4, FinishHandling(0), [Notify(0)] + ([WaitOver] + []));
    RunStep(s3, StoreError(0), [FinishHandling(0)] + ([Notify(0)] + ([WaitOver] + [])));
    RunStep(s2, LockToHandle(0), [StoreError(0)] + ([FinishHandling(0)] + ([Notify(0)] + ([WaitOver] + []))));
    RunStep(s1, Fail(0), [LockToHandle(0)] + ([StoreError(0)] + ([FinishHandling(0)] + ([Notify(0)] + ([WaitOver] + [])))));
    var rest := [Fail(0)] + ([LockToHandle(0)] + ([StoreError(0)] + ([FinishHandling(0)] + ([Notify(0)] + ([WaitOver] + [])))));
    RunStep(s, Fire, rest);
    run := [Fire] + rest;
  }

  /** A run-once task can end either way. */
  lemma EitherVerdict(s: State) returns (good: seq<Step>, bad: seq<Step>)
    requires Init(s) && s.mode == RunOnce
    ensures Runs(s, good) && After(s, good).sent == [None]
    ensures Runs(s, bad) && After(s, bad).sent == [Some(TaskError)]
  {
    var once, t := Again(s);
    var signal := Signals(t);
    RunConcat(s, once, signal);
    good := once + signal;
    once, t := FailsOnce(s);
    signal := Signals(t);
    RunConcat(s, once, signal);
    bad := once + signal;
  }

  /***************************** Shutdown *****************************/

  /** The step that brings a task closer to its end. */
  function Urge(s: State): (a: Step)
    requires Inv(s) && s.loop != Ended
    ensures Enabled(s, a)
  {
    match s.holder
    case ByExec(e) => if s.execs[e] == Handling then StoreError(e) else FinishHandling(e)
    case ByCaller(Locked) => CancelStore
    case ByCaller(Stored) => CancelDone
    case ByLoop => if s.loop == Sending then Send else Close
    case Free =>
      match s.loop
      case Exiting => LockToExit
      case Waiting(e) =>
        if s.execs[e] == Running then Succeed(e) else if s.execs[e] == Failing then LockToHandle(e)
        else if s.execs[e].Notifying? then Notify(e) else WaitOver
      case _ => if s.ctxDone then StopLoop else CancelLock
  }

  function LoopRank(l: LoopPc): nat {
    match l
    case Waiting(_) => 5
    case Initial => 4
    case Repeating => 4
    case Exiting => 3
    case Sending => 2
    case Closing => 1
    case Ended => 0
  }

  function ExecRank(x: ExecPc): nat {
    match x
    case Running => 5
    case Failing => 4
    case Handling => 3
    case Reported => 2
    case Notifying(_) => 1
    case Finished(_) => 0
  }

  function HolderRank(s: State): nat
    requires s.holder.ByExec? ==> s.holder.e < |s.execs|
  {
    match s.holder
    case ByLoop => 8
    case ByExec(e) => if s.execs[e] == Handling then 7 else 6
    case Free => 5
    case ByCaller(Locked) => if s.ctxDone then 7 else 4
    case ByCaller(Stored) => if s.ctxDone then 6 else 3
  }

  function Distance(s: State): nat
    requires Inv(s)
  {
    200 * LoopRank(s.loop)
    + (if s.loop.Waiting? then 20 * ExecRank(s.execs[s.loop.e]) else 0)
    + (if s.ctxDone then 0 else 10)
    + HolderRank(s)
  }

  lemma UrgeGetsCloser(s: State)
    requires Inv(s) && s.loop != Ended
    ensures Inv(Take(s, Urge(s))) && Distance(Take(s, Urge(s))) < Distance(s)
  {
    StepKeepsInv(s, Urge(s));
    match s.holder
    case ByExec(e) => ExecGetsCloser(s, e);
    case ByCaller(_) => CallerGetsCloser(s);
    case ByLoop => LoopGetsCloser(s);
    case Free => FreeGetsCloser(s);
  }

  lemma ExecGetsCloser(s: State, e: nat)
    requires Inv(s) && s.holder == ByExec(e) && s.loop != Ended && Inv(Take(s, Urge(s)))
    ensures Distance(Take(s, Urge(s))) < Distance(s)
  {
  }

  lemma CallerGetsCloser(s: State)
    requires Inv(s) && s.holder.ByCaller? && s.loop != Ended && Inv(Take(s, Urge(s)))
    ensures Distance(Take(s, Urge(s))) < Distance(s)
  {
  }

  lemma LoopGetsCloser(s: State)
    requires Inv(s) && s.holder == ByLoop && s.loop != Ended && Inv(Take(s, Urge(s)))
    ensures Distance(Take(s, Urge(s))) < Distance(s)
  {
  }

  lemma FreeGetsCloser(s: State)
    requires Inv(s) && s.holder == Free && s.loop != Ended && Inv(Take(s, Urge(s)))
    ensures Distance(Take(s, Urge(s))) < Distance(s)
  {
  }

  lemma {:induction false} CanEnd(s: State) returns (run: seq<Step>)
    requires Inv(s)
    ensures Runs(s, run) && After(s, run).loop == Ended
    decreases Distance(s)
  {
    if s.loop == Ended {
      run := [];
    } else {
      UrgeGetsCloser(s);
      var rest := CanEnd(Take(s, Urge(s)));
      RunStep(s, Urge(s), rest);
      run := [Urge(s)] + rest;
    }
  }

  /** No run can lock up: from every state that can be reached, whoever holds the mutex and
      whatever is in flight, a task can still end, with one value sent and the channel
      closed. */
  lemma ShutdownAlwaysPossible(s: State, run: seq<Step>)
    requires Init(s) && Runs(s, run)
    ensures exists more :: Runs(After(s, run), more) && After(After(s, run), more).closes == 1 && |After(After(s, run), more).sent| == 1
  {
    InitInv(s);
    RunKeepsInv(s, run);
    var more := CanEnd(After(s, run));
    RunKeepsInv(After(s, run), more);
  }
}
