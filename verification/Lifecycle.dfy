/** The component life cycle of rtt/base/TaskCore.cpp and the part of rtt/ExecutionEngine.cpp that
    runs the user's hooks, as a state machine whose hooks may return true, return false or throw,
    and may call `error()`. */
module Lifecycle {

  datatype TaskState = Init | PreOperational | FatalError | Exception | Stopped | Running | RunTimeError

  /** `mTaskState >= Running`: the states are compared in the order of their declaration. */
  predicate IsRunning(s: TaskState) {
    s == Running || s == RunTimeError
  }

  /** `mTaskState >= Stopped`. */
  predicate IsConfigured(s: TaskState) {
    s == Stopped || IsRunning(s)
  }

  datatype Hook = ConfigureHook | CleanupHook | StartHook | StopHook
                | PrepareUpdateHook | UpdateHook | ErrorHook | ExceptionHook

  datatype Result = True | False | Thrown

  datatype Call = Call(hook: Hook, result: Result)

  /** How one call of a hook ends, and whether it called `error()` before. */
  datatype Answer = Answer(result: Result, error: bool)

  /** The user's code: the answer of the n-th hook call of a run, if it is to that hook. */
  type User = (nat, Hook) -> Answer

  /** `mTaskState`, `mTargetState`, `mInitialState` and the hooks called so far. */
  datatype Core = Core(task: TaskState, target: TaskState, initial: TaskState, trace: seq<Call>)

  function Created(initial: TaskState): Core {
    Core(initial, initial, initial, [])
  }

  // ---------------------------------------------------------------- the operations

  /** `error()`. */
  function Error(s: Core): Core {
    if !IsRunning(s.target) then s else s.(task := RunTimeError, target := RunTimeError)
  }

  /** `fatal()`. */
  function Fatal(s: Core): Core {
    s.(task := FatalError, target := FatalError)
  }

  function CallHook(s: Core, hook: Hook, user: User): (Core, Result) {
    var answer := user(|s.trace|, hook);
    var s := s.(trace := s.trace + [Call(hook, answer.result)]);
    (if answer.error then Error(s) else s, answer.result)
  }

  /** `exception()`. */
  function RaiseException(s: Core, user: User): Core {
    var entered := s.(task := Exception, target := Exception);
    if IsRunning(s.task) then
      var stop := CallHook(entered, StopHook, user);
      if stop.1 == Thrown then Fatal(stop.0) else CleanupAndReport(stop.0, s.task, user)
    else CleanupAndReport(entered, s.task, user)
  }

  function CleanupAndReport(s: Core, copy: TaskState, user: User): Core {
    if IsConfigured(copy) && s.initial == PreOperational then
      var cleanup := CallHook(s, CleanupHook, user);
      if cleanup.1 == Thrown then Fatal(cleanup.0) else Report(cleanup.0, user)
    else Report(s, user)
  }

  function Report(s: Core, user: User): Core {
    var exception := CallHook(s, ExceptionHook, user);
    if exception.1 == Thrown then Fatal(exception.0) else exception.0
  }

  function Configure(s: Core, user: User): (Core, bool) {
    if s.task != Stopped && s.task != PreOperational then (s, false)
    else
      var hook := CallHook(s.(target := Stopped), ConfigureHook, user);
      match hook.1
      case True => (hook.0.(task := Stopped), true)
      case False => (hook.0.(task := PreOperational, target := PreOperational), false)
      case Thrown => (RaiseException(hook.0, user), false)
  }

  function Cleanup(s: Core, user: User): (Core, bool) {
    if s.task != Stopped then (s, false)
    else
      var hook := CallHook(s.(target := PreOperational), CleanupHook, user);
      if hook.1 == Thrown then (RaiseException(hook.0, user), false)
      else (hook.0.(task := PreOperational), true)
  }

  function Start(s: Core, user: User): (Core, bool) {
    if s.task != Stopped then (s, false)
    else
      var hook := CallHook(s.(target := Running), StartHook, user);
      match hook.1
      case True => (hook.0.(task := Running), true)
      case False => (hook.0.(target := Stopped), false)
      case Thrown => (RaiseException(hook.0, user), false)
  }

  /** `stop()`; `granted` is the answer of `stopTask`. */
  function Stop(s: Core, granted: bool, user: User): (Core, bool) {
    if !IsRunning(s.task) then (s, false)
    else if !granted then (s.(target := s.task), false)
    else
      var hook := CallHook(s.(target := Stopped), StopHook, user);
      if hook.1 == Thrown then (RaiseException(hook.0, user), false)
      else (hook.0.(task := Stopped), true)
  }

  function Recover(s: Core): (Core, bool) {
    if s.task == Exception then (s.(task := s.initial, target := s.initial), true)
    else if s.task == RunTimeError then (s.(task := Running, target := Running), true)
    else (s, false)
  }

  /** What `processChildren` does for one component. */
  function Update(s: Core, user: User): Core {
    HandleError(if s.task == Running && s.target == Running then CallUpdate(s, user) else s, user)
  }

  function CallUpdate(s: Core, user: User): Core {
    var prepare := CallHook(s, PrepareUpdateHook, user);
    if prepare.1 == Thrown then RaiseException(prepare.0, user)
    else
      var update := CallHook(prepare.0, UpdateHook, user);
      if update.1 == Thrown then RaiseException(update.0, user) else update.0
  }

  function HandleError(s: Core, user: User): Core {
    if s.task == RunTimeError then
      var error := CallHook(s, ErrorHook, user);
      if error.1 == Thrown then RaiseException(error.0, user) else error.0
    else s
  }

  // ---------------------------------------------------------------- runs

  datatype Operation = DoConfigure | DoCleanup | DoStart | DoStop(granted: bool) | DoRecover | DoUpdate
                     | DoError | DoException | DoFatal

  function Perform(s: Core, op: Operation, user: User): Core {
    match op
    case DoConfigure => Configure(s, user).0
    case DoCleanup => Cleanup(s, user).0
    case DoStart => Start(s, user).0
    case DoStop(granted) => Stop(s, granted, user).0
    case DoRecover => Recover(s).0
    case DoUpdate => Update(s, user)
    case DoError => Error(s)
    case DoException => RaiseException(s, user)
    case DoFatal => Fatal(s)
  }

  function Run(s: Core, ops: seq<Operation>, user: User): Core
    decreases |ops|
  {
    if ops == [] then s else Perform(Run(s, ops[..|ops| - 1], user), ops[|ops| - 1], user)
  }

  // ---------------------------------------------------------------- reading a trace

  /** Among the first n calls, the last one of `on` or `off` is a call of `on` that returned true. */
  predicate Since(trace: seq<Call>, n: nat, on: Hook, off: Hook)
    requires n <= |trace|
  {
    if n == 0 then false
    else
      var last := trace[n - 1];
      if last.hook == on then last.result == True
      else if last.hook == off then false
      else Since(trace, n - 1, on, off)
  }

  predicate Started(trace: seq<Call>, n: nat)
    requires n <= |trace|
  {
    Since(trace, n, StartHook, StopHook)
  }

  predicate Configured(trace: seq<Call>, n: nat)
    requires n <= |trace|
  {
    Since(trace, n, ConfigureHook, CleanupHook)
  }

  /** The n-th call is a call of `hook` that threw. */
  predicate Threw(trace: seq<Call>, n: nat, hook: Hook)
    requires n <= |trace|
  {
    n > 0 && trace[n - 1] == Call(hook, Thrown)
  }

  /** `hook` may be called after the first n calls, in a component created in state `initial`.  Unless
      `all`, only the order of configuring and starting is looked at. */
  predicate MayCall(trace: seq<Call>, n: nat, hook: Hook, initial: TaskState, all: bool)
    requires n <= |trace|
  {
    match hook
    case PrepareUpdateHook => all ==> Started(trace, n)
    case UpdateHook => all ==> Started(trace, n)
    case ErrorHook => all ==> Started(trace, n)
    case StopHook => all ==> Started(trace, n) || Threw(trace, n, StopHook)
    case StartHook => initial == PreOperational ==> Configured(trace, n)
    case CleanupHook => Configured(trace, n) || initial != PreOperational
                        || Threw(trace, n, CleanupHook) || Threw(trace, n, ConfigureHook)
    case _ => true
  }

  predicate Legal(trace: seq<Call>, n: nat, initial: TaskState, all: bool)
    requires n <= |trace|
  {
    n == 0 || (Legal(trace, n - 1, initial, all) && MayCall(trace, n - 1, trace[n - 1].hook, initial, all))
  }

  lemma {:induction false} LegalAt(trace: seq<Call>, n: nat, initial: TaskState, all: bool, i: nat)
    requires n <= |trace| && Legal(trace, n, initial, all) && i < n
    ensures MayCall(trace, i, trace[i].hook, initial, all)
  {
    if i < n - 1 {
      LegalAt(trace, n - 1, initial, all, i);
    }
  }

  /** The j-th call is the last one of `on` or `off` before the i-th, and it is one of `on` that
      returned true. */
  ghost predicate LastOn(trace: seq<Call>, i: nat, j: nat, on: Hook, off: Hook)
    requires i <= |trace|
  {
    j < i && trace[j] == Call(on, True) && forall k | j < k < i :: trace[k].hook != on && trace[k].hook != off
  }

  lemma SinceMeans(trace: seq<Call>, n: nat, on: Hook, off: Hook)
    requires n <= |trace| && on != off
    ensures Since(trace, n, on, off) <==> exists j :: LastOn(trace, n, j, on, off)
  {
    if Since(trace, n, on, off) {
      var j := SinceWitness(trace, n, on, off);
    }
    forall j | LastOn(trace, n, j, on, off) ensures Since(trace, n, on, off) {
      SinceFrom(trace, n, j, on, off);
    }
  }

  lemma {:induction false} SinceWitness(trace: seq<Call>, n: nat, on: Hook, off: Hook) returns (j: nat)
    requires n <= |trace| && Since(trace, n, on, off) && on != off
    ensures LastOn(trace, n, j, on, off)
  {
    j := n - 1;
    if trace[j].hook != on {
      j := SinceWitness(trace, j, on, off);
    }
  }

  lemma {:induction false} SinceFrom(trace: seq<Call>, n: nat, j: nat, on: Hook, off: Hook)
    requires n <= |trace| && LastOn(trace, n, j, on, off)
    ensures Since(trace, n, on, off)
  {
    if j < n - 1 {
      SinceFrom(trace, n - 1, j, on, off);
    }
  }

  lemma {:induction false} SinceOfPrefix(trace: seq<Call>, c: Call, n: nat, on: Hook, off: Hook)
    requires n <= |trace|
    ensures Since(trace + [c], n, on, off) == Since(trace, n, on, off)
  {
    if n > 0 {
      SinceOfPrefix(trace, c, n - 1, on, off);
    }
  }

  lemma {:induction false} LegalOfPrefix(trace: seq<Call>, c: Call, n: nat, initial: TaskState, all: bool)
    requires n <= |trace|
    ensures Legal(trace + [c], n, initial, all) == Legal(trace, n, initial, all)
  {
    if n > 0 {
      LegalOfPrefix(trace, c, n - 1, initial, all);
      SinceOfPrefix(trace, c, n - 1, StartHook, StopHook);
      SinceOfPrefix(trace, c, n - 1, ConfigureHook, CleanupHook);
    }
  }

  // ---------------------------------------------------------------- what every operation keeps

  predicate LegalTrace(s: Core, all: bool) {
    Legal(s.trace, |s.trace|, s.initial, all)
  }

  predicate WasStarted(s: Core) {
    Started(s.trace, |s.trace|)
  }

  predicate WasConfigured(s: Core) {
    Configured(s.trace, |s.trace|)
  }

  /** State and target state are the same, but for what an `error()` in `startHook` leaves: Running
      with target RunTimeError if the hook returned true, and the reverse of a failed start. */
  predicate Reached(s: Core, all: bool) {
    || s.task == s.target
    || (s.task == Running && s.target == RunTimeError)
    || (!all && s.task == RunTimeError && s.target == Stopped)
  }

  predicate Inv(s: Core, all: bool) {
    && Reached(s, all)
    && !IsRunning(s.initial)
    && LegalTrace(s, all)
    && (all && IsRunning(s.task) ==> WasStarted(s))
    && (s.initial == PreOperational && IsConfigured(s.task) ==> WasConfigured(s))
  }

  /** A started component is running. */
  predicate Bracketed(s: Core) {
    WasStarted(s) ==> IsRunning(s.task)
  }

  lemma CallKeepsLegal(s: Core, hook: Hook, user: User, all: bool)
    requires LegalTrace(s, all) && MayCall(s.trace, |s.trace|, hook, s.initial, all)
    ensures var r := CallHook(s, hook, user);
      && r.0.trace == s.trace + [Call(hook, r.1)] && r.0.initial == s.initial && LegalTrace(r.0, all)
      && WasStarted(r.0) == (if hook == StartHook then r.1 == True else hook != StopHook && WasStarted(s))
      && WasConfigured(r.0) == (if hook == ConfigureHook then r.1 == True else hook != CleanupHook && WasConfigured(s))
      && (r.1 == Thrown ==> Threw(r.0.trace, |r.0.trace|, hook))
  {
    var c, n := Call(hook, user(|s.trace|, hook).result), |s.trace|;
    LegalOfPrefix(s.trace, c, n, s.initial, all);
    SinceOfPrefix(s.trace, c, n, StartHook, StopHook);
    SinceOfPrefix(s.trace, c, n, ConfigureHook, CleanupHook);
  }

  /** Where `exception()` is called, its hooks may be called. */
  predicate MayRaise(s: Core, all: bool) {
    && (all && IsRunning(s.task) ==> WasStarted(s) || Threw(s.trace, |s.trace|, StopHook))
    && (s.initial == PreOperational && IsConfigured(s.task) ==>
          WasConfigured(s)
          || (s.task == Stopped
              && (Threw(s.trace, |s.trace|, CleanupHook) || Threw(s.trace, |s.trace|, ConfigureHook))))
  }

  /** It ends in Exception or FatalError. */
  lemma RaiseKeeps(s: Core, user: User, all: bool)
    requires LegalTrace(s, all) && !IsRunning(s.initial) && MayRaise(s, all)
    ensures Inv(RaiseException(s, user), all) && RaiseException(s, user).initial == s.initial
    ensures Bracketed(s) ==> !WasStarted(RaiseException(s, user))
  {
    var entered := s.(task := Exception, target := Exception);
    if IsRunning(s.task) {
      CallKeepsLegal(entered, StopHook, user, all);
      var stop := CallHook(entered, StopHook, user);
      if stop.1 != Thrown {
        CleanupKeepsLegal(stop.0, s.task, user, all);
      }
    } else {
      CleanupKeepsLegal(entered, s.task, user, all);
    }
  }

  lemma CleanupKeepsLegal(s: Core, copy: TaskState, user: User, all: bool)
    requires LegalTrace(s, all) && !IsRunning(s.initial) && s.task == s.target == Exception
    requires IsConfigured(copy) && s.initial == PreOperational ==>
      WasConfigured(s) || Threw(s.trace, |s.trace|, CleanupHook) || Threw(s.trace, |s.trace|, ConfigureHook)
    ensures Inv(CleanupAndReport(s, copy, user), all) && CleanupAndReport(s, copy, user).initial == s.initial
    ensures WasStarted(CleanupAndReport(s, copy, user)) == WasStarted(s)
  {
    if IsConfigured(copy) && s.initial == PreOperational {
      CallKeepsLegal(s, CleanupHook, user, all);
      var cleanup := CallHook(s, CleanupHook, user);
      if cleanup.1 != Thrown {
        ReportKeepsLegal(cleanup.0, user, all);
      }
    } else {
      ReportKeepsLegal(s, user, all);
    }
  }

  lemma ReportKeepsLegal(s: Core, user: User, all: bool)
    requires LegalTrace(s, all) && !IsRunning(s.initial) && s.task == s.target == Exception
    ensures Inv(Report(s, user), all) && Report(s, user).initial == s.initial
    ensures WasStarted(Report(s, user)) == WasStarted(s)
  {
    CallKeepsLegal(s, ExceptionHook, user, all);
  }

  /** The answer of a `startHook` that calls `error()` and does not succeed. */
  predicate ErrsAndFails(a: Answer) {
    a.error && a.result != True
  }

  /** The hook of a transition to `target`, and the exception if it throws. */
  lemma HookKeeps(s: Core, target: TaskState, hook: Hook, user: User, all: bool)
    requires Inv(s, all)
    requires match hook
      case ConfigureHook => target == Stopped && (s.task == Stopped || s.task == PreOperational)
      case CleanupHook => target == PreOperational && s.task == Stopped
      case StartHook => target == Running && s.task == Stopped && (all ==> !ErrsAndFails(user(|s.trace|, StartHook)))
      case StopHook => target == Stopped && IsRunning(s.task)
      case _ => false
    ensures var r := CallHook(s.(target := target), hook, user);
      && r.0.trace == s.trace + [Call(hook, r.1)] && r.0.initial == s.initial && LegalTrace(r.0, all)
      && (if hook == StartHook && user(|s.trace|, hook).error then r.0.task == r.0.target == RunTimeError
          else r.0.task == s.task && r.0.target == target)
      && WasStarted(r.0) == (if hook == StartHook then r.1 == True else hook != StopHook && WasStarted(s))
      && WasConfigured(r.0) == (if hook == ConfigureHook then r.1 == True else hook != CleanupHook && WasConfigured(s))
    ensures var r := CallHook(s.(target := target), hook, user); var x := RaiseException(r.0, user);
      r.1 == Thrown ==> Inv(x, all) && x.initial == s.initial && (Bracketed(s) ==> !WasStarted(x))
  {
    CallKeepsLegal(s.(target := target), hook, user, all);
    var r := CallHook(s.(target := target), hook, user);
    if r.1 == Thrown {
      RaiseKeeps(r.0, user, all);
    }
  }

  lemma ConfigureKeeps(s: Core, user: User, all: bool)
    requires Inv(s, all)
    ensures Inv(Configure(s, user).0, all) && Configure(s, user).0.initial == s.initial
    ensures Bracketed(s) ==> Bracketed(Configure(s, user).0)
  {
    if s.task == Stopped || s.task == PreOperational {
      HookKeeps(s, Stopped, ConfigureHook, user, all);
    }
  }

  lemma CleanupKeeps(s: Core, user: User, all: bool)
    requires Inv(s, all)
    ensures Inv(Cleanup(s, user).0, all) && Cleanup(s, user).0.initial == s.initial
    ensures Bracketed(s) ==> Bracketed(Cleanup(s, user).0)
  {
    if s.task == Stopped {
      HookKeeps(s, PreOperational, CleanupHook, user, all);
    }
  }

  lemma StartKeeps(s: Core, user: User, all: bool)
    requires Inv(s, all) && (all ==> StartsWell(s, user))
    ensures Inv(Start(s, user).0, all) && Start(s, user).0.initial == s.initial
    ensures Bracketed(s) ==> Bracketed(Start(s, user).0)
  {
    if s.task == Stopped {
      HookKeeps(s, Running, StartHook, user, all);
    }
  }

  lemma StopKeeps(s: Core, granted: bool, user: User, all: bool)
    requires Inv(s, all)
    ensures Inv(Stop(s, granted, user).0, all) && Stop(s, granted, user).0.initial == s.initial
    ensures Bracketed(s) ==> Bracketed(Stop(s, granted, user).0)
  {
    if IsRunning(s.task) && granted {
      HookKeeps(s, Stopped, StopHook, user, all);
    }
  }

  /** A hook that is called while the component runs. */
  lemma RunningHookKeeps(s: Core, hook: Hook, user: User, all: bool)
    requires Inv(s, all) && IsRunning(s.task) && (s.task == Running ==> s.target == Running)
    requires hook == PrepareUpdateHook || hook == UpdateHook || hook == ErrorHook
    ensures var r := CallHook(s, hook, user);
      && Inv(r.0, all) && IsRunning(r.0.task) && (r.0.task == Running ==> r.0.target == Running)
      && r.0.initial == s.initial && (Bracketed(s) ==> Bracketed(r.0))
      && Inv(RaiseException(r.0, user), all) && RaiseException(r.0, user).initial == s.initial
      && (Bracketed(s) ==> Bracketed(RaiseException(r.0, user)))
  {
    CallKeepsLegal(s, hook, user, all);
    RaiseKeeps(CallHook(s, hook, user).0, user, all);
  }

  lemma CallUpdateKeeps(s: Core, user: User, all: bool)
    requires Inv(s, all) && s.task == s.target == Running
    ensures Inv(CallUpdate(s, user), all) && CallUpdate(s, user).initial == s.initial
    ensures Bracketed(s) ==> Bracketed(CallUpdate(s, user))
  {
    RunningHookKeeps(s, PrepareUpdateHook, user, all);
    var prepare := CallHook(s, PrepareUpdateHook, user);
    if prepare.1 != Thrown {
      RunningHookKeeps(prepare.0, UpdateHook, user, all);
    }
  }

  lemma UpdateKeeps(s: Core, user: User, all: bool)
    requires Inv(s, all)
    ensures Inv(Update(s, user), all) && Update(s, user).initial == s.initial
    ensures Bracketed(s) ==> Bracketed(Update(s, user))
  {
    var updated := s;
    if s.task == Running && s.target == Running {
      CallUpdateKeeps(s, user, all);
      updated := CallUpdate(s, user);
    }
    if updated.task == RunTimeError {
      RunningHookKeeps(updated, ErrorHook, user, all);
    }
  }

  /** A start from here does not call a `startHook` that calls `error()` and then fails. */
  predicate StartsWell(s: Core, user: User) {
    s.task == Stopped ==> !ErrsAndFails(user(|s.trace|, StartHook))
  }

  lemma PerformKeeps(s: Core, op: Operation, user: User, all: bool)
    requires Inv(s, all) && (all && op == DoStart ==> StartsWell(s, user))
    ensures Inv(Perform(s, op, user), all) && Perform(s, op, user).initial == s.initial
    ensures all && Bracketed(s) ==> (Bracketed(Perform(s, op, user)) <==> !(op == DoFatal && IsRunning(s.task)))
  {
    match op
    case DoConfigure => ConfigureKeeps(s, user, all);
    case DoCleanup => CleanupKeeps(s, user, all);
    case DoStart => StartKeeps(s, user, all);
    case DoStop(granted) => StopKeeps(s, granted, user, all);
    case DoUpdate => UpdateKeeps(s, user, all);
    case DoException => RaiseKeeps(s, user, all);
    case _ =>
  }

  // ---------------------------------------------------------------- when an operation breaks it

  /** A `startHook` that calls `error()` and throws makes `exception()` call `stopHook`, in a component
      that never started. */
  lemma StopHookWithoutStart(s: Core, user: User)
    requires s.task == Stopped && user(|s.trace|, StartHook) == Answer(Thrown, true)
    ensures var r := Start(s, user).0;
      && s.trace + [Call(StartHook, Thrown), Call(StopHook, user(|s.trace| + 1, StopHook).result)] <= r.trace
      && !LegalTrace(r, true)
  {
    var hook := CallHook(s.(target := Running), StartHook, user);
    var r := Start(s, user).0;
    RaiseAppends(hook.0, user);
    var n := |s.trace| + 1;
    assert r.trace[n - 1] == Call(StartHook, Thrown) && r.trace[n].hook == StopHook;
    if LegalTrace(r, true) {
      LegalAt(r.trace, |r.trace|, r.initial, true, n);
    }
  }

  lemma RaiseAppends(s: Core, user: User)
    requires IsRunning(s.task)
    ensures s.trace + [Call(StopHook, user(|s.trace|, StopHook).result)] <= RaiseException(s, user).trace
    ensures RaiseException(s, user).initial == s.initial
  {
  }

  /** If it returns false, `errorHook` is called next, in a component that was not started. */
  lemma ErrorHookWithoutStart(s: Core, user: User)
    requires s.task == Stopped && user(|s.trace|, StartHook) == Answer(False, true)
    ensures var r := Update(Start(s, user).0, user);
      && s.trace + [Call(StartHook, False), Call(ErrorHook, user(|s.trace| + 1, ErrorHook).result)] <= r.trace
      && !LegalTrace(r, true)
  {
    var started := Start(s, user).0;
    var r := Update(started, user);
    assert started.task == RunTimeError && r == HandleError(started, user);
    HandleErrorAppends(started, user);
    var n := |s.trace| + 1;
    assert r.trace[n - 1] == Call(StartHook, False) && r.trace[n].hook == ErrorHook;
    if LegalTrace(r, true) {
      LegalAt(r.trace, |r.trace|, r.initial, true, n);
    }
  }

  lemma HandleErrorAppends(s: Core, user: User)
    requires s.task == RunTimeError
    ensures s.trace + [Call(ErrorHook, user(|s.trace|, ErrorHook).result)] <= HandleError(s, user).trace
    ensures HandleError(s, user).initial == s.initial
  {
    var error := CallHook(s, ErrorHook, user);
    if error.1 == Thrown {
      RaiseAppends(error.0, user);
    }
  }

  /** If it returns true, the error is lost: the state is Running, but neither `updateHook` nor
      `errorHook` is called. */
  lemma ErrorInStartHookIsLost(s: Core, user: User)
    requires s.task == Stopped && user(|s.trace|, StartHook) == Answer(True, true)
    ensures var r := Start(s, user).0; r.task == Running && r.target == RunTimeError && Update(r, user) == r
  {
  }

  /** From the invariant, a start and the update after it call hooks in order if and only if it is not
      the start of a Stopped component whose `startHook` calls `error()` and does not return true. */
  lemma StartIsLegalIff(s: Core, user: User)
    requires Inv(s, true)
    ensures LegalTrace(Update(Start(s, user).0, user), true) <==> StartsWell(s, user)
  {
    if StartsWell(s, user) {
      StartKeeps(s, user, true);
      UpdateKeeps(Start(s, user).0, user, true);
    } else if user(|s.trace|, StartHook).result == Thrown {
      StopHookWithoutStart(s, user);
      RaiseReachesTarget(CallHook(s.(target := Running), StartHook, user).0, user);
    } else {
      ErrorHookWithoutStart(s, user);
    }
  }

  /** Any operation keeps the invariant if and only if it is not such a start. */
  lemma PerformKeepsIff(s: Core, op: Operation, user: User)
    requires Inv(s, true)
    ensures Inv(Perform(s, op, user), true) <==> (op == DoStart ==> StartsWell(s, user))
  {
    if op == DoStart && !StartsWell(s, user) {
      if Inv(Start(s, user).0, true) {
        UpdateKeeps(Start(s, user).0, user, true);
      }
      StartIsLegalIff(s, user);
    } else {
      PerformKeeps(s, op, user, true);
    }
  }

  // ---------------------------------------------------------------- whole runs

  /** Every `startHook` that calls `error()` returns true. */
  ghost predicate StartsAlwaysWell(user: User) {
    forall n :: !ErrsAndFails(user(n, StartHook))
  }

  lemma {:induction false} RunKeeps(initial: TaskState, ops: seq<Operation>, user: User, all: bool)
    requires !IsRunning(initial) && (all ==> StartsAlwaysWell(user))
    ensures Inv(Run(Created(initial), ops, user), all) && Run(Created(initial), ops, user).initial == initial
    decreases |ops|
  {
    if ops != [] {
      RunKeeps(initial, ops[..|ops| - 1], user, all);
      PerformKeeps(Run(Created(initial), ops[..|ops| - 1], user), ops[|ops| - 1], user, all);
    }
  }

  /** Every `startHook` that calls `error()` throws. */
  ghost predicate Quiet(user: User) {
    forall n :: user(n, StartHook).error ==> user(n, StartHook).result == Thrown
  }

  /** After every operation the state is the target state. */
  lemma {:induction false} TargetIsReached(initial: TaskState, ops: seq<Operation>, user: User)
    requires Quiet(user)
    ensures var s := Run(Created(initial), ops, user); s.task == s.target
    decreases |ops|
  {
    if ops != [] {
      TargetIsReached(initial, ops[..|ops| - 1], user);
      TargetIsReachedIff(Run(Created(initial), ops[..|ops| - 1], user), ops[|ops| - 1], user);
    }
  }

  predicate OnTarget(s: Core) { s.task == s.target }

  ghost predicate AlwaysReachesTarget(initial: TaskState, ops: seq<Operation>, user: User) {
    forall k | 0 <= k <= |ops| :: OnTarget(Run(Created(initial), ops[..k], user))
  }

  /** A start of a Stopped component whose `startHook` calls `error()` and does not throw. */
  predicate StartsAstray(s: Core, op: Operation, user: User) {
    op == DoStart && s.task == Stopped
    && user(|s.trace|, StartHook).error && user(|s.trace|, StartHook).result != Thrown
  }

  ghost predicate NeverStartsAstray(initial: TaskState, ops: seq<Operation>, user: User) {
    forall k | 0 <= k < |ops| :: !StartsAstray(Run(Created(initial), ops[..k], user), ops[k], user)
  }

  /** For any user: the target is reached after every operation of a run if and only if the run has no
      such start. */
  lemma TargetAlwaysReachedIff(initial: TaskState, ops: seq<Operation>, user: User)
    ensures AlwaysReachesTarget(initial, ops, user) <==> NeverStartsAstray(initial, ops, user)
  {
    if NeverStartsAstray(initial, ops, user) {
      forall k | 0 <= k <= |ops| ensures OnTarget(Run(Created(initial), ops[..k], user)) {
        ReachedSoFar(initial, ops, user, k);
      }
    }
    if AlwaysReachesTarget(initial, ops, user) {
      forall k | 0 <= k < |ops| ensures !StartsAstray(Run(Created(initial), ops[..k], user), ops[k], user) {
        assert OnTarget(Run(Created(initial), ops[..k], user)) && OnTarget(Run(Created(initial), ops[..k + 1], user));
        NextReached(initial, ops, user, k);
      }
    }
  }

  lemma NextReached(initial: TaskState, ops: seq<Operation>, user: User, k: nat)
    requires k < |ops| && OnTarget(Run(Created(initial), ops[..k], user))
    ensures OnTarget(Run(Created(initial), ops[..k + 1], user))
      <==> !StartsAstray(Run(Created(initial), ops[..k], user), ops[k], user)
  {
    assert ops[..k + 1][..k] == ops[..k];
    TargetIsReachedIff(Run(Created(initial), ops[..k], user), ops[k], user);
  }

  lemma {:induction false} ReachedSoFar(initial: TaskState, ops: seq<Operation>, user: User, k: nat)
    requires NeverStartsAstray(initial, ops, user) && k <= |ops|
    ensures OnTarget(Run(Created(initial), ops[..k], user))
  {
    if k > 0 {
      ReachedSoFar(initial, ops, user, k - 1);
      NextReached(initial, ops, user, k - 1);
    }
  }

  /** `prepareUpdateHook`, `updateHook` and `errorHook` run only after a `startHook` that returned
      true, with no `stopHook` called since. */
  lemma UpdateOnlyWhileStarted(initial: TaskState, ops: seq<Operation>, user: User, i: nat)
    requires !IsRunning(initial) && StartsAlwaysWell(user)
    requires i < |Run(Created(initial), ops, user).trace|
    requires Run(Created(initial), ops, user).trace[i].hook in {PrepareUpdateHook, UpdateHook, ErrorHook}
    ensures var trace := Run(Created(initial), ops, user).trace;
      exists j :: LastOn(trace, i, j, StartHook, StopHook)
  {
    RunKeeps(initial, ops, user, true);
    var trace := Run(Created(initial), ops, user).trace;
    LegalAt(trace, |trace|, initial, true, i);
    SinceMeans(trace, i, StartHook, StopHook);
  }

  /** A component created PreOperational is configured before it is started, whatever its hooks do. */
  lemma ConfiguredBeforeStart(ops: seq<Operation>, user: User, i: nat)
    requires i < |Run(Created(PreOperational), ops, user).trace|
    requires Run(Created(PreOperational), ops, user).trace[i].hook == StartHook
    ensures var trace := Run(Created(PreOperational), ops, user).trace;
      exists j :: LastOn(trace, i, j, ConfigureHook, CleanupHook)
  {
    RunKeeps(PreOperational, ops, user, false);
    var trace := Run(Created(PreOperational), ops, user).trace;
    LegalAt(trace, |trace|, PreOperational, false, i);
    SinceMeans(trace, i, ConfigureHook, CleanupHook);
  }

  /** `stopHook` is called in a started component, or once more right after it threw. */
  lemma StopHookOnlyAfterStart(initial: TaskState, ops: seq<Operation>, user: User, i: nat)
    requires !IsRunning(initial) && StartsAlwaysWell(user)
    requires i < |Run(Created(initial), ops, user).trace|
    requires Run(Created(initial), ops, user).trace[i].hook == StopHook
    ensures var trace := Run(Created(initial), ops, user).trace;
      (exists j :: LastOn(trace, i, j, StartHook, StopHook)) || (i > 0 && trace[i - 1] == Call(StopHook, Thrown))
  {
    RunKeeps(initial, ops, user, true);
    var trace := Run(Created(initial), ops, user).trace;
    LegalAt(trace, |trace|, initial, true, i);
    SinceMeans(trace, i, StartHook, StopHook);
  }

  /** `cleanupHook` of a component created PreOperational is called in a configured one, or right
      after it or `configureHook` threw, whatever its hooks do. */
  lemma CleanupHookOnlyAfterConfigure(ops: seq<Operation>, user: User, i: nat)
    requires i < |Run(Created(PreOperational), ops, user).trace|
    requires Run(Created(PreOperational), ops, user).trace[i].hook == CleanupHook
    ensures var trace := Run(Created(PreOperational), ops, user).trace;
      || (exists j :: LastOn(trace, i, j, ConfigureHook, CleanupHook))
      || (i > 0 && trace[i - 1].result == Thrown && trace[i - 1].hook in {CleanupHook, ConfigureHook})
  {
    RunKeeps(PreOperational, ops, user, false);
    var trace := Run(Created(PreOperational), ops, user).trace;
    LegalAt(trace, |trace|, PreOperational, false, i);
    SinceMeans(trace, i, ConfigureHook, CleanupHook);
  }

  // ---------------------------------------------------------------- running and started

  /** The component is running exactly if the trace says it was started. */
  predicate RunsIfStarted(s: Core) {
    IsRunning(s.task) <==> WasStarted(s)
  }

  ghost predicate AlwaysRunsIfStarted(initial: TaskState, ops: seq<Operation>, user: User) {
    forall k | 0 <= k <= |ops| :: RunsIfStarted(Run(Created(initial), ops[..k], user))
  }

  /** `fatal()` is called only while the component is not running. */
  ghost predicate FatalOnlyWhenIdle(initial: TaskState, ops: seq<Operation>, user: User) {
    forall k | 0 <= k < |ops| && ops[k] == DoFatal :: !IsRunning(Run(Created(initial), ops[..k], user).task)
  }

  /** Throughout a run the component is running exactly while it was started, so that a component that
      left the running states had its `stopHook` called, if and only if `fatal()` is called only while
      it is not running. */
  lemma RunningIffStarted(initial: TaskState, ops: seq<Operation>, user: User)
    requires !IsRunning(initial) && StartsAlwaysWell(user)
    ensures AlwaysRunsIfStarted(initial, ops, user) <==> FatalOnlyWhenIdle(initial, ops, user)
  {
    if FatalOnlyWhenIdle(initial, ops, user) {
      forall k | 0 <= k <= |ops| ensures RunsIfStarted(Run(Created(initial), ops[..k], user)) {
        StaysBracketed(initial, ops, user, k);
      }
    }
    if AlwaysRunsIfStarted(initial, ops, user) {
      forall k | 0 <= k < |ops| && ops[k] == DoFatal
        ensures !IsRunning(Run(Created(initial), ops[..k], user).task)
      {
        assert RunsIfStarted(Run(Created(initial), ops[..k], user));
        assert RunsIfStarted(Run(Created(initial), ops[..k + 1], user));
        OneMore(initial, ops, user, k);
      }
    }
  }

  /** The k-th operation of a run. */
  lemma OneMore(initial: TaskState, ops: seq<Operation>, user: User, k: nat)
    requires !IsRunning(initial) && StartsAlwaysWell(user) && k < |ops|
    ensures var s, r := Run(Created(initial), ops[..k], user), Run(Created(initial), ops[..k + 1], user);
      && Inv(s, true) && Inv(r, true)
      && (Bracketed(s) ==> (Bracketed(r) <==> !(ops[k] == DoFatal && IsRunning(s.task))))
  {
    assert ops[..k + 1][..k] == ops[..k];
    RunKeeps(initial, ops[..k], user, true);
    PerformKeeps(Run(Created(initial), ops[..k], user), ops[k], user, true);
  }

  lemma {:induction false} StaysBracketed(initial: TaskState, ops: seq<Operation>, user: User, k: nat)
    requires !IsRunning(initial) && StartsAlwaysWell(user) && FatalOnlyWhenIdle(initial, ops, user) && k <= |ops|
    ensures RunsIfStarted(Run(Created(initial), ops[..k], user))
  {
    if k > 0 {
      StaysBracketed(initial, ops, user, k - 1);
      OneMore(initial, ops, user, k - 1);
    }
  }

  /** One such call of `fatal()`: `startHook` runs twice with no `stopHook` in between. */
  lemma FatalSkipsStopHook(s: Core, user: User)
    requires s.task == s.target == s.initial == Stopped
    requires forall n, h :: user(n, h) == Answer(True, false)
    ensures var failed := Fatal(Start(s, user).0);
      var restarted := Start(Recover(RaiseException(failed, user)).0, user).0;
      restarted.trace == s.trace + [Call(StartHook, True), Call(ExceptionHook, True), Call(StartHook, True)]
  {
    var failed := Fatal(Start(s, user).0);
    assert failed == Core(FatalError, FatalError, Stopped, s.trace + [Call(StartHook, True)]);
    var raised := RaiseException(failed, user);
    assert raised == Core(Exception, Exception, Stopped, failed.trace + [Call(ExceptionHook, True)]);
    var restarted := Start(Recover(raised).0, user).0;
    assert restarted.trace == raised.trace + [Call(StartHook, True)];
  }

  /** FatalError is left only by `exception()`, and then unless `exceptionHook` throws. */
  lemma FatalErrorIsLeftOnlyByException(s: Core, op: Operation, user: User)
    requires s.task == FatalError && s.target == FatalError
    ensures op != DoException ==> Perform(s, op, user) == s
    ensures Perform(s, op, user).task != FatalError <==>
      op == DoException && user(|s.trace|, ExceptionHook).result != Thrown
  {
  }

  // ---------------------------------------------------------------- what one operation does

  /** The answer of an operation tells whether its transition was made. */
  lemma AnswersTellTransitions(s: Core, granted: bool, user: User)
    ensures Configure(s, user).1 <==> s.task in {PreOperational, Stopped} && Configure(s, user).0.task == Stopped
    ensures Cleanup(s, user).1 <==> s.task == Stopped && Cleanup(s, user).0.task == PreOperational
    ensures Start(s, user).1 <==> s.task == Stopped && Start(s, user).0.task == Running
    ensures Stop(s, granted, user).1 <==> IsRunning(s.task) && Stop(s, granted, user).0.task == Stopped
  {
    RaiseReachesTarget(CallHook(s.(target := Stopped), ConfigureHook, user).0, user);
    RaiseReachesTarget(CallHook(s.(target := PreOperational), CleanupHook, user).0, user);
    RaiseReachesTarget(CallHook(s.(target := Running), StartHook, user).0, user);
    RaiseReachesTarget(CallHook(s.(target := Stopped), StopHook, user).0, user);
  }

  /** The hooks that `exception()` has to call, in order, in a component that was in state `copy`. */
  function HooksAfter(copy: TaskState, initial: TaskState): seq<Hook> {
    (if IsRunning(copy) then [StopHook] else []) + CleanupHooks(copy, initial)
  }

  function ExceptionHooks(s: Core): seq<Hook> { HooksAfter(s.task, s.initial) }

  function CleanupHooks(copy: TaskState, initial: TaskState): seq<Hook> {
    (if IsConfigured(copy) && initial == PreOperational then [CleanupHook] else []) + [ExceptionHook]
  }

  /** `calls` are those of `hooks` in order, up to the first that throws. */
  predicate InTurn(calls: seq<Call>, hooks: seq<Hook>)
    decreases |hooks|
  {
    if hooks == [] then calls == []
    else
      calls != [] && calls[0].hook == hooks[0]
      && if calls[0].result == Thrown then |calls| == 1 else InTurn(calls[1..], hooks[1..])
  }

  predicate LastThrew(calls: seq<Call>) {
    calls != [] && calls[|calls| - 1].result == Thrown
  }

  /** `exception()` stops, cleans up and reports, as far as the state it came from requires, and ends
      in Exception, or in FatalError as soon as one of these hooks throws. */
  lemma ExceptionCallsInOrder(s: Core, user: User) returns (calls: seq<Call>)
    ensures var r := RaiseException(s, user);
      && r.trace == s.trace + calls && InTurn(calls, ExceptionHooks(s))
      && r.task == r.target == if LastThrew(calls) then FatalError else Exception
  {
    var entered := s.(task := Exception, target := Exception);
    if IsRunning(s.task) {
      var stop := CallHook(entered, StopHook, user);
      var first := Call(StopHook, stop.1);
      calls := [first];
      if stop.1 != Thrown {
        var more := CleanupCallsInOrder(stop.0, s.task, user);
        calls := [first] + more;
        assert calls[1..] == more && ExceptionHooks(s)[1..] == CleanupHooks(s.task, s.initial);
      }
    } else {
      calls := CleanupCallsInOrder(entered, s.task, user);
      assert ExceptionHooks(s) == CleanupHooks(s.task, s.initial);
    }
  }

  lemma CleanupCallsInOrder(s: Core, copy: TaskState, user: User) returns (calls: seq<Call>)
    requires s.task == s.target == Exception
    ensures var r := CleanupAndReport(s, copy, user);
      && calls != [] && r.trace == s.trace + calls && InTurn(calls, CleanupHooks(copy, s.initial))
      && r.task == r.target == if LastThrew(calls) then FatalError else Exception
  {
    if IsConfigured(copy) && s.initial == PreOperational {
      var cleanup := CallHook(s, CleanupHook, user);
      var first := Call(CleanupHook, cleanup.1);
      calls := [first];
      if cleanup.1 != Thrown {
        var last := CallHook(cleanup.0, ExceptionHook, user);
        calls := [first, Call(ExceptionHook, last.1)];
        assert calls[1..] == [Call(ExceptionHook, last.1)] && CleanupHooks(copy, s.initial)[1..] == [ExceptionHook];
      }
    } else {
      calls := [Call(ExceptionHook, CallHook(s, ExceptionHook, user).1)];
    }
  }

  /** A running component whose hooks do not throw gets `prepareUpdateHook`, `updateHook` and, if one
      of these called `error()`, `errorHook`. */
  lemma UpdateCallsInOrder(s: Core, user: User)
    requires s.task == s.target == Running && forall n, h :: user(n, h).result != Thrown
    ensures var n := |s.trace|;
      var failed := user(n, PrepareUpdateHook).error || user(n + 1, UpdateHook).error;
      && Update(s, user).trace == s.trace + [Call(PrepareUpdateHook, user(n, PrepareUpdateHook).result)]
           + [Call(UpdateHook, user(n + 1, UpdateHook).result)]
           + (if failed then [Call(ErrorHook, user(n + 2, ErrorHook).result)] else [])
      && (Update(s, user).task == Running <==> !failed && Update(s, user).target == Running)
  {
  }

  /** `exception()` after the calls `first`, in a component that was in state `copy`: the hooks in turn up
      to the first that throws, and Exception, or FatalError if one does. */
  predicate RaisedAfter(s: Core, first: seq<Call>, copy: TaskState, calls: seq<Call>, r: Core) {
    && r.trace == s.trace + first + calls && InTurn(calls, HooksAfter(copy, s.initial))
    && r.task == r.target == (if LastThrew(calls) then FatalError else Exception)
    && r.initial == s.initial
  }

  lemma Raised(s: Core, first: seq<Call>, t: Core, user: User) returns (calls: seq<Call>)
    requires t.trace == s.trace + first && t.initial == s.initial
    ensures RaisedAfter(s, first, t.task, calls, RaiseException(t, user))
  {
    calls := ExceptionCallsInOrder(t, user);
    RaiseKeepsInitial(t, user);
  }

  lemma RaiseKeepsInitial(s: Core, user: User)
    ensures RaiseException(s, user).initial == s.initial
  {
  }

  /** An update of a running component in which `prepareUpdateHook` throws, or returns and `updateHook`
      throws: no other hook of the update is called, and `exception()` is. */
  lemma UpdateThrows(s: Core, user: User) returns (first: seq<Call>, calls: seq<Call>)
    requires s.task == s.target == Running
    requires var n := |s.trace|;
      user(n, PrepareUpdateHook).result == Thrown || user(n + 1, UpdateHook).result == Thrown
    ensures var n := |s.trace|; var prepared := user(n, PrepareUpdateHook).result;
      first == [Call(PrepareUpdateHook, prepared)] + (if prepared == Thrown then [] else [Call(UpdateHook, Thrown)])
    ensures RaisedAfter(s, first, Running, calls, Update(s, user))
  {
    var prepare := CallHook(s, PrepareUpdateHook, user);
    first := [Call(PrepareUpdateHook, prepare.1)];
    var t := prepare.0;
    if prepare.1 != Thrown {
      t := CallHook(prepare.0, UpdateHook, user).0;
      first := first + [Call(UpdateHook, Thrown)];
    }
    assert t.trace == s.trace + first && IsRunning(t.task);
    calls := Raised(s, first, t, user);
    RaiseReachesTarget(t, user);
    assert Update(s, user) == RaiseException(t, user);
  }

  /** An update of a running component in which neither throws, but one calls `error()`: `errorHook` is
      called; if it throws `exception()` is, and otherwise the component stays in RunTimeError. */
  lemma UpdateErrs(s: Core, user: User) returns (calls: seq<Call>)
    requires s.task == s.target == Running
    requires var n := |s.trace|;
      && user(n, PrepareUpdateHook).result != Thrown && user(n + 1, UpdateHook).result != Thrown
      && (user(n, PrepareUpdateHook).error || user(n + 1, UpdateHook).error)
    ensures var n := |s.trace|; var error := user(n + 2, ErrorHook).result;
      var first := [Call(PrepareUpdateHook, user(n, PrepareUpdateHook).result),
                    Call(UpdateHook, user(n + 1, UpdateHook).result), Call(ErrorHook, error)];
      var r := Update(s, user);
      if error == Thrown then RaisedAfter(s, first, RunTimeError, calls, r)
      else r == s.(task := RunTimeError, target := RunTimeError, trace := s.trace + first)
  {
    var n := |s.trace|;
    var first := [Call(PrepareUpdateHook, user(n, PrepareUpdateHook).result),
                  Call(UpdateHook, user(n + 1, UpdateHook).result)];
    var updated := CallUpdate(s, user);
    assert updated == s.(task := RunTimeError, target := RunTimeError, trace := s.trace + first);
    calls := ErrorHookInRunTimeError(updated, user);
    assert first + [Call(ErrorHook, user(n + 2, ErrorHook).result)]
        == [first[0], first[1], Call(ErrorHook, user(n + 2, ErrorHook).result)];
    assert (s.trace + first) + [Call(ErrorHook, user(n + 2, ErrorHook).result)]
        == s.trace + (first + [Call(ErrorHook, user(n + 2, ErrorHook).result)]);
  }

  /** A component in RunTimeError gets `errorHook` and nothing else; if it throws, `exception()` is
      called. */
  lemma ErrorHookInRunTimeError(s: Core, user: User) returns (calls: seq<Call>)
    requires s.task == s.target == RunTimeError
    ensures var error := user(|s.trace|, ErrorHook).result; var first := [Call(ErrorHook, error)];
      var r := Update(s, user);
      if error == Thrown then RaisedAfter(s, first, RunTimeError, calls, r)
      else r == s.(trace := s.trace + first)
  {
    var t := CallHook(s, ErrorHook, user).0;
    calls := Raised(s, [Call(ErrorHook, user(|s.trace|, ErrorHook).result)], t, user);
  }

  /** In every other state an update does nothing. */
  lemma UpdateElsewhere(s: Core, user: User)
    requires s.task != RunTimeError && !(s.task == Running && s.target == Running)
    ensures Update(s, user) == s
  {
  }

  // ---------------------------------------------------------------- where an operation leads

  /** Where an operation is allowed; elsewhere it is refused. */
  predicate Allowed(op: Operation, s: Core) {
    match op
    case DoConfigure => s.task == PreOperational || s.task == Stopped
    case DoCleanup => s.task == Stopped
    case DoStart => s.task == Stopped
    case DoStop(granted) => IsRunning(s.task)
    case DoRecover => s.task == Exception || s.task == RunTimeError
    case DoUpdate => s.task == RunTimeError || (s.task == Running && s.target == Running)
    case DoError => IsRunning(s.target)
    case DoException => true
    case DoFatal => true
  }

  lemma RefusedChangesNothing(s: Core, op: Operation, user: User)
    requires !Allowed(op, s)
    ensures Perform(s, op, user) == s
  {
  }

  /** The hook that an operation calls. */
  function HookOf(op: Operation): Hook
    requires op.DoConfigure? || op.DoCleanup? || op.DoStart? || op.DoStop?
  {
    match op
    case DoConfigure => ConfigureHook
    case DoCleanup => CleanupHook
    case DoStart => StartHook
    case DoStop(granted) => StopHook
  }

  /** Where a hook that does not throw leads: a failed `configureHook` to PreOperational even from
      Stopped, a failed `startHook` to Stopped, and a failed `cleanupHook` or `stopHook` as far as one
      that succeeds. */
  lemma HookReturns(s: Core, op: Operation, user: User)
    requires (op.DoConfigure? || op.DoCleanup? || op.DoStart? || op == DoStop(true)) && Allowed(op, s)
    requires user(|s.trace|, HookOf(op)).result != Thrown
    ensures var a := user(|s.trace|, HookOf(op)); var r := Perform(s, op, user);
      && r.trace == s.trace + [Call(HookOf(op), a.result)] && r.initial == s.initial
      && (op == DoConfigure ==> r.task == r.target == if a.result == True then Stopped else PreOperational)
      && (op == DoCleanup ==> r.task == r.target == PreOperational)
      && (op == DoStop(true) ==> r.task == r.target == Stopped)
      && (op == DoStart && !a.error ==> r.task == r.target == if a.result == True then Running else Stopped)
  {
  }

  /** A stop that the activity refuses calls no hook and leaves the state, and the target with it. */
  lemma RefusedStop(s: Core, user: User)
    requires IsRunning(s.task)
    ensures Stop(s, false, user) == (s.(target := s.task), false)
  {
  }

  /** A hook that throws: `exception()` is called, in the state the operation came from, or in
      RunTimeError if it is a `startHook` that called `error()` before. */
  lemma HookThrows(s: Core, op: Operation, user: User) returns (calls: seq<Call>)
    requires (op.DoConfigure? || op.DoCleanup? || op.DoStart? || op == DoStop(true)) && Allowed(op, s)
    requires user(|s.trace|, HookOf(op)).result == Thrown
    ensures var copy := if op == DoStart && user(|s.trace|, StartHook).error then RunTimeError else s.task;
      RaisedAfter(s, [Call(HookOf(op), Thrown)], copy, calls, Perform(s, op, user))
  {
    var target := match op
      case DoConfigure => Stopped
      case DoCleanup => PreOperational
      case DoStart => Running
      case DoStop(granted) => Stopped;
    var t := CallHook(s.(target := target), HookOf(op), user).0;
    calls := Raised(s, [Call(HookOf(op), Thrown)], t, user);
    assert Perform(s, op, user) == RaiseException(t, user);
  }

  /** Where the operations without a hook of their own lead. */
  lemma OthersLead(s: Core, user: User)
    ensures IsRunning(s.target) ==> Error(s).task == Error(s).target == RunTimeError
    ensures Fatal(s).task == Fatal(s).target == FatalError
    ensures Error(s).trace == Fatal(s).trace == Recover(s).0.trace == s.trace
    ensures Recover(s).1 <==> s.task == Exception || s.task == RunTimeError
    ensures s.task == Exception ==> Recover(s).0.task == Recover(s).0.target == s.initial
    ensures s.task == RunTimeError ==> Recover(s).0.task == Recover(s).0.target == Running
  {
  }

  /** `recover()` undoes `error()`, and after an `exception()` none of whose hooks threw it brings the
      component back to where it was created. */
  lemma RecoverUndoes(s: Core, user: User)
    requires s.task == s.target
    ensures s.task == Running ==> Recover(Error(s)) == (s, true)
    ensures !IsRunning(s.task) ==> Error(s) == s
    ensures var r := RaiseException(s, user); var back := Recover(r);
      && (back.1 <==> !LastThrew(r.trace))
      && (back.1 ==> back.0.task == back.0.target == s.initial)
      && (!back.1 ==> back.0.task == FatalError)
  {
    var calls := ExceptionCallsInOrder(s, user);
  }

  /** In whatever state a component is, FatalError included, it works again after `exception()`,
      `recover()`, `configure()` and `start()`, if its hooks behave from then on. */
  lemma WorksAgain(s: Core, user: User) returns (calls: seq<Call>)
    requires s.initial == PreOperational || s.initial == Stopped
    requires forall n, h | n >= |s.trace| :: user(n, h) == Answer(True, false)
    ensures var t := Run(s, [DoException, DoRecover, DoConfigure, DoStart], user);
      && t.task == t.target == Running && InTurn(calls, ExceptionHooks(s))
      && t.trace == s.trace + calls + [Call(ConfigureHook, True), Call(StartHook, True)]
  {
    hide RaiseException, Recover, Configure, Start, InTurn, ExceptionHooks, Run;
    calls := ExceptionCallsInOrder(s, user);
    RaisedWell(s, user);
    Restarted(RaiseException(s, user), user);
    FourSteps(s, DoException, DoRecover, DoConfigure, DoStart, user);
  }

  /** From Exception back to Running. */
  lemma Restarted(s: Core, user: User)
    requires s.task == s.target == Exception && (s.initial == PreOperational || s.initial == Stopped)
    requires forall n, h | n >= |s.trace| :: user(n, h) == Answer(True, false)
    ensures var t := Start(Configure(Recover(s).0, user).0, user).0;
      t.task == t.target == Running && t.trace == s.trace + [Call(ConfigureHook, True), Call(StartHook, True)]
  {
    var configured := Configure(Recover(s).0, user).0;
    assert configured == Core(Stopped, Stopped, s.initial, s.trace + [Call(ConfigureHook, True)]);
  }

  /** `exception()` whose hooks all return true. */
  lemma RaisedWell(s: Core, user: User)
    requires forall n, h | n >= |s.trace| :: user(n, h) == Answer(True, false)
    ensures var r := RaiseException(s, user); r.task == r.target == Exception && r.initial == s.initial
  {
  }

  lemma FourSteps(s: Core, a: Operation, b: Operation, c: Operation, d: Operation, user: User)
    ensures Run(s, [a, b, c, d], user) == Perform(Perform(Perform(Perform(s, a, user), b, user), c, user), d, user)
  {
    hide Perform;
    assert [a, b, c, d][..3] == [a, b, c] && [a, b, c][..2] == [a, b] && [a, b][..1] == [a] && [a][..0] == [];
    assert Run(s, [a], user) == Perform(Run(s, [], user), a, user);
    assert Run(s, [a, b], user) == Perform(Run(s, [a], user), b, user);
    assert Run(s, [a, b, c], user) == Perform(Run(s, [a, b], user), c, user);
  }

  // ---------------------------------------------------------------- state and target state

  /** An operation leaves state and target state equal unless it is a `start()` whose `startHook`
      called `error()` and did not throw. */
  lemma TargetIsReachedIff(s: Core, op: Operation, user: User)
    requires s.task == s.target
    ensures var r := Perform(s, op, user); var a := user(|s.trace|, StartHook);
      r.task == r.target <==> !(op == DoStart && s.task == Stopped && a.error && a.result != Thrown)
  {
    forall t: Core ensures RaiseException(t, user).task == RaiseException(t, user).target {
      RaiseReachesTarget(t, user);
    }
  }

  lemma RaiseReachesTarget(s: Core, user: User)
    ensures var r := RaiseException(s, user); r.task == r.target && (r.task == Exception || r.task == FatalError)
  {
    var entered := s.(task := Exception, target := Exception);
    assert forall t: Core, hook | t.task == t.target == Exception ::
      var r := CallHook(t, hook, user).0; r.task == r.target == Exception;
  }
}
