/** The classes TaskCore (rtt/base/TaskCore.cpp) and ExecutionEngine (rtt/ExecutionEngine.cpp), as
    far as the life cycle goes. */
module TaskCores {
  import opened Lifecycle
  import opened Sequences

  class TaskCore {
    var mTaskState: TaskState
    var mTargetState: TaskState
    const mInitialState: TaskState
    const user: User
    var trace: seq<Call>

    ghost function State(): Core reads this {
      Core(mTaskState, mTargetState, mInitialState, trace)
    }

    constructor (initial: TaskState, hooks: User)
      ensures State() == Created(initial) && user == hooks
    {
      mTaskState, mTargetState, mInitialState := initial, initial, initial;
      user, trace := hooks, [];
    }

    /** One call of a hook; its answer is the user's. */
    method Invoke(hook: Hook) returns (result: Result)
      modifies this
      ensures (State(), result) == CallHook(old(State()), hook, user)
    {
      var answer := user(|trace|, hook);
      trace := trace + [Call(hook, answer.result)];
      if answer.error {
        SetError();
      }
      result := answer.result;
    }

    /** `error()`. */
    method SetError()
      modifies this
      ensures State() == Error(old(State()))
    {
      if mTargetState == Running || mTargetState == RunTimeError {
        mTargetState, mTaskState := RunTimeError, RunTimeError;
      }
    }

    /** `fatal()`, the stop of the activity left out. */
    method SetFatal()
      modifies this
      ensures State() == Fatal(old(State()))
    {
      mTargetState, mTaskState := FatalError, FatalError;
    }

    /** `exception()`: the first hook that throws ends the sequence. */
    method SetException()
      modifies this
      ensures State() == RaiseException(old(State()), user)
    {
      var copy := mTaskState;
      mTargetState, mTaskState := Exception, Exception;
      var result := True;
      if copy == Running || copy == RunTimeError {
        result := Invoke(StopHook);
      }
      if result != Thrown && (copy == Stopped || copy == Running || copy == RunTimeError)
         && mInitialState == PreOperational {
        result := Invoke(CleanupHook);
      }
      if result != Thrown {
        result := Invoke(ExceptionHook);
      }
      if result == Thrown {
        SetFatal();
      }
    }

    method Configure() returns (ok: bool)
      modifies this
      ensures (State(), ok) == Lifecycle.Configure(old(State()), user)
    {
      ok := false;
      if mTaskState == Stopped || mTaskState == PreOperational {
        mTargetState := Stopped;
        var result := Invoke(ConfigureHook);
        match result {
          case True =>
            mTaskState := Stopped;
            ok := true;
          case False =>
            mTargetState, mTaskState := PreOperational, PreOperational;
          case Thrown =>
            SetException();
        }
      }
    }

    method Cleanup() returns (ok: bool)
      modifies this
      ensures (State(), ok) == Lifecycle.Cleanup(old(State()), user)
    {
      ok := false;
      if mTaskState == Stopped {
        mTargetState := PreOperational;
        var result := Invoke(CleanupHook);
        if result == Thrown {
          SetException();
        } else {
          mTaskState := PreOperational;
          ok := true;
        }
      }
    }

    method Start() returns (ok: bool)
      modifies this
      ensures (State(), ok) == Lifecycle.Start(old(State()), user)
    {
      ok := false;
      if mTaskState == Stopped {
        mTargetState := Running;
        var result := Invoke(StartHook);
        match result {
          case True =>
            mTaskState := Running;
            ok := true;
          case False =>
            mTargetState := Stopped;
          case Thrown =>
            SetException();
        }
      }
    }

    method Stop(granted: bool) returns (ok: bool)
      modifies this
      ensures (State(), ok) == Lifecycle.Stop(old(State()), granted, user)
    {
      ok := false;
      var orig := mTaskState;
      if mTaskState == Running || mTaskState == RunTimeError {
        mTargetState := Stopped;
        if granted {
          var result := Invoke(StopHook);
          if result == Thrown {
            SetException();
          } else {
            mTaskState := Stopped;
            ok := true;
          }
        } else {
          mTaskState, mTargetState := orig, orig;
        }
      }
    }

    method Recover() returns (ok: bool)
      modifies this
      ensures (State(), ok) == Lifecycle.Recover(old(State()))
    {
      ok := true;
      if mTaskState == Exception {
        mTargetState, mTaskState := mInitialState, mInitialState;
      } else if mTaskState == RunTimeError {
        mTargetState, mTaskState := Running, Running;
      } else {
        ok := false;
      }
    }

    /** What `processChildren` does for a component. */
    method Process()
      modifies this
      ensures State() == Update(old(State()), user)
    {
      if mTaskState == Running && mTargetState == Running {
        var result := Invoke(PrepareUpdateHook);
        if result != Thrown {
          result := Invoke(UpdateHook);
        }
        if result == Thrown {
          SetException();
        }
      }
      if mTaskState == RunTimeError {
        var result := Invoke(ErrorHook);
        if result == Thrown {
          SetException();
        }
      }
    }
  }

  class ExecutionEngine {
    const taskc: TaskCore?
    var children: seq<TaskCore>

    constructor (owner: TaskCore?)
      ensures taskc == owner && children == []
    {
      taskc, children := owner, [];
    }

    /** No component is run by its engine twice. */
    ghost predicate Valid() reads this {
      taskc !in children && forall i, j | 0 <= i < j < |children| :: children[i] != children[j]
    }

    /** Nothing keeps a component from being added again. */
    method AddChild(tc: TaskCore)
      modifies this
      ensures children == old(children) + [tc]
      ensures Valid() <==> old(Valid()) && tc != taskc && tc !in old(children)
    {
      assert forall i | 0 <= i < |children| :: (children + [tc])[i] == children[i];
      assert (children + [tc])[|children|] == tc;
      children := children + [tc];
    }

    /** Removes the first occurrence. */
    method RemoveChild(tc: TaskCore)
      modifies this
      ensures old(Valid()) ==> Valid() && tc !in children
      ensures tc !in old(children) ==> children == old(children)
      ensures tc in old(children) ==> exists k | 0 <= k < |old(children)| ::
        && old(children)[k] == tc && tc !in old(children)[..k]
        && children == old(children)[..k] + old(children)[k + 1..]
    {
      var it := 0;
      while it != |children| && children[it] != tc
        invariant it <= |children|
        invariant tc !in children[..it]
      {
        it := it + 1;
      }
      if it != |children| {
        children := children[..it] + children[it + 1..];
      }
    }

    /** Whom a step of the engine runs that gets to `reached` children, in order. */
    ghost function Order(reached: nat): seq<TaskCore>
      reads this
      requires reached <= |children|
    {
      InLine(taskc, children[..reached])
    }

    /** `processChildren`: the owner, then the children in order, as long as the activity is
        running; `alive(k)` is its answer after k children.  Returns how many it got to.  A component
        is updated as often as it stands among these. */
    method ProcessChildren(alive: nat -> bool) returns (reached: nat)
      modifies taskc, children
      ensures reached <= |children| && (forall k | 0 <= k < reached :: alive(k))
      ensures reached < |children| ==> !alive(reached)
      ensures forall c | c in Order(|children|) ::
        c.State() == UpdateTimes(old(c.State()), c.user, Turns(Order(reached), c))
    {
      hide Update, UpdateTimes, Turns;
      ghost var all := Order(|children|);
      ProcessOwner(all);
      reached := ProcessEach(children, alive, all);
      forall c | c in all
        ensures c.State() == UpdateTimes(old(c.State()), c.user, Turns(Order(reached), c))
      {
        OwnerFirst(taskc, children[..reached], c, old(c.State()));
      }
    }

    method ProcessOwner(ghost all: seq<TaskCore>)
      modifies taskc
      ensures forall c | c in all ::
        c.State() == if c == taskc then Update(old(c.State()), c.user) else old(c.State())
    {
      hide Update;
      if taskc != null {
        taskc.Process();
      }
    }
  }

  /** `Update` n times. */
  ghost function UpdateTimes(s: Core, user: User, n: nat): Core {
    if n == 0 then s else Update(UpdateTimes(s, user, n - 1), user)
  }

  lemma NoUpdate(s: Core, user: User)
    ensures UpdateTimes(s, user, 0) == s
  {
  }

  lemma UpdateOnceMore(s: Core, user: User, n: nat)
    ensures UpdateTimes(s, user, n + 1) == Update(UpdateTimes(s, user, n), user)
  {
  }

  lemma {:induction false} UpdateFirst(s: Core, user: User, n: nat)
    ensures UpdateTimes(Update(s, user), user, n) == UpdateTimes(s, user, n + 1)
  {
    hide Update;
    if n > 0 {
      UpdateFirst(s, user, n - 1);
    }
  }

  /** The owner, if there is one, and then the others. */
  function InLine(owner: TaskCore?, run: seq<TaskCore>): seq<TaskCore> {
    if owner == null then run else [owner] + run
  }

  lemma OwnerFirst(owner: TaskCore?, run: seq<TaskCore>, c: TaskCore, s: Core)
    ensures UpdateTimes(if c == owner then Update(s, c.user) else s, c.user, Turns(run, c))
         == UpdateTimes(s, c.user, Turns(InLine(owner, run), c))
  {
    hide Update, UpdateTimes, Turns;
    if owner != null {
      OneTurn(owner, c);
      TurnsJoin([owner], run, c);
      UpdateFirst(s, c.user, Turns(run, c));
    }
  }

  /** How often it is the turn of `c`. */
  function Turns(order: seq<TaskCore>, c: TaskCore): nat { Count(order, c) }

  lemma TurnsJoin(a: seq<TaskCore>, b: seq<TaskCore>, c: TaskCore)
    ensures Turns(a + b, c) == Turns(a, c) + Turns(b, c)
  {
    CountJoin(a, b, c);
  }

  lemma NoTurn(order: seq<TaskCore>, c: TaskCore)
    requires c !in order
    ensures Turns(order, c) == 0
  {
    CountZero(order, c);
  }

  lemma OneTurn(owner: TaskCore, c: TaskCore)
    ensures Turns([owner], c) == if c == owner then 1 else 0
  {
    var order: seq<TaskCore> := [owner];
    assert order[0] == owner && order[1..] == [];
    assert Count(order[1..], c) == 0;
  }

  lemma OneTurnMore(children: seq<TaskCore>, it: nat, c: TaskCore)
    requires it < |children|
    ensures Turns(children[..it + 1], c) == Turns(children[..it], c) + (if c == children[it] then 1 else 0)
  {
    OneTurn(children[it], c);
    hide Turns;
    assert children[..it + 1] == children[..it] + [children[it]];
    TurnsJoin(children[..it], [children[it]], c);
  }

  /** If no component is run twice, each of them is run exactly once. */
  lemma EachOnce(engine: ExecutionEngine, reached: nat, c: TaskCore)
    requires engine.Valid() && reached <= |engine.children|
    ensures Turns(engine.Order(reached), c) == if c in engine.Order(reached) then 1 else 0
  {
    DistinctTurns(engine.Order(reached), c);
  }

  lemma {:induction false} DistinctTurns(order: seq<TaskCore>, c: TaskCore)
    requires forall i, j | 0 <= i < j < |order| :: order[i] != order[j]
    ensures Turns(order, c) == if c in order then 1 else 0
    decreases |order|
  {
    if order != [] {
      DistinctTurns(order[1..], c);
    }
  }

  /** The loop over the children. */
  method ProcessEach(children: seq<TaskCore>, alive: nat -> bool, ghost all: seq<TaskCore>) returns (it: nat)
    requires forall i | 0 <= i < |children| :: children[i] in all
    modifies children
    ensures it <= |children| && (forall k | 0 <= k < it :: alive(k)) && (it < |children| ==> !alive(it))
    ensures forall c | c in all :: c.State() == UpdateTimes(old(c.State()), c.user, Turns(children[..it], c))
  {
    hide Update, UpdateTimes, Turns;
    ghost var before := map c | c in all :: c.State();
    it := 0;
    forall c | c in all ensures c.State() == UpdateTimes(before[c], c.user, Turns(children[..0], c)) {
      NoTurn(children[..0], c);
      NoUpdate(before[c], c.user);
    }
    while it != |children| && alive(it)
      invariant it <= |children|
      invariant forall k | 0 <= k < it :: alive(k)
      invariant forall c | c in all :: c.State() == UpdateTimes(before[c], c.user, Turns(children[..it], c))
    {
      forall c | c in all ensures
        Turns(children[..it + 1], c) == Turns(children[..it], c) + (if c == children[it] then 1 else 0)
      {
        OneTurnMore(children, it, c);
      }
      ghost var next := children[it];
      UpdateOnceMore(before[next], next.user, Turns(children[..it], next));
      children[it].Process();
      it := it + 1;
    }
  }
}
