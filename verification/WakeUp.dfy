/** Waiting for messages in rtt/ExecutionEngine.cpp: any number of threads in
    `waitForMessagesInternal` and one that processes, with `msg_lock` and `msg_cond`. */
module WakeUp {

  /** Where a waiting thread is. */
  datatype Waiter =
    | Entering   // before the test without the lock
    | Locking    // before taking the lock
    | Testing    // has the lock, before `!pred()`
    | Waiting    // has the lock and saw `!pred()`, before `wait`
    | Asleep     // in `wait`, the lock released
    | Woken      // woken up, before taking the lock again
    | Returned

  /** Where a call of `processMessages` is. */
  datatype Place =
    | Dequeuing  // before `dequeue`
    | Executing  // in `executeAndDispose`
    | Passing    // the queue was empty, before taking the lock
    | Holding    // has the lock, before releasing it
    | Notifying  // before `if (com) broadcast()`

  /** One call of `processMessages`; `com` if it dequeued a message. */
  datatype Frame = Frame(place: Place, com: bool)

  datatype Owner = Free | Processor | Thread(w: nat)

  /** `calls` is the stack of the processing thread: a message may call `processMessages` itself.
      `locks` if the processing thread takes the lock between the messages and the broadcast, as
      `processMessages` does and `processFunctions` does not. */
  datatype State = State(waiters: seq<Waiter>, preds: seq<bool>, calls: seq<Frame>, owner: Owner, locks: bool)

  datatype Event =
    | Enter(w: nat, pred: bool)   // a new call of `waitForMessagesInternal`, with its own predicate
    | FirstTest(w: nat)
    | Acquire(w: nat)
    | Test(w: nat)
    | Sleep(w: nat)
    | Spurious(w: nat)
    | Call                        // `processMessages` is called
    | Dequeue
    | Satisfy(w: nat)             // the message makes a predicate true
    | Executed
    | Empty                       // `dequeue` found nothing
    | TakeLock
    | ReleaseLock
    | Notify                      // broadcast if there was a message, and return
    | Broadcast                   // by another thread, in `process`

  predicate WellFormed(s: State) {
    |s.preds| == |s.waiters|
  }

  function Top(s: State): Frame
    requires s.calls != []
  {
    s.calls[|s.calls| - 1]
  }

  predicate At(s: State, place: Place) {
    s.calls != [] && Top(s).place == place
  }

  predicate Is(s: State, w: nat, at: Waiter) {
    w < |s.waiters| && s.waiters[w] == at
  }

  predicate Enabled(s: State, e: Event)
    requires WellFormed(s)
  {
    match e
    case Enter(w, _) => Is(s, w, Returned)
    case FirstTest(w) => Is(s, w, Entering)
    case Acquire(w) => (Is(s, w, Locking) || Is(s, w, Woken)) && s.owner == Free
    case Test(w) => Is(s, w, Testing)
    case Sleep(w) => Is(s, w, Waiting)
    case Spurious(w) => Is(s, w, Asleep)
    case Call => s.calls == [] || At(s, Executing)
    case Dequeue => At(s, Dequeuing)
    case Satisfy(w) => At(s, Executing) && w < |s.preds|
    case Executed => At(s, Executing)
    case Empty => At(s, Dequeuing)
    case TakeLock => At(s, Passing) && s.owner == Free
    case ReleaseLock => At(s, Holding)
    case Notify => At(s, Notifying)
    case Broadcast => true
  }

  function Move(s: State, w: nat, to: Waiter): State
    requires w < |s.waiters|
  {
    s.(waiters := s.waiters[w := to])
  }

  function Go(s: State, place: Place): State
    requires s.calls != []
  {
    s.(calls := s.calls[|s.calls| - 1 := Top(s).(place := place)])
  }

  function WakeAll(s: State): State {
    s.(waiters := seq(|s.waiters|, i requires 0 <= i < |s.waiters| =>
        if s.waiters[i] == Asleep then Woken else s.waiters[i]))
  }

  function Apply(s: State, e: Event): (r: State)
    requires WellFormed(s) && Enabled(s, e)
    ensures WellFormed(r) && |r.waiters| == |s.waiters| && r.locks == s.locks
  {
    match e
    case Enter(w, pred) => Move(s, w, Entering).(preds := s.preds[w := pred])
    case FirstTest(w) => Move(s, w, if s.preds[w] then Returned else Locking)
    case Acquire(w) => Move(s, w, Testing).(owner := Thread(w))
    case Test(w) => if s.preds[w] then Move(s, w, Returned).(owner := Free) else Move(s, w, Waiting)
    case Sleep(w) => Move(s, w, Asleep).(owner := Free)
    case Spurious(w) => Move(s, w, Woken)
    case Call => s.(calls := s.calls + [Frame(Dequeuing, false)])
    case Dequeue => s.(calls := s.calls[|s.calls| - 1 := Frame(Executing, true)])
    case Satisfy(w) => s.(preds := s.preds[w := true])
    case Executed => Go(s, Dequeuing)
    case Empty => Go(s, if s.locks then Passing else Notifying)
    case TakeLock => Go(s, Holding).(owner := Processor)
    case ReleaseLock => Go(s, Notifying).(owner := Free)
    case Notify => (if Top(s).com then WakeAll(s) else s).(calls := s.calls[..|s.calls| - 1])
    case Broadcast => WakeAll(s)
  }

  function Init(n: nat, locks: bool): State {
    State(seq(n, _ => Returned), seq(n, _ => true), [], Free, locks)
  }

  ghost predicate Reaches(s: State, es: seq<Event>, t: State)
    requires WellFormed(s)
    decreases |es|
  {
    if es == [] then s == t
    else Enabled(s, es[0]) && Reaches(Apply(s, es[0]), es[1..], t)
  }

  // ---------------------------------------------------------------- the invariant

  /** The lock is where its owner is, and only the innermost call is not executing a message. */
  predicate LockInv(s: State) {
    && (forall w | 0 <= w < |s.waiters| ::
          (s.waiters[w] == Testing || s.waiters[w] == Waiting) <==> s.owner == Thread(w))
    && (s.owner.Thread? ==> s.owner.w < |s.waiters|)
    && (At(s, Holding) <==> s.owner == Processor)
  }

  predicate CallsInv(s: State) {
    && (forall i | 0 <= i < |s.calls| - 1 :: s.calls[i].place == Executing)
    && (forall i | 0 <= i < |s.calls| :: s.calls[i].place == Executing ==> s.calls[i].com)
  }

  /** A call that executed a message and has not passed the lock yet. */
  ghost predicate WillPass(s: State) {
    exists i | 0 <= i < |s.calls| ::
      s.calls[i].com && (s.calls[i].place == Dequeuing || s.calls[i].place == Executing || s.calls[i].place == Passing)
  }

  /** A call that executed a message and has not broadcast yet. */
  ghost predicate WillBroadcast(s: State) {
    exists i | 0 <= i < |s.calls| :: s.calls[i].com
  }

  /** A thread whose predicate is true and that is asleep, or about to be, will be woken up. */
  ghost predicate WakeInv(s: State)
    requires WellFormed(s)
  {
    && (forall w | 0 <= w < |s.waiters| && s.preds[w] && s.waiters[w] == Waiting :: WillPass(s))
    && (forall w | 0 <= w < |s.waiters| && s.preds[w] && s.waiters[w] == Asleep :: WillBroadcast(s))
  }

  ghost predicate Inv(s: State) {
    WellFormed(s) && s.locks && LockInv(s) && CallsInv(s) && WakeInv(s)
  }

  predicate HasLock(at: Waiter) { at == Testing || at == Waiting }

  lemma MoveKeepsLock(s: State, w: nat, at: Waiter, owner: Owner, preds: seq<bool>)
    requires WellFormed(s) && LockInv(s) && w < |s.waiters|
    requires if HasLock(at) then (s.owner == Free || s.owner == Thread(w)) && owner == Thread(w)
             else owner == if HasLock(s.waiters[w]) then Free else s.owner
    ensures LockInv(Move(s, w, at).(owner := owner, preds := preds))
  {
  }

  lemma WakeAllKeepsLock(s: State)
    requires LockInv(s)
    ensures LockInv(WakeAll(s))
  {
  }

  lemma ApplyKeepsLock(s: State, e: Event)
    requires WellFormed(s) && LockInv(s) && CallsInv(s) && Enabled(s, e)
    ensures LockInv(Apply(s, e))
  {
    match e
    case Enter(w, pred) => MoveKeepsLock(s, w, Entering, s.owner, s.preds[w := pred]);
    case FirstTest(w) => MoveKeepsLock(s, w, if s.preds[w] then Returned else Locking, s.owner, s.preds);
    case Acquire(w) => MoveKeepsLock(s, w, Testing, Thread(w), s.preds);
    case Test(w) =>
      if s.preds[w] {
        MoveKeepsLock(s, w, Returned, Free, s.preds);
      } else {
        MoveKeepsLock(s, w, Waiting, Thread(w), s.preds);
      }
    case Sleep(w) => MoveKeepsLock(s, w, Asleep, Free, s.preds);
    case Spurious(w) => MoveKeepsLock(s, w, Woken, s.owner, s.preds);
    case Notify => WakeAllKeepsLock(s);
    case Broadcast => WakeAllKeepsLock(s);
    case _ =>
  }

  lemma ApplyKeepsCalls(s: State, e: Event)
    requires WellFormed(s) && CallsInv(s) && Enabled(s, e)
    ensures CallsInv(Apply(s, e))
  {
  }

  /** The calls that will pass the lock, or broadcast, stay unless the lock is taken, or the
      broadcast done. */
  lemma PendingStays(s: State, e: Event)
    requires Inv(s) && Enabled(s, e)
    ensures WillPass(s) && e != TakeLock ==> WillPass(Apply(s, e))
    ensures WillBroadcast(s) && e != Notify ==> WillBroadcast(Apply(s, e))
  {
    var t := Apply(s, e);
    forall i | 0 <= i < |s.calls| && s.calls[i].com && e != Notify ensures i < |t.calls| && t.calls[i].com {
    }
    if WillPass(s) && e != TakeLock {
      var i :| 0 <= i < |s.calls| && s.calls[i].com
        && (s.calls[i].place == Dequeuing || s.calls[i].place == Executing || s.calls[i].place == Passing);
      assert i < |t.calls| && t.calls[i].com
        && (t.calls[i].place == Dequeuing || t.calls[i].place == Executing || t.calls[i].place == Passing);
    }
  }

  lemma ApplyKeepsWake(s: State, e: Event)
    requires Inv(s) && Enabled(s, e)
    ensures WakeInv(Apply(s, e))
  {
    PendingStays(s, e);
    var t := Apply(s, e);
    if e.Satisfy? {
      assert t.calls[|t.calls| - 1].com && t.calls[|t.calls| - 1].place == Executing;
      assert WillPass(t) && WillBroadcast(t);
    }
    forall w | 0 <= w < |t.waiters| && t.preds[w] && t.waiters[w] == Waiting ensures WillPass(t) {
    }
    forall w | 0 <= w < |t.waiters| && t.preds[w] && t.waiters[w] == Asleep ensures WillBroadcast(t) {
      if e == Sleep(w) {
        assert WillPass(s);
      }
    }
  }

  lemma {:induction false} RunKeeps(s: State, es: seq<Event>, t: State)
    requires Inv(s) && Reaches(s, es, t)
    ensures Inv(t)
    decreases |es|
  {
    if es != [] {
      ApplyKeepsLock(s, es[0]);
      ApplyKeepsCalls(s, es[0]);
      ApplyKeepsWake(s, es[0]);
      RunKeeps(Apply(s, es[0]), es[1..], t);
    }
  }

  lemma InitInv(n: nat)
    ensures Inv(Init(n, true))
  {
  }

  // ---------------------------------------------------------------- no lost wake-up

  /** A thread sleeps although its predicate is true, and no broadcast is to come. */
  predicate Lost(s: State, w: nat)
    requires WellFormed(s)
  {
    Is(s, w, Asleep) && s.preds[w] && s.calls == []
  }

  /** In every run a thread that is asleep with a true predicate will be woken up: a call of
      `processMessages` that executed a message has its broadcast still to do. */
  lemma NoLostWakeUp(n: nat, es: seq<Event>, t: State, w: nat)
    requires Reaches(Init(n, true), es, t) && w < n
    ensures WellFormed(t) && |t.waiters| == n
    ensures t.waiters[w] == Asleep && t.preds[w] ==> WillBroadcast(t)
    ensures !Lost(t, w)
  {
    InitInv(n);
    RunKeeps(Init(n, true), es, t);
    RunKeepsSize(Init(n, true), es, t);
  }

  lemma {:induction false} RunKeepsSize(s: State, es: seq<Event>, t: State)
    requires WellFormed(s) && Reaches(s, es, t)
    ensures WellFormed(t) && |t.waiters| == |s.waiters| && t.locks == s.locks
    decreases |es|
  {
    if es != [] {
      RunKeepsSize(Apply(s, es[0]), es[1..], t);
    }
  }

  /** The steps a thread that is awake has left if its predicate is true. */
  function StepsLeft(at: Waiter): nat {
    match at
    case Returned => 0
    case Testing => 1
    case Entering => 1
    case Locking => 2
    case Woken => 2
    case Waiting => 4
    case Asleep => 3
  }

  predicate Own(e: Event, w: nat) {
    e == FirstTest(w) || e == Acquire(w) || e == Test(w) || e == Sleep(w)
  }

  /** Awake with a true predicate, a thread never sleeps again, and each of its own steps brings it
      closer to the end of `waitForMessagesInternal`. */
  lemma AwakeStaysAwake(s: State, e: Event, w: nat)
    requires WellFormed(s) && Enabled(s, e) && w < |s.waiters| && (e.Enter? ==> e.w != w)
    requires s.preds[w] && s.waiters[w] != Waiting && s.waiters[w] != Asleep
    ensures var t := Apply(s, e);
      && t.preds[w] && t.waiters[w] != Waiting && t.waiters[w] != Asleep
      && StepsLeft(t.waiters[w]) <= StepsLeft(s.waiters[w])
      && (Own(e, w) ==> StepsLeft(t.waiters[w]) < StepsLeft(s.waiters[w]))
  {
  }

  /** At any time, such a thread can make its next step, or whoever has the lock can: another thread
      in `waitForMessagesInternal`, or the processing thread, which releases it. */
  lemma NotStuck(s: State, w: nat) returns (e: Event)
    requires Inv(s) && w < |s.waiters| && s.preds[w] && s.waiters[w] != Returned && s.waiters[w] != Asleep
    ensures Enabled(s, e)
    ensures || Own(e, w) || (s.owner == Processor && e == ReleaseLock)
            || exists v :: s.owner == Thread(v) && Own(e, v)
  {
    if s.waiters[w] == Entering {
      e := FirstTest(w);
    } else if s.owner == Free {
      e := Acquire(w);
    } else if s.owner == Processor {
      e := ReleaseLock;
    } else {
      var v := s.owner.w;
      e := if Is(s, v, Testing) then Test(v) else Sleep(v);
      assert s.owner == Thread(v) && Own(e, v);
    }
  }

  predicate OfProcessor(e: Event) {
    e.Dequeue? || e.Executed? || e.TakeLock? || e.ReleaseLock? || e.Notify?
  }

  /** A thread that sleeps with a true predicate is not forgotten: the processing thread, which has its
      broadcast to do, can make a step, or the thread that has the lock can. */
  lemma SleeperIsServed(s: State, w: nat) returns (e: Event)
    requires Inv(s) && w < |s.waiters| && s.preds[w] && s.waiters[w] == Asleep
    ensures WillBroadcast(s) && Enabled(s, e)
    ensures OfProcessor(e) || exists v :: s.owner == Thread(v) && Own(e, v)
  {
    match Top(s).place
    case Dequeuing => e := Dequeue;
    case Executing => e := Executed;
    case Holding => e := ReleaseLock;
    case Notifying => e := Notify;
    case Passing =>
      if s.owner == Free {
        e := TakeLock;
      } else {
        var v := s.owner.w;
        e := if Is(s, v, Testing) then Test(v) else Sleep(v);
        assert s.owner == Thread(v) && Own(e, v);
      }
  }

  // ---------------------------------------------------------------- returning

  /** A thread returns from the wait only in a step that finds its predicate true. */
  lemma ReturnsOnlyIfTrue(s: State, e: Event, w: nat)
    requires WellFormed(s) && Enabled(s, e) && w < |s.waiters|
    ensures s.waiters[w] != Returned && Apply(s, e).waiters[w] == Returned ==>
      s.preds[w] && Apply(s, e).preds[w] && (e == FirstTest(w) || e == Test(w))
  {
  }

  ghost predicate ReturnedTrue(s: State)
    requires WellFormed(s)
  {
    forall w | 0 <= w < |s.waiters| && s.waiters[w] == Returned :: s.preds[w]
  }

  lemma {:induction false} RunReturnsTrue(s: State, es: seq<Event>, t: State)
    requires WellFormed(s) && ReturnedTrue(s) && Reaches(s, es, t)
    ensures WellFormed(t) && ReturnedTrue(t)
    decreases |es|
  {
    if es != [] {
      var r := Apply(s, es[0]);
      forall w | 0 <= w < |r.waiters| && r.waiters[w] == Returned ensures r.preds[w] {
        ReturnsOnlyIfTrue(s, es[0], w);
      }
      RunReturnsTrue(r, es[1..], t);
    }
  }

  /** In every run, with the lock passed or not, whoever has returned has its predicate true. */
  lemma ReturnedMeansTrue(n: nat, locks: bool, es: seq<Event>, t: State, w: nat)
    requires Reaches(Init(n, locks), es, t) && w < n
    ensures WellFormed(t) && |t.waiters| == n && (t.waiters[w] == Returned ==> t.preds[w])
  {
    RunReturnsTrue(Init(n, locks), es, t);
    RunKeepsSize(Init(n, locks), es, t);
  }

  /** The steps a thread whose predicate stays false has left until it sleeps. */
  function StepsToSleep(at: Waiter): nat {
    match at
    case Entering => 4
    case Locking => 3
    case Woken => 3
    case Testing => 2
    case Waiting => 1
    case Asleep => 0
    case Returned => 0
  }

  /** While its predicate is false a thread does not return: each of its own steps brings it closer to
      sleep, and those of others do no more than wake it up. */
  lemma FalseGoesBackToSleep(s: State, e: Event, w: nat)
    requires WellFormed(s) && Enabled(s, e) && w < |s.waiters| && e != Satisfy(w)
    requires !s.preds[w] && s.waiters[w] != Returned
    ensures var t := Apply(s, e);
      && !t.preds[w] && t.waiters[w] != Returned
      && (Own(e, w) ==> StepsToSleep(t.waiters[w]) < StepsToSleep(s.waiters[w]))
      && (!Own(e, w) ==> t.waiters[w] == s.waiters[w] || (s.waiters[w] == Asleep && t.waiters[w] == Woken))
  {
  }

  /** A woken thread whose predicate is false gets the lock, tests again and is back before its wait. */
  lemma WokenTestsAgain(s: State, w: nat)
    requires WellFormed(s) && Is(s, w, Woken) && !s.preds[w] && s.owner == Free
    ensures Enabled(s, Acquire(w)) && Enabled(Apply(s, Acquire(w)), Test(w))
    ensures var t := Apply(Apply(s, Acquire(w)), Test(w));
      Is(t, w, Waiting) && t.owner == Thread(w) && Enabled(t, Sleep(w))
  {
  }

  /** A broadcast wakes every sleeper, and nothing else does but a spurious wake-up: at the end of
      `processMessages` there is one if and only if it executed a message. */
  lemma WhoWakesUp(s: State, e: Event, w: nat)
    requires WellFormed(s) && Enabled(s, e) && Is(s, w, Asleep)
    ensures Apply(s, e).waiters[w] != Asleep <==>
      e == Spurious(w) || e == Broadcast || (e == Notify && Top(s).com)
    ensures Apply(s, e).waiters[w] == Asleep || Apply(s, e).waiters[w] == Woken
  {
  }

  /** A call of `processMessages` goes on to its broadcast only when it found the queue empty. */
  lemma GoesOnWhenEmpty(s: State, e: Event)
    requires WellFormed(s) && Enabled(s, e) && (At(s, Dequeuing) || At(s, Executing))
    ensures var t := Apply(s, e);
      && |s.calls| <= |t.calls|
      && (|t.calls| == |s.calls| ==> (At(t, Dequeuing) || At(t, Executing) <==> e != Empty))
  {
  }

  // ---------------------------------------------------------------- the lock is needed

  lemma {:induction false} ReachesStep(s: State, es: seq<Event>, t: State, e: Event)
    requires WellFormed(s) && Reaches(s, es, t) && WellFormed(t) && Enabled(t, e)
    ensures Reaches(s, es + [e], Apply(t, e))
    decreases |es|
  {
    if es == [] {
      assert Reaches(Apply(t, e), [], Apply(t, e)) && [e][1..] == [];
    } else {
      ReachesStep(Apply(s, es[0]), es[1..], t, e);
      assert (es + [e])[1..] == es[1..] + [e];
    }
  }

  /** A thread calls `waitForMessagesInternal` and sees its predicate false. */
  lemma WaiterTests(s: State) returns (es: seq<Event>, t: State)
    requires WellFormed(s) && s.owner == Free && s.calls == [] && Is(s, 0, Returned)
    ensures Reaches(s, es, t) && WellFormed(t) && t.locks == s.locks && t.calls == [] && Is(t, 0, Waiting)
  {
    es, t := [], s;
    var events := [Enter(0, false), FirstTest(0), Acquire(0), Test(0)];
    var k := 0;
    while k < |events|
      invariant k <= |events| && Reaches(s, es, t) && WellFormed(t) && t.locks == s.locks && t.calls == []
      invariant Is(t, 0, match k
        case 0 => Returned
        case 1 => Entering
        case 2 => Locking
        case 3 => Testing
        case _ => Waiting)
      invariant (k > 0 ==> !t.preds[0]) && (k <= 2 ==> t.owner == Free)
    {
      ReachesStep(s, es, t, events[k]);
      es, t, k := es + [events[k]], Apply(t, events[k]), k + 1;
    }
  }

  /** Meanwhile a message makes the predicate true, and the broadcast is done without the lock. */
  lemma ProcessorBroadcasts(s: State, before: seq<Event>, r: State) returns (es: seq<Event>, t: State)
    requires WellFormed(s) && Reaches(s, before, r)
    requires WellFormed(r) && !r.locks && r.calls == [] && Is(r, 0, Waiting)
    ensures Reaches(s, es, t) && WellFormed(t) && t.calls == [] && Is(t, 0, Waiting) && t.preds[0]
  {
    es, t := before, r;
    var events := [Call, Dequeue, Satisfy(0), Executed, Empty, Notify];
    var k := 0;
    while k < |events|
      invariant k <= |events| && Reaches(s, es, t) && WellFormed(t) && !t.locks
      invariant Is(t, 0, Waiting) && (k >= 3 ==> t.preds[0])
      invariant t.calls == match k
        case 1 => [Frame(Dequeuing, false)]
        case 2 => [Frame(Executing, true)]
        case 3 => [Frame(Executing, true)]
        case 4 => [Frame(Dequeuing, true)]
        case 5 => [Frame(Notifying, true)]
        case _ => []
    {
      ReachesStep(s, es, t, events[k]);
      es, t, k := es + [events[k]], Apply(t, events[k]), k + 1;
    }
  }

  /** Only then the thread goes to sleep. */
  lemma UnlockedLosesAWakeUp(n: nat) returns (es: seq<Event>, t: State)
    requires n > 0
    ensures Reaches(Init(n, false), es, t) && WellFormed(t) && Lost(t, 0)
  {
    var s := Init(n, false);
    es, t := WaiterTests(s);
    es, t := ProcessorBroadcasts(s, es, t);
    ReachesStep(s, es, t, Sleep(0));
    es, t := es + [Sleep(0)], Apply(t, Sleep(0));
  }

  ghost predicate NeverLost(s: State)
    requires WellFormed(s)
  {
    forall es, t, w: nat | Reaches(s, es, t) && WellFormed(t) && w < |t.waiters| :: !Lost(t, w)
  }

  /** No wake-up is ever lost if and only if the processing thread passes the lock. */
  lemma SafeIffLocked(n: nat, locks: bool)
    requires n > 0
    ensures NeverLost(Init(n, locks)) <==> locks
  {
    if locks {
      forall es, t, w: nat | Reaches(Init(n, locks), es, t) && WellFormed(t) && w < |t.waiters| ensures !Lost(t, w) {
        RunKeepsSize(Init(n, true), es, t);
        NoLostWakeUp(n, es, t, w);
      }
    } else {
      var es, t := UnlockedLosesAWakeUp(n);
    }
  }
}
