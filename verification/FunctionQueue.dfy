/** The round robin over the loaded functions in rtt/ExecutionEngine.cpp. */
module FunctionQueue {
  import opened Options
  import opened Sequences

  /** The address of a loaded function. */
  type F = int

  // ---------------------------------------------------------------- what a round leaves

  /** The functions whose execution asked to go on, in order; `keep(k)` is the answer of the k-th. */
  function Survivors(q: seq<F>, keep: nat -> bool, n: nat): seq<F>
    requires n <= |q|
  {
    if n == 0 then [] else Survivors(q, keep, n - 1) + (if keep(n - 1) then [q[n - 1]] else [])
  }

  function Finished(q: seq<F>, keep: nat -> bool, n: nat): seq<F>
    requires n <= |q|
  {
    if n == 0 then [] else Finished(q, keep, n - 1) + (if keep(n - 1) then [] else [q[n - 1]])
  }

  /** The survivors among the functions that arrived while the k-th one was executed. */
  function Tail(q: seq<F>, keep: nat -> bool, arrive: nat -> seq<F>, n: nat): seq<F>
    requires n <= |q|
  {
    if n == 0 then []
    else Tail(q, keep, arrive, n - 1) + arrive(n - 1) + (if keep(n - 1) then [q[n - 1]] else [])
  }

  function Arrived(arrive: nat -> seq<F>, n: nat): nat {
    if n == 0 then 0 else Arrived(arrive, n - 1) + |arrive(n - 1)|
  }

  lemma {:induction false} TailFits(q: seq<F>, keep: nat -> bool, arrive: nat -> seq<F>, n: nat)
    requires n <= |q|
    ensures |Tail(q, keep, arrive, n)| <= n + Arrived(arrive, n)
  {
    if n > 0 {
      TailFits(q, keep, arrive, n - 1);
    }
  }

  lemma {:induction false} ArrivedGrows(arrive: nat -> seq<F>, m: nat, n: nat)
    requires m <= n
    ensures Arrived(arrive, m) <= Arrived(arrive, n)
    decreases n
  {
    if m < n {
      ArrivedGrows(arrive, m, n - 1);
    }
  }

  /** If nothing arrives the survivors are all that is left, in order. */
  lemma {:induction false} QuietTail(q: seq<F>, keep: nat -> bool, arrive: nat -> seq<F>, n: nat)
    requires n <= |q| && forall k :: arrive(k) == []
    ensures Tail(q, keep, arrive, n) == Survivors(q, keep, n)
  {
    if n > 0 {
      QuietTail(q, keep, arrive, n - 1);
    }
  }

  /** `enqueue` one after the other: what does not fit is refused. */
  function Offer(q: seq<F>, fs: seq<F>, capacity: nat): (r: seq<F>)
    ensures q <= r && (|q| + |fs| <= capacity ==> r == q + fs)
    ensures fs != [] && capacity > 0 ==> r != []
    decreases |fs|
  {
    if fs == [] then q else Offer(if |q| < capacity then q + [fs[0]] else q, fs[1..], capacity)
  }

  /** What others do meanwhile: `keep(k)` is the answer of the k-th execution, and `arrive(k)` are the
      functions enqueued during it. */
  datatype World = World(capacity: nat, keep: nat -> bool, arrive: nat -> seq<F>)

  /** The variables of the loop, what it executed and what it unloaded. */
  datatype Round = Round(queue: seq<F>, nbr: int, executed: seq<F>, unloaded: seq<F>, more: bool)

  /** `early` arrive between the call of `size()` and the first `dequeue`. */
  function Begin(q: seq<F>, early: seq<F>, w: World): Round {
    Round(Offer(q, early, w.capacity), |q|, [], [], true)
  }

  /** One pass of the loop. */
  function Pass(r: Round, w: World): Round {
    if !r.more then r
    else if r.queue == [] then r.(more := false)
    else
      var n, f := |r.executed|, r.queue[0];
      var queue := Offer(r.queue[1..], w.arrive(n), w.capacity);
      Round(if w.keep(n) then Offer(queue, [f], w.capacity) else queue, r.nbr - 1,
            r.executed + [f], r.unloaded + (if w.keep(n) then [] else [f]), r.nbr - 1 != 0)
  }

  function Passes(r: Round, w: World, n: nat): Round {
    if n == 0 then r else Pass(Passes(r, w, n - 1), w)
  }

  /** The queue when n functions were executed: the others, and then, if there is room for all that
      arrives, the `early` ones and the tail. */
  ghost predicate InRound(q: seq<F>, early: seq<F>, w: World, n: nat, queue: seq<F>)
    requires n <= |q|
  {
    && q[n..] <= queue
    && (|q| + |early| + Arrived(w.arrive, |q|) <= w.capacity ==> queue == q[n..] + early + Tail(q, w.keep, w.arrive, n))
  }

  /** One function further. */
  lemma NextInRound(q: seq<F>, early: seq<F>, w: World, n: nat, queue: seq<F>, next: seq<F>)
    requires n < |q| && InRound(q, early, w, n, queue)
    requires queue != [] && queue[1..] <= next
    requires |queue[1..]| + |w.arrive(n)| < w.capacity ==>
      next == queue[1..] + w.arrive(n) + (if w.keep(n) then [queue[0]] else [])
    ensures queue[0] == q[n] && InRound(q, early, w, n + 1, next)
  {
    TailFits(q, w.keep, w.arrive, n);
    ArrivedGrows(w.arrive, n + 1, |q|);
    assert queue[0] == q[n..][0];
    if |q| + |early| + Arrived(w.arrive, |q|) <= w.capacity {
      assert queue[1..] == q[n + 1..] + early + Tail(q, w.keep, w.arrive, n);
      assert next == q[n + 1..] + early + Tail(q, w.keep, w.arrive, n + 1);
    }
  }

  /** A round over a queue that was not empty, whatever arrives: after n passes the first n functions
      were executed, and it ends after as many passes as functions were queued. */
  lemma {:induction false} RoundExecutes(q: seq<F>, early: seq<F>, w: World, n: nat)
    requires 0 < |q| && n <= |q|
    ensures var r := Passes(Begin(q, early, w), w, n);
      && r.nbr == |q| - n && r.more == (n < |q|)
      && r.executed == q[..n] && r.unloaded == Finished(q, w.keep, n)
      && InRound(q, early, w, n, r.queue)
  {
    if n == 0 {
      assert q[0..] == q;
    } else {
      RoundExecutes(q, early, w, n - 1);
      var r := Passes(Begin(q, early, w), w, n - 1);
      PassExecutes(q, early, w, n - 1, r);
    }
  }

  lemma PassExecutes(q: seq<F>, early: seq<F>, w: World, n: nat, r: Round)
    requires n < |q| && InRound(q, early, w, n, r.queue)
    requires r.nbr == |q| - n && r.more && r.executed == q[..n] && r.unloaded == Finished(q, w.keep, n)
    ensures var t := Pass(r, w);
      && t.nbr == |q| - n - 1 && t.more == (n + 1 < |q|)
      && t.executed == q[..n + 1] && t.unloaded == Finished(q, w.keep, n + 1)
      && InRound(q, early, w, n + 1, t.queue)
  {
    NextInRound(q, early, w, n, r.queue, Pass(r, w).queue);
  }

  /** What a whole round over a queue that was not empty leaves. */
  lemma RoundIsDone(q: seq<F>, early: seq<F>, w: World, n: nat)
    requires 0 < |q| <= n
    ensures var r := Passes(Begin(q, early, w), w, n);
      && !r.more && r.executed == q && r.unloaded == Finished(q, w.keep, |q|)
      && (|q| + |early| + Arrived(w.arrive, |q|) <= w.capacity ==> r.queue == early + Tail(q, w.keep, w.arrive, |q|))
  {
    RoundExecutes(q, early, w, |q|);
    EndedStays(Begin(q, early, w), w, |q|, n);
    assert q[..|q|] == q && q[|q|..] + early == early;
  }

  /** One pass, also of a round that started with an empty queue: the oldest function is executed, and
      queued again behind what arrives meanwhile, if there is room, or unloaded. */
  lemma PassTakesOldest(r: Round, w: World, oldest: F, others: seq<F>)
    requires r.more && r.queue == [oldest] + others && |others| + |w.arrive(|r.executed|)| < w.capacity
    ensures var n, t := |r.executed|, Pass(r, w);
      && t.executed == r.executed + [oldest] && t.nbr == r.nbr - 1 && (t.more <==> r.nbr != 1)
      && if w.keep(n) then t.queue == others + w.arrive(n) + [oldest] && t.unloaded == r.unloaded
         else t.queue == others + w.arrive(n) && t.unloaded == r.unloaded + [oldest]
  {
    assert r.queue[1..] == others;
  }

  // ---------------------------------------------------------------- what a round loses

  /** What `enqueue` refuses. */
  function Refused(q: seq<F>, fs: seq<F>, capacity: nat): seq<F>
    decreases |fs|
  {
    if fs == [] then []
    else if |q| < capacity then Refused(q + [fs[0]], fs[1..], capacity)
    else [fs[0]] + Refused(q, fs[1..], capacity)
  }

  lemma {:induction false} OfferConserves(q: seq<F>, fs: seq<F>, capacity: nat, f: F)
    ensures Count(Offer(q, fs, capacity), f) + Count(Refused(q, fs, capacity), f) == Count(q, f) + Count(fs, f)
    decreases |fs|
  {
    if fs != [] {
      CountJoin(q, [fs[0]], f);
      OfferConserves(if |q| < capacity then q + [fs[0]] else q, fs[1..], capacity, f);
    }
  }

  lemma {:induction false} OfferLength(q: seq<F>, fs: seq<F>, capacity: nat)
    requires |q| <= capacity
    ensures |Offer(q, fs, capacity)| == if |q| + |fs| <= capacity then |q| + |fs| else capacity
    decreases |fs|
  {
    if fs != [] {
      OfferLength(if |q| < capacity then q + [fs[0]] else q, fs[1..], capacity);
    }
  }

  /** The queue when the function just executed asks to go on. */
  function Meanwhile(r: Round, w: World): seq<F> {
    if r.more && r.queue != [] then Offer(r.queue[1..], w.arrive(|r.executed|), w.capacity) else []
  }

  /** The function of a pass that asks to go on and finds the queue full: neither queued nor unloaded. */
  function LostIn(r: Round, w: World): seq<F> {
    if r.more && r.queue != [] && w.keep(|r.executed|) then Refused(Meanwhile(r, w), [r.queue[0]], w.capacity) else []
  }

  /** The functions that arrive in a pass and are refused, which `runFunction` tells those who sent them. */
  function RefusedIn(r: Round, w: World): seq<F> {
    if r.more && r.queue != [] then Refused(r.queue[1..], w.arrive(|r.executed|), w.capacity) else []
  }

  function Lost(r: Round, w: World, n: nat): seq<F> {
    if n == 0 then [] else Lost(r, w, n - 1) + LostIn(Passes(r, w, n - 1), w)
  }

  function AllRefused(r: Round, w: World, n: nat): seq<F> {
    if n == 0 then [] else AllRefused(r, w, n - 1) + RefusedIn(Passes(r, w, n - 1), w)
  }

  /** Everything that arrives during the first n executions. */
  function Arrivals(arrive: nat -> seq<F>, n: nat): seq<F> {
    if n == 0 then [] else Arrivals(arrive, n - 1) + arrive(n - 1)
  }

  lemma PassConserves(r: Round, w: World, f: F)
    ensures var t := Pass(r, w);
      Count(t.queue, f) + Count(t.unloaded, f) + Count(LostIn(r, w), f) + Count(RefusedIn(r, w), f)
        + Count(Arrivals(w.arrive, |r.executed|), f)
      == Count(r.queue, f) + Count(r.unloaded, f) + Count(Arrivals(w.arrive, |t.executed|), f)
  {
    CountNone(f);
    hide Offer, Refused, Count, Arrivals;
    if r.more && r.queue != [] {
      var n, first := |r.executed|, r.queue[0];
      assert r.queue == [first] + r.queue[1..];
      CountJoin([first], r.queue[1..], f);
      CountJoin(r.unloaded, [first], f);
      OneMoreArrival(w.arrive, n, f);
      OfferConserves(r.queue[1..], w.arrive(n), w.capacity, f);
      OfferConserves(Meanwhile(r, w), [first], w.capacity, f);
      if w.keep(n) {
        assert Pass(r, w).unloaded == r.unloaded;
      } else {
        assert Pass(r, w).queue == Meanwhile(r, w);
      }
    }
  }

  lemma OneMoreArrival(arrive: nat -> seq<F>, n: nat, f: F)
    ensures Count(Arrivals(arrive, n + 1), f) == Count(Arrivals(arrive, n), f) + Count(arrive(n), f)
  {
    CountJoin(Arrivals(arrive, n), arrive(n), f);
  }

  lemma CountNone(f: F)
    ensures Count([], f) == 0
  {
  }

  lemma {:induction false} PassesConserve(b: Round, w: World, n: nat, f: F)
    ensures var r := Passes(b, w, n);
      Count(r.queue, f) + Count(r.unloaded, f) + Count(Lost(b, w, n), f) + Count(AllRefused(b, w, n), f)
        + Count(Arrivals(w.arrive, |b.executed|), f)
      == Count(b.queue, f) + Count(b.unloaded, f) + Count(Arrivals(w.arrive, |r.executed|), f)
  {
    if n == 0 {
      CountNone(f);
    } else {
      OnePass(b, w, n);
      hide Pass, Passes, Lost, LostIn, AllRefused, RefusedIn, Arrivals, Count;
      var r := Passes(b, w, n - 1);
      PassesConserve(b, w, n - 1, f);
      PassConserves(r, w, f);
      CountJoin(Lost(b, w, n - 1), LostIn(r, w), f);
      CountJoin(AllRefused(b, w, n - 1), RefusedIn(r, w), f);
    }
  }

  /** Whatever happens, after any number of passes each function that was queued or arrived is as often
      queued, unloaded, refused on arrival or lost. */
  lemma RoundConserves(q: seq<F>, early: seq<F>, w: World, n: nat, f: F)
    ensures var b := Begin(q, early, w); var r := Passes(b, w, n);
      Count(r.queue, f) + Count(r.unloaded, f) + Count(Lost(b, w, n), f)
        + Count(Refused(q, early, w.capacity), f) + Count(AllRefused(b, w, n), f)
      == Count(q, f) + Count(early, f) + Count(Arrivals(w.arrive, |r.executed|), f)
  {
    hide Passes, Lost, AllRefused, Refused, Offer, Count;
    CountNone(f);
    OfferConserves(q, early, w.capacity, f);
    PassesConserve(Begin(q, early, w), w, n, f);
  }

  /** Such a loss: the queue has one place, and another thread takes it while the function runs. */
  lemma FullQueueLosesFunction(f: F, g: F, arrive: nat -> seq<F>)
    requires arrive(0) == [g]
    ensures var w := World(1, _ => true, arrive); var b := Begin([f], [], w);
      && Passes(b, w, 1) == Round([g], 0, [f], [], false)
      && Lost(b, w, 1) == [f]
  {
    var w := World(1, _ => true, arrive);
    var b := Begin([f], [], w);
    assert b == Round([f], 1, [], [], true) && [f][1..] == [];
    assert Offer([], [g], 1) == [g] && Offer([g], [f], 1) == [g] && Refused([g], [f], 1) == [f];
    assert Passes(b, w, 0) == b && Lost(b, w, 0) == [];
  }

  /** The length of the queue once those who came early have been offered. */
  function Filled(q: seq<F>, early: seq<F>, capacity: nat): nat {
    if |q| + |early| <= capacity then |q| + |early| else capacity
  }

  lemma PassLength(r: Round, w: World)
    requires |r.queue| <= w.capacity
    ensures var n, t := |r.executed|, Pass(r, w);
      && |t.queue| <= w.capacity && |t.queue| + Arrived(w.arrive, n) <= |r.queue| + Arrived(w.arrive, |t.executed|)
      && (w.keep(n) && LostIn(r, w) == [] ==>
            |t.queue| + Arrived(w.arrive, n) == |r.queue| + Arrived(w.arrive, |t.executed|))
      && (LostIn(r, w) != [] ==> |r.queue| + Arrived(w.arrive, |t.executed|) > w.capacity + Arrived(w.arrive, n))
  {
    var n := |r.executed|;
    if r.more && r.queue != [] {
      hide Offer;
      OfferLength(r.queue[1..], w.arrive(n), w.capacity);
      OfferLength(Meanwhile(r, w), [r.queue[0]], w.capacity);
      assert |Refused(Meanwhile(r, w), [r.queue[0]], w.capacity)| == if |Meanwhile(r, w)| < w.capacity then 0 else 1;
      assert Arrived(w.arrive, n + 1) == Arrived(w.arrive, n) + |w.arrive(n)|;
    }
  }

  /** The queue never holds more than fits, nor more than came. */
  lemma {:induction false} QueueFits(b: Round, w: World, n: nat)
    requires |b.queue| <= w.capacity
    ensures var r := Passes(b, w, n);
      && |r.queue| <= w.capacity
      && |r.queue| + Arrived(w.arrive, |b.executed|) <= |b.queue| + Arrived(w.arrive, |r.executed|)
  {
    if n > 0 {
      OnePass(b, w, n);
      hide Pass, Passes, LostIn, Arrived;
      QueueFits(b, w, n - 1);
      PassLength(Passes(b, w, n - 1), w);
    }
  }

  /** It holds all that came if all functions go on and none is lost. */
  lemma {:induction false} QueueHoldsAll(b: Round, w: World, n: nat)
    requires |b.queue| <= w.capacity && (forall k :: w.keep(k)) && Lost(b, w, n) == []
    ensures var r := Passes(b, w, n);
      |r.queue| + Arrived(w.arrive, |b.executed|) == |b.queue| + Arrived(w.arrive, |r.executed|)
  {
    if n > 0 {
      OnePass(b, w, n);
      hide Pass, Passes, Lost, LostIn, Arrived;
      QueueHoldsAll(b, w, n - 1);
      QueueFits(b, w, n - 1);
      PassLength(Passes(b, w, n - 1), w);
    }
  }

  lemma OnePass(b: Round, w: World, n: nat)
    requires n > 0
    ensures Passes(b, w, n) == Pass(Passes(b, w, n - 1), w)
    ensures Lost(b, w, n) == Lost(b, w, n - 1) + LostIn(Passes(b, w, n - 1), w)
    ensures AllRefused(b, w, n) == AllRefused(b, w, n - 1) + RefusedIn(Passes(b, w, n - 1), w)
  {
  }

  lemma BeginLength(q: seq<F>, early: seq<F>, w: World)
    requires |q| <= w.capacity
    ensures var b := Begin(q, early, w); |b.queue| == Filled(q, early, w.capacity) <= w.capacity && b.executed == []
  {
    OfferLength(q, early, w.capacity);
  }

  lemma ExecutedCount(q: seq<F>, early: seq<F>, w: World, n: nat)
    requires n <= |q| && q != []
    ensures |Passes(Begin(q, early, w), w, n).executed| == n
  {
    hide Passes, Begin;
    RoundExecutes(q, early, w, n);
  }

  lemma {:induction false} LostNothing(b: Round, w: World, n: nat)
    requires forall k | 0 <= k < n :: LostIn(Passes(b, w, k), w) == []
    ensures Lost(b, w, n) == []
  {
    if n > 0 {
      hide Passes, LostIn;
      LostNothing(b, w, n - 1);
    }
  }

  lemma NoneIsLost(q: seq<F>, early: seq<F>, w: World)
    requires 0 < |q| <= w.capacity && Filled(q, early, w.capacity) + Arrived(w.arrive, |q|) <= w.capacity
    ensures Lost(Begin(q, early, w), w, |q|) == []
  {
    var b := Begin(q, early, w);
    forall k | 0 <= k < |q| ensures LostIn(Passes(b, w, k), w) == [] {
      NoLossIn(q, early, w, k);
    }
    hide Passes, LostIn, Begin;
    LostNothing(b, w, |q|);
  }

  lemma NoLossIn(q: seq<F>, early: seq<F>, w: World, n: nat)
    requires 0 < |q| <= w.capacity && n < |q|
    requires Filled(q, early, w.capacity) + Arrived(w.arrive, |q|) <= w.capacity
    ensures LostIn(Passes(Begin(q, early, w), w, n), w) == []
  {
    hide *;
    var b := Begin(q, early, w);
    var r := Passes(b, w, n);
    NothingArrived(w.arrive);
    ArrivedGrows(w.arrive, n + 1, |q|);
    BeginLength(q, early, w);
    ExecutedCount(q, early, w, n);
    ExecutedCount(q, early, w, n + 1);
    OnePass(b, w, n + 1);
    QueueFits(b, w, n);
    PassLength(r, w);
  }

  lemma NothingArrived(arrive: nat -> seq<F>)
    ensures Arrived(arrive, 0) == 0
  {
  }

  lemma SomeIsLost(q: seq<F>, early: seq<F>, w: World)
    requires 0 < |q| <= w.capacity < Filled(q, early, w.capacity) + Arrived(w.arrive, |q|) && forall k :: w.keep(k)
    ensures Lost(Begin(q, early, w), w, |q|) != []
  {
    var b := Begin(q, early, w);
    assert Arrived(w.arrive, 0) == 0;
    hide Passes, Lost, Begin, Filled, Arrived;
    BeginLength(q, early, w);
    ExecutedCount(q, early, w, |q|);
    QueueFits(b, w, |q|);
    if Lost(b, w, |q|) == [] {
      QueueHoldsAll(b, w, |q|);
    }
  }

  /** In a round over a queue that was not empty no function is lost, whatever they answer, if and only
      if nothing arrives during the executions or all that comes fits. */
  lemma NoneIsLostIff(q: seq<F>, early: seq<F>, capacity: nat, arrive: nat -> seq<F>)
    requires 0 < |q| <= capacity
    ensures (forall keep :: var w := World(capacity, keep, arrive); Lost(Begin(q, early, w), w, |q|) == [])
      <==> Arrived(arrive, |q|) == 0 || |q| + |early| + Arrived(arrive, |q|) <= capacity
  {
    if Filled(q, early, capacity) + Arrived(arrive, |q|) <= capacity {
      forall keep ensures var w := World(capacity, keep, arrive); Lost(Begin(q, early, w), w, |q|) == [] {
        NoneIsLost(q, early, World(capacity, keep, arrive));
      }
    } else {
      var w := World(capacity, _ => true, arrive);
      SomeIsLost(q, early, w);
    }
  }

  lemma {:induction false} TailLength(q: seq<F>, keep: nat -> bool, arrive: nat -> seq<F>, n: nat)
    requires n <= |q| && forall k :: keep(k)
    ensures |Tail(q, keep, arrive, n)| == n + Arrived(arrive, n)
  {
    if n > 0 {
      TailLength(q, keep, arrive, n - 1);
    }
  }

  lemma TooManyToQueue(q: seq<F>, early: seq<F>, w: World)
    requires 0 < |q| <= w.capacity < |q| + |early| + Arrived(w.arrive, |q|) && forall k :: w.keep(k)
    ensures Passes(Begin(q, early, w), w, |q|).queue != early + Tail(q, w.keep, w.arrive, |q|)
  {
    hide Passes, Begin, Filled, Arrived, Tail;
    BeginLength(q, early, w);
    QueueFits(Begin(q, early, w), w, |q|);
    TailLength(q, w.keep, w.arrive, |q|);
    assert |Passes(Begin(q, early, w), w, |q|).queue| < |early + Tail(q, w.keep, w.arrive, |q|)|;
  }

  /** What is queued after |q| passes if nothing is refused or lost. */
  ghost predicate AllIsQueued(q: seq<F>, early: seq<F>, w: World) {
    Passes(Begin(q, early, w), w, |q|).queue == early + Tail(q, w.keep, w.arrive, |q|)
  }

  /** After such a round the queue holds all that arrived and the survivors in order, whatever they
      answer, if and only if everything fits. */
  lemma AllIsQueuedIff(q: seq<F>, early: seq<F>, capacity: nat, arrive: nat -> seq<F>)
    requires 0 < |q| <= capacity
    ensures (forall keep :: AllIsQueued(q, early, World(capacity, keep, arrive)))
      <==> |q| + |early| + Arrived(arrive, |q|) <= capacity
  {
    if |q| + |early| + Arrived(arrive, |q|) <= capacity {
      forall keep ensures AllIsQueued(q, early, World(capacity, keep, arrive)) {
        RoundIsDone(q, early, World(capacity, keep, arrive), |q|);
      }
    } else {
      var w := World(capacity, _ => true, arrive);
      TooManyToQueue(q, early, w);
      assert !AllIsQueued(q, early, w);
    }
  }

  // ---------------------------------------------------------------- when a round ends

  ghost predicate Ends(q: seq<F>, early: seq<F>, w: World) {
    exists n :: !Passes(Begin(q, early, w), w, n).more
  }

  /** Functions that arrive early at an empty queue and ask to go on are executed again and again. */
  lemma {:induction false} EarlyArrivalsNeverEnd(early: seq<F>, w: World, n: nat)
    requires early != [] && w.capacity > 0 && forall k :: w.keep(k)
    ensures var r := Passes(Begin([], early, w), w, n);
      r.more && r.queue != [] && r.nbr == -(n as int) && |r.executed| == n && r.unloaded == []
  {
    if n > 0 {
      EarlyArrivalsNeverEnd(early, w, n - 1);
    }
  }

  /** Every round ends, whatever the functions answer, if and only if the queue is not empty at
      `size()` or nothing arrives before the first `dequeue`. */
  lemma AlwaysEndsIff(q: seq<F>, early: seq<F>, capacity: nat, arrive: nat -> seq<F>)
    ensures (forall keep :: Ends(q, early, World(capacity, keep, arrive))) <==> q != [] || early == [] || capacity == 0
  {
    if q != [] || early == [] || capacity == 0 {
      forall keep ensures Ends(q, early, World(capacity, keep, arrive)) {
        var w := World(capacity, keep, arrive);
        if q != [] {
          RoundExecutes(q, early, w, |q|);
        } else {
          OfferNothing(early, capacity);
          assert !Passes(Begin(q, early, w), w, 1).more;
        }
      }
    } else {
      var w := World(capacity, _ => true, arrive);
      forall n ensures Passes(Begin(q, early, w), w, n).more {
        EarlyArrivalsNeverEnd(early, w, n);
      }
      assert !Ends(q, early, w);
    }
  }

  lemma {:induction false} OfferNothing(fs: seq<F>, capacity: nat)
    requires fs == [] || capacity == 0
    ensures Offer([], fs, capacity) == []
    decreases |fs|
  {
    if fs != [] {
      OfferNothing(fs[1..], capacity);
    }
  }

  /** With given answers, a round that starts with an empty queue ends exactly when the queue drains. */
  lemma EndsIffDrained(early: seq<F>, w: World)
    ensures Ends([], early, w) <==> exists n :: Passes(Begin([], early, w), w, n).queue == []
  {
    var r := Begin([], early, w);
    if n: nat :| !Passes(r, w, n).more {
      MoreUntilDrained(early, w, n);
    }
    if n: nat :| Passes(r, w, n).queue == [] {
      assert !Passes(r, w, n + 1).more;
    }
  }

  lemma {:induction false} MoreUntilDrained(early: seq<F>, w: World, n: nat)
    ensures var r := Passes(Begin([], early, w), w, n);
      r.nbr <= 0 && (!r.more ==> r.queue == [])
  {
    if n > 0 {
      MoreUntilDrained(early, w, n - 1);
    }
  }

  /** Once ended, a round stays so. */
  lemma {:induction false} EndedStays(r: Round, w: World, m: nat, n: nat)
    requires m <= n && !Passes(r, w, m).more
    ensures Passes(r, w, n) == Passes(r, w, m)
    decreases n
  {
    if m < n {
      EndedStays(r, w, m, n - 1);
    }
  }

  /** The first place of `f`, or the length if there is none. */
  function First(q: seq<F>, f: F): (k: nat)
    ensures k <= |q| && f !in q[..k] && (k < |q| ==> q[k] == f)
  {
    if q == [] || q[0] == f then 0
    else
      var k := First(q[1..], f);
      assert q[..k + 1] == [q[0]] + q[1..][..k];
      k + 1
  }

  lemma {:induction false} FirstIs(q: seq<F>, f: F, k: nat)
    requires k <= |q| && f !in q[..k] && (k < |q| ==> q[k] == f)
    ensures First(q, f) == k
    decreases k
  {
    if k > 0 {
      assert q[0] in q[..k] && forall i | 0 <= i < k - 1 :: q[1..][i] in q[..k];
      FirstIs(q[1..], f, k - 1);
    }
  }

  lemma Rotate(q: seq<F>, k: nat)
    requires k < |q|
    ensures var r := q[k..] + q[..k];
      r[0] == q[k] && r[1..] == q[k + 1..] + q[..k] && r[1..] + [q[k]] == q[k + 1..] + q[..k + 1]
      && q[..k + 1] == q[..k] + [q[k]]
  {
  }

  // ---------------------------------------------------------------- the code

  class Functions {
    const capacity: nat
    var f_queue: seq<F>

    constructor (size: nat)
      ensures capacity == size && f_queue == []
    {
      capacity, f_queue := size, [];
    }

    method Enqueue(f: F) returns (ok: bool)
      modifies this
      ensures ok <==> old(|f_queue|) < capacity
      ensures f_queue == old(f_queue) + (if ok then [f] else [])
    {
      ok := |f_queue| < capacity;
      if ok {
        f_queue := f_queue + [f];
      }
    }

    method Dequeue() returns (f: Option<F>)
      modifies this
      ensures old(f_queue) == [] ==> f == None && f_queue == []
      ensures old(f_queue) != [] ==> f == Some(old(f_queue)[0]) && f_queue == old(f_queue)[1..]
    {
      f := None;
      if f_queue != [] {
        f := Some(f_queue[0]);
        f_queue := f_queue[1..];
      }
    }

    /** Functions that others enqueue; what does not fit is refused. */
    method Arrive(fs: seq<F>)
      modifies this
      ensures f_queue == Offer(old(f_queue), fs, capacity)
    {
      var k := 0;
      assert fs[0..] == fs;
      while k != |fs|
        invariant k <= |fs|
        invariant Offer(f_queue, fs[k..], capacity) == Offer(old(f_queue), fs, capacity)
      {
        ghost var q := f_queue;
        assert fs[k..][1..] == fs[k + 1..] && q + [] == q;
        var _ := Enqueue(fs[k]);
        assert Offer(q, fs[k..], capacity) == Offer(f_queue, fs[k + 1..], capacity);
        k := k + 1;
      }
    }

    /** The loop of `processFunctions`: one `dequeue`, and what follows it. */
    method ProcessOne(executed: seq<F>, unloaded: seq<F>, nbr: int, arrive: nat -> seq<F>, keep: nat -> bool)
      returns (executed': seq<F>, unloaded': seq<F>, nbr': int, more: bool)
      modifies this
      ensures Round(f_queue, nbr', executed', unloaded', more)
           == Pass(Round(old(f_queue), nbr, executed, unloaded, true), World(capacity, keep, arrive))
    {
      executed', unloaded', nbr', more := executed, unloaded, nbr, false;
      var foo := Dequeue();
      if foo.Some? {
        executed' := executed + [foo.value];
        Arrive(arrive(|executed|));
        if keep(|executed|) {
          Arrive([foo.value]);
        } else {
          unloaded' := unloaded + [foo.value];
        }
        nbr' := nbr - 1;
        more := nbr' != 0;
      }
    }

    /** `processFunctions`: other threads enqueue `early` between the call of `size()` and the first
        `dequeue`, and `arrive(k)` while the k-th function is executed.  At most `limit` passes are
        made, since there need not be a last one.  If the queue was not empty the round ends: every
        function that was queued is executed exactly once, in order, and none of those that arrive;
        those that asked to go on are queued again, in order, among the arrivals, if there is room.  A
        function that finds no room is lost: `enqueue` is not asked whether it took it. */
    method ProcessFunctions(early: seq<F>, arrive: nat -> seq<F>, keep: nat -> bool, limit: nat)
      returns (executed: seq<F>, unloaded: seq<F>, ended: bool)
      modifies this
      ensures var w := World(capacity, keep, arrive); var r := Passes(Begin(old(f_queue), early, w), w, limit);
        f_queue == r.queue && executed == r.executed && unloaded == r.unloaded && ended == !r.more
      ensures old(f_queue) != [] && |old(f_queue)| <= limit ==>
        && ended && executed == old(f_queue) && unloaded == Finished(old(f_queue), keep, |old(f_queue)|)
        && (|old(f_queue)| + |early| + Arrived(arrive, |old(f_queue)|) <= capacity ==>
              f_queue == early + Tail(old(f_queue), keep, arrive, |old(f_queue)|))
      ensures forall f :: var w := World(capacity, keep, arrive); var b := Begin(old(f_queue), early, w);
        Count(f_queue, f) + Count(unloaded, f) + Count(Lost(b, w, limit), f)
          + Count(Refused(old(f_queue), early, capacity), f) + Count(AllRefused(b, w, limit), f)
        == Count(old(f_queue), f) + Count(early, f) + Count(Arrivals(arrive, |executed|), f)
    {
      ghost var q, w := f_queue, World(capacity, keep, arrive);
      executed, unloaded := [], [];
      var nbr: int := |f_queue|;
      Arrive(early);
      ghost var start := Begin(q, early, w);
      var n, more := 0, true;
      while more && n < limit
        invariant n <= limit
        invariant Round(f_queue, nbr, executed, unloaded, more) == Passes(start, w, n)
        decreases more, limit - n
      {
        executed, unloaded, nbr, more := ProcessOne(executed, unloaded, nbr, arrive, keep);
        n := n + 1;
      }
      ended := !more;
      if ended {
        EndedStays(start, w, n, limit);
      }
      if q != [] && |q| <= limit {
        RoundIsDone(q, early, w, limit);
      }
      forall f ensures Count(f_queue, f) + Count(unloaded, f) + Count(Lost(start, w, limit), f)
          + Count(Refused(q, early, capacity), f) + Count(AllRefused(start, w, limit), f)
        == Count(q, f) + Count(early, f) + Count(Arrivals(arrive, |executed|), f)
      {
        RoundConserves(q, early, w, limit, f);
      }
    }

    /** `removeSelfFunction`: the first occurrence is removed and the rest rotated to start after
        it; the queue is left as it was if there is none.  The answer is true in both cases. */
    method RemoveSelfFunction(f: F) returns (ok: bool)
      requires |f_queue| <= capacity
      modifies this
      ensures ok
      ensures var q := old(f_queue); var k := First(q, f);
        f_queue == if k == |q| then q else q[k + 1..] + q[..k]
    {
      ghost var q := f_queue;
      var nbr := |f_queue|;
      var found := false;
      ok := true;
      assert q[0..] + q[..0] == q;
      while nbr != 0 && !found
        invariant 0 <= nbr <= |q|
        invariant f !in q[..|q| - nbr]
        invariant !found ==> f_queue == q[|q| - nbr..] + q[..|q| - nbr]
        invariant found ==> nbr != 0 && q[|q| - nbr] == f && f_queue == q[|q| - nbr + 1..] + q[..|q| - nbr]
        decreases nbr, !found
      {
        ghost var k := |q| - nbr;
        Rotate(q, k);
        var foo := Dequeue();
        if foo.value == f {
          found := true;
        } else {
          var _ := Enqueue(foo.value);
          nbr := nbr - 1;
        }
      }
      FirstIs(q, f, |q| - nbr);
      assert !found ==> q[|q|..] + q[..|q|] == q;
    }
  }
}
