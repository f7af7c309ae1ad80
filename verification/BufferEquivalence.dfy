/** One thread cannot tell the buffers apart: any sequence of operations, with at most one item
    handed out and not yet released, gives the same results on each of them. */
module BufferEquivalence {
  import opened BufferSpec
  import opened DequeBuffers
  import opened Options
  import LF = BufferLockFree

  /** `ReadHeld` reads the item handed out by the latest `PopWithoutRelease`. */
  datatype Op = DoPush(x: int) | DoPushAll(xs: seq<int>) | DoPop | DoPopAll
              | DoPopWithoutRelease | DoReadHeld | DoRelease | DoClear
              | DoSize | DoEmpty | DoFull | DoCapacity

  datatype Outcome = Flag(ok: bool) | Count(n: int) | Item(ok: bool, x: int) | Many(xs: seq<int>) | Nothing

  /** A bounded FIFO and the item handed out, if any. */
  datatype Fifo = Fifo(q: seq<int>, held: Option<int>)

  function First(q: seq<int>): Outcome { if q == [] then Item(false, 0) else Item(true, q[0]) }

  function Rest(q: seq<int>): seq<int> { if q == [] then [] else q[1..] }

  /** What an operation returns and leaves; the caller may not take a second item without
      release, nor release or read one it does not hold. */
  function Do(cap: nat, circular: bool, m: Fifo, op: Op): (Fifo, Outcome) {
    match op
    case DoPush(x) => var p := Push(cap, circular, m.q, x); (m.(q := p.items), Flag(p.ok))
    case DoPushAll(xs) => var p := PushAll(cap, circular, m.q, xs); (m.(q := p.items), Count(p.count))
    case DoPop => (m.(q := Rest(m.q)), First(m.q))
    case DoPopAll => (m.(q := []), Many(m.q))
    case DoPopWithoutRelease =>
      if m.held.Some? then (m, Nothing)
      else if m.q == [] then (m, Flag(false))
      else (Fifo(m.q[1..], Some(m.q[0])), Flag(true))
    case DoReadHeld => (m, if m.held.Some? then Item(true, m.held.value) else Nothing)
    case DoRelease => (m.(held := None), Nothing)
    case DoClear => (m.(q := []), Nothing)
    case DoSize => (m, Count(|m.q|))
    case DoEmpty => (m, Flag(m.q == []))
    case DoFull => (m, Flag(|m.q| == cap))
    case DoCapacity => (m, Count(cap))
  }

  function Outcomes(cap: nat, circular: bool, m: Fifo, ops: seq<Op>): seq<Outcome>
    decreases |ops|
  {
    if ops == [] then []
    else
      var (m', o) := Do(cap, circular, m, ops[0]);
      [o] + Outcomes(cap, circular, m', ops[1..])
  }

  ghost predicate DequeIs(b: DequeBuffer, m: Fifo)
    reads b
  {
    b.Valid() && b.buf == m.q && (m.held.Some? ==> b.lastSample == m.held.value)
  }

  method StepDeque(b: DequeBuffer, held: bool, op: Op, ghost m: Fifo) returns (o: Outcome)
    requires DequeIs(b, m) && held == m.held.Some? && (b.circular ==> 1 <= b.cap)
    modifies b
    ensures DequeIs(b, Do(b.cap, b.circular, m, op).0) && o == Do(b.cap, b.circular, m, op).1
  {
    match op {
      case DoPush(x) => var ok := b.Push(x); o := Flag(ok);
      case DoPushAll(xs) => var n := b.PushAll(xs); o := Count(n);
      case DoPop => var ok, x := b.Pop(); o := if ok then Item(true, x) else Item(false, 0);
      case DoPopAll => var xs := b.PopAll(); o := Many(xs);
      case DoPopWithoutRelease =>
        o := Nothing;
        if !held { var ok := b.PopWithoutRelease(); o := Flag(ok); }
      case DoReadHeld => o := if held then Item(true, b.lastSample) else Nothing;
      case DoRelease => o := Nothing;
      case DoClear => b.Clear(); o := Nothing;
      case DoSize => o := Count(b.Size());
      case DoEmpty => o := Flag(b.Empty());
      case DoFull => o := Flag(b.Full());
      case DoCapacity => o := Count(b.Capacity());
    }
  }

  ghost predicate LockFreeIs(b: LF.BufferLockFree, p: nat, m: Fifo)
    reads b, b.bufs, b.bufs.buf, b.mpool, b.mpool.values, b.mpool.next
  {
    && b.Valid() && b.Items() == m.q
    && b.held == (if m.held.Some? then [p] else [])
    && b.HeldItems() == (if m.held.Some? then [m.held.value] else [])
  }

  lemma OneValue(p: nat, values: seq<int>)
    requires 1 <= p <= |values|
    ensures LF.Values([p], values) == [values[p - 1]]
  {
  }

  /** The caller, who holds nothing, takes an item out and keeps its pointer. */
  method TakeOut(b: LF.BufferLockFree, p: nat, ghost m: Fifo) returns (ok: bool, p': nat)
    requires LockFreeIs(b, p, m) && m.held == None
    modifies b, b.bufs, b.bufs.buf
    ensures ok == (m.q != [])
    ensures LockFreeIs(b, p', if ok then Fifo(m.q[1..], Some(m.q[0])) else m)
  {
    hide LF.Partition, LF.BufferLockFree.Valid;
    p' := b.PopWithoutRelease();
    ok := p' != 0;
    if ok {
      OneValue(p', b.mpool.values[..]);
    }
  }

  /** The caller reads the item it holds. */
  method ReadHeld(b: LF.BufferLockFree, p: nat, ghost m: Fifo) returns (x: int)
    requires LockFreeIs(b, p, m) && m.held.Some?
    ensures x == m.held.value
  {
    hide LF.Partition, LF.BufferLockFree.Valid;
    assert p in b.held;
    b.HeldIsPointer(p);
    OneValue(p, b.mpool.values[..]);
    x := b.mpool.values[p - 1];
  }

  /** The caller gives back the item it holds. */
  method GiveBack(b: LF.BufferLockFree, p: nat, ghost m: Fifo)
    requires LockFreeIs(b, p, m) && m.held.Some?
    modifies b`held, b.mpool, b.mpool.next
    ensures LockFreeIs(b, p, m.(held := None))
  {
    hide LF.Partition, LF.BufferLockFree.Valid;
    assert p in b.held;
    b.Release(p);
    assert |multiset(b.held)| == 0;
  }

  /** The operations on the item handed out; `p` is the pointer the caller holds. */
  method StepHeld(b: LF.BufferLockFree, p: nat, held: bool, op: Op, ghost m: Fifo) returns (o: Outcome, p': nat)
    requires LockFreeIs(b, p, m) && held == m.held.Some?
    requires op.DoPopWithoutRelease? || op.DoReadHeld? || op.DoRelease?
    modifies b, b.bufs, b.bufs.buf, b.mpool, b.mpool.values, b.mpool.next
    ensures LockFreeIs(b, p', Do(b.bufs.size - 1, b.mcircular, m, op).0)
    ensures o == Do(b.bufs.size - 1, b.mcircular, m, op).1
  {
    hide LockFreeIs;
    p', o := p, Nothing;
    if op.DoPopWithoutRelease? && !held {
      var ok;
      ok, p' := TakeOut(b, p, m);
      o := Flag(ok);
    } else if op.DoReadHeld? && held {
      var x := ReadHeld(b, p, m);
      o := Item(true, x);
    } else if op.DoRelease? && held {
      GiveBack(b, p, m);
    }
  }

  method StepLockFree(b: LF.BufferLockFree, p: nat, held: bool, op: Op, ghost m: Fifo) returns (o: Outcome, p': nat)
    requires LockFreeIs(b, p, m) && held == m.held.Some?
    modifies b, b.bufs, b.bufs.buf, b.mpool, b.mpool.values, b.mpool.next
    ensures LockFreeIs(b, p', Do(b.bufs.size - 1, b.mcircular, m, op).0)
    ensures o == Do(b.bufs.size - 1, b.mcircular, m, op).1
  {
    hide LF.Partition, LF.Values, LF.BufferLockFree.Valid, BufferSpec.Push, BufferSpec.PushAll;
    p' := p;
    match op {
      case DoPush(x) => var ok := b.PushFifo(x); o := Flag(ok);
      case DoPushAll(xs) => var n := b.PushAll(xs); o := Count(n);
      case DoPop => var ok, x := b.Pop(); o := if ok then Item(true, x) else Item(false, 0);
      case DoPopAll => var xs := b.PopAll(); o := Many(xs);
      case DoClear => b.Clear(); o := Nothing;
      case DoSize => o := Count(b.Size());
      case DoEmpty => o := Flag(b.Empty());
      case DoFull => o := Flag(b.Full());
      case DoCapacity => o := Count(b.Capacity());
      case _ => o, p' := StepHeld(b, p, held, op, m);
    }
  }

  /** The results of doing `ops[i..]`, after those already obtained. */
  function Pending(cap: nat, circular: bool, got: seq<Outcome>, m: Fifo, ops: seq<Op>, i: nat): seq<Outcome>
    requires i <= |ops|
  {
    got + Outcomes(cap, circular, m, ops[i..])
  }

  lemma PendingStep(cap: nat, circular: bool, got: seq<Outcome>, m: Fifo, ops: seq<Op>, i: nat)
    requires i < |ops|
    ensures var (m', o) := Do(cap, circular, m, ops[i]);
      Pending(cap, circular, got, m, ops, i) == Pending(cap, circular, got + [o], m', ops, i + 1)
  {
    assert ops[i..][1..] == ops[i + 1..];
  }

  lemma PendingAll(cap: nat, circular: bool, m: Fifo, ops: seq<Op>)
    ensures Pending(cap, circular, [], m, ops, 0) == Outcomes(cap, circular, m, ops)
  {
    assert ops[0..] == ops;
  }

  lemma PendingNone(cap: nat, circular: bool, got: seq<Outcome>, m: Fifo, ops: seq<Op>)
    ensures Pending(cap, circular, got, m, ops, |ops|) == got
  {
    assert ops[|ops|..] == [];
  }

  method RunDeque(b: DequeBuffer, ops: seq<Op>) returns (got: seq<Outcome>)
    requires DequeIs(b, Fifo([], None)) && (b.circular ==> 1 <= b.cap)
    modifies b
    ensures got == Outcomes(b.cap, b.circular, Fifo([], None), ops)
  {
    var m := Fifo([], None);
    got := [];
    for i := 0 to |ops|
      invariant DequeIs(b, m)
      invariant Pending(b.cap, b.circular, got, m, ops, i) == Outcomes(b.cap, b.circular, Fifo([], None), ops)
    {
      PendingStep(b.cap, b.circular, got, m, ops, i);
      var o := StepDeque(b, m.held.Some?, ops[i], m);
      m, got := Do(b.cap, b.circular, m, ops[i]).0, got + [o];
    }
  }

  lemma HasSize(b: LF.BufferLockFree, p: nat, m: Fifo)
    requires LockFreeIs(b, p, m)
    ensures 0 < b.bufs.size
  {
    hide LF.Partition, LF.Values;
  }

  method RunLockFree(b: LF.BufferLockFree, ops: seq<Op>) returns (got: seq<Outcome>)
    requires LockFreeIs(b, 0, Fifo([], None))
    modifies b, b.bufs, b.bufs.buf, b.mpool, b.mpool.values, b.mpool.next
    ensures got == Outcomes(b.bufs.size - 1, b.mcircular, Fifo([], None), ops)
  {
    hide *;
    HasSize(b, 0, Fifo([], None));
    var m, p, cap := Fifo([], None), 0, b.bufs.size - 1;
    got := [];
    PendingAll(cap, b.mcircular, m, ops);
    for i := 0 to |ops|
      invariant LockFreeIs(b, p, m)
      invariant Pending(cap, b.mcircular, got, m, ops, i) == Outcomes(cap, b.mcircular, Fifo([], None), ops)
    {
      PendingStep(cap, b.mcircular, got, m, ops, i);
      var o;
      o, p := StepLockFree(b, p, m.held.Some?, ops[i], m);
      m, got := Do(cap, b.mcircular, m, ops[i]).0, got + [o];
    }
    PendingNone(cap, b.mcircular, got, m, ops);
  }

  method NewLockFree(cap: nat, circular: bool, initial: int) returns (b: LF.BufferLockFree)
    requires circular ==> 1 <= cap
    ensures fresh(b) && fresh(b.Footprint()) && b.bufs.size == cap + 1 && b.mcircular == circular
    ensures LockFreeIs(b, 0, Fifo([], None))
  {
    hide LF.Partition;
    b := new LF.BufferLockFree(cap, initial, circular);
  }

  /** New buffers of each kind, of the same capacity and mode, answer alike. */
  method Indistinguishable(cap: nat, circular: bool, initial: int, ops: seq<Op>)
    returns (deque: seq<Outcome>, lockfree: seq<Outcome>)
    requires circular ==> 1 <= cap
    ensures deque == lockfree == Outcomes(cap, circular, Fifo([], None), ops)
  {
    hide LockFreeIs, Outcomes;
    var a := new DequeBuffer(cap, initial, circular);
    deque := RunDeque(a, ops);
    var b := NewLockFree(cap, circular, initial);
    lockfree := RunLockFree(b, ops);
  }
}
