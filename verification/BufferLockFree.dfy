/** rtt/base/BufferLockFree.hpp used by one thread: pointers move between the pool, the queue
    and the caller, and what results is the bounded FIFO. */
module BufferLockFree {
  import opened BufferSpec
  import opened QueueAndPool

  /** Pointers `1 .. n` are each queued, free or held, and there are no more than `n` places. */
  ghost predicate Partition(n: nat, queued: seq<nat>, free: seq<nat>, held: seq<nat>) {
    && |queued| + |free| + |held| == n
    && forall p: nat | 1 <= p <= n :: p in queued || p in free || p in held
  }

  ghost function Elements(s: seq<nat>): (e: set<nat>)
    ensures |e| <= |s| && forall x :: x in e <==> x in s
  {
    if s == [] then {} else Elements(s[1..]) + {s[0]}
  }

  ghost function UpTo(n: nat): (e: set<nat>)
    ensures |e| == n && forall x :: x in e <==> 1 <= x <= n
  {
    if n == 0 then {} else UpTo(n - 1) + {n}
  }

  /** `n` places that cover `1 .. n` contain nothing else. */
  lemma CoverNeedsAll(s: seq<nat>, n: nat)
    requires forall p: nat | 1 <= p <= n :: p in s
    ensures n <= |s|
  {
    var e, u := Elements(s), UpTo(n);
    assert e == u + (e - u);
  }

  lemma CoverIsExact(s: seq<nat>, n: nat, i: nat)
    requires |s| == n && i < |s| && forall p: nat | 1 <= p <= n :: p in s
    ensures 1 <= s[i] <= n && s[i] !in s[..i] && s[i] !in s[i + 1..]
  {
    var rest := s[..i] + s[i + 1..];
    if !(1 <= s[i] <= n) || s[i] in rest {
      forall p: nat | 1 <= p <= n ensures p in rest {
        assert p in s;
        var k :| 0 <= k < |s| && s[k] == p;
        assert k < i ==> rest[k] == p;
        assert k > i ==> rest[k - 1] == p;
      }
      CoverNeedsAll(rest, n);
    }
  }

  /** So no pointer is in two places. */
  lemma PartitionFacts(n: nat, queued: seq<nat>, free: seq<nat>, held: seq<nat>)
    requires Partition(n, queued, free, held)
    ensures forall p | p in queued :: 1 <= p <= n && p !in free && p !in held
    ensures forall p | p in free :: 1 <= p <= n && p !in queued && p !in held
    ensures forall p | p in held :: 1 <= p <= n && p !in queued && p !in free
    ensures held != [] ==> held[|held| - 1] !in held[..|held| - 1]
  {
    var s := queued + free + held;
    forall p: nat | 1 <= p <= n ensures p in s {
    }
    forall i | 0 <= i < n ensures 1 <= s[i] <= n {
      CoverIsExact(s, n, i);
    }
    forall i, j | 0 <= i < j < n ensures s[i] != s[j] {
      CoverIsExact(s, n, i);
      assert s[j] in s[i + 1..];
    }
    Spread(queued, free, held, s, n);
  }

  lemma Spread(queued: seq<nat>, free: seq<nat>, held: seq<nat>, s: seq<nat>, n: nat)
    requires s == queued + free + held && |s| == n
    requires forall i, j | 0 <= i < j < n :: s[i] != s[j]
    requires forall i | 0 <= i < n :: 1 <= s[i] <= n
    ensures forall p | p in queued :: 1 <= p <= n && p !in free && p !in held
    ensures forall p | p in free :: 1 <= p <= n && p !in held
    ensures forall p | p in held :: 1 <= p <= n
    ensures held != [] ==> held[|held| - 1] !in held[..|held| - 1]
  {
    forall i | 0 <= i < |queued| ensures s[i] == queued[i] {}
    forall i | 0 <= i < |free| ensures s[|queued| + i] == free[i] {}
    forall i | 0 <= i < |held| ensures s[|queued| + |free| + i] == held[i] {}
  }

  /** The pointer just taken is in no list. */
  lemma Taken(n: nat, queued: seq<nat>, free: seq<nat>, held: seq<nat>, p: nat)
    requires Partition(n, queued, free, held + [p])
    ensures 1 <= p <= n && p !in queued && p !in free && p !in held
  {
    PartitionFacts(n, queued, free, held + [p]);
    assert p in held + [p];
    assert (held + [p])[..|held|] == held;
  }

  /** A pointer moves from the hands of the operation to the end of the queue. */
  lemma MoveToQueue(n: nat, queued: seq<nat>, free: seq<nat>, held: seq<nat>, p: nat)
    requires Partition(n, queued, free, held + [p])
    ensures Partition(n, queued + [p], free, held)
  {
  }

  /** A pointer moves from the front of the queue to the hands of the operation. */
  lemma MoveFromQueue(n: nat, queued: seq<nat>, free: seq<nat>, held: seq<nat>, p: nat)
    requires Partition(n, [p] + queued, free, held)
    ensures Partition(n, queued, free, held + [p])
  {
  }

  /** A pointer moves from the hands of the operation to the free list. */
  lemma MoveToFree(n: nat, queued: seq<nat>, free: seq<nat>, held: seq<nat>, p: nat)
    requires Partition(n, queued, free, held + [p])
    ensures Partition(n, queued, [p] + free, held)
  {
  }

  /** A pointer moves from the free list to the hands of the operation. */
  lemma MoveFromFree(n: nat, queued: seq<nat>, free: seq<nat>, held: seq<nat>, p: nat)
    requires Partition(n, queued, [p] + free, held)
    ensures Partition(n, queued, free, held + [p])
    ensures 1 <= p <= n
  {
    PartitionFacts(n, queued, [p] + free, held);
    assert p in [p] + free;
  }

  /** The pointer at the front of the queue is a pointer. */
  lemma FrontIsPointer(n: nat, queued: seq<nat>, free: seq<nat>, held: seq<nat>, p: nat)
    requires Partition(n, [p] + queued, free, held)
    ensures 1 <= p <= n
  {
    PartitionFacts(n, [p] + queued, free, held);
    assert p in [p] + queued;
  }

  /** The order of the held pointers does not matter. */
  lemma HeldOrder(n: nat, queued: seq<nat>, free: seq<nat>, held: seq<nat>, i: nat)
    requires Partition(n, queued, free, held) && i < |held|
    ensures Partition(n, queued, free, held[..i] + held[i + 1..] + [held[i]])
  {
    var other := held[..i] + held[i + 1..] + [held[i]];
    assert held == held[..i] + [held[i]] + held[i + 1..];
    forall p | p in held ensures p in other {
    }
  }

  /** What `Push` does, in every state of queue and pool. */
  function PoolPush(cap: nat, circular: bool, q: seq<int>, free: nat, x: int): Pushed {
    if |q| == cap && !circular then Pushed(false, q)
    else if free == 0 then
      if circular && q != [] then Pushed(true, q[1..] + [x]) else Pushed(false, q)
    else if |q| == cap && q != [] then Pushed(true, q[1..] + [x])
    else Pushed(true, q + [x])
  }

  /** The pool's `Push` is the FIFO's unless the pool is empty while the queue has room, which
      takes two unreleased items. */
  lemma PoolPushIsFifo(cap: nat, circular: bool, q: seq<int>, free: nat, held: nat, x: int)
    requires |q| + free + held == cap + 1 && |q| <= cap && (circular ==> 1 <= cap)
    ensures PoolPush(cap, circular, q, free, x) == Push(cap, circular, q, x) <==> free != 0 || |q| == cap
    ensures held <= 1 ==> free != 0 || |q| == cap
    ensures free == 0 && |q| != cap ==> 2 <= held
  {
    if free == 0 && |q| < cap {
      assert |Push(cap, circular, q, x).items| == |q| + 1;
    }
  }

  /** And then, with the pool empty and room in the queue, the oldest item gives way in a circular buffer,
      unless there is none; otherwise the item is refused. */
  lemma PoolPushWithoutCell(cap: nat, circular: bool, q: seq<int>, x: int)
    requires |q| < cap
    ensures var r := PoolPush(cap, circular, q, 0, x);
      if circular && q != [] then r.ok && [q[0]] + r.items == q + [x]
      else !r.ok && r.items == q
  {
  }

  /** The items that pointers lead to. */
  function Values(ptrs: seq<nat>, values: seq<int>): seq<int> {
    seq(|ptrs|, i requires 0 <= i < |ptrs| => if 1 <= ptrs[i] <= |values| then values[ptrs[i] - 1] else 0)
  }

  /** Writing through a pointer changes only the items of lists it is in. */
  lemma WriteElsewhere(ptrs: seq<nat>, values: seq<int>, p: nat, x: int)
    requires 1 <= p <= |values| && p !in ptrs
    ensures Values(ptrs, values[p - 1 := x]) == Values(ptrs, values)
  {
  }

  /** The outcome of a bulk push that has done `count` items and may go on. */
  function Resumed(cap: nat, circular: bool, q: seq<int>, xs: seq<int>, count: nat, going: bool): PushedAll
    requires count <= |xs|
  {
    if !going then PushedAll(count, q)
    else
      var rest := PushAll(cap, circular, q, xs[count..]);
      PushedAll(count + rest.count, rest.items)
  }

  lemma ResumeOne(cap: nat, circular: bool, q: seq<int>, xs: seq<int>, count: nat)
    requires count < |xs|
    ensures var one := Push(cap, circular, q, xs[count]);
      Resumed(cap, circular, q, xs, count, true)
      == Resumed(cap, circular, one.items, xs, if one.ok then count + 1 else count, one.ok)
  {
    assert xs[count..][1..] == xs[count + 1..];
  }

  lemma Regroup(done: seq<int>, x: int, rest: seq<int>)
    ensures done + ([x] + rest) == (done + [x]) + rest
  {
  }

  class BufferLockFree {
    const bufs: AtomicMWSRQueue
    const mpool: TsPool
    const mcircular: bool
    ghost var held: seq<nat>  // handed out by PopWithoutRelease, not yet released

    ghost predicate Valid()
      reads this, bufs, bufs.buf, mpool, mpool.next
    {
      && Apart()
      && bufs.Valid() && mpool.Valid()
      && mpool.capacity == bufs.size
      && Partition(bufs.size, bufs.contents, mpool.free, held)
      && (mcircular ==> 2 <= bufs.size)
    }

    /** The objects of the buffer are different objects. */
    ghost predicate Apart()
      reads this, bufs, mpool
    {
      && (bufs.buf as object) != mpool.values && (bufs.buf as object) != mpool.next
    }

    ghost function Footprint(): set<object>
      reads this, bufs, mpool
    {
      {this, bufs, bufs.buf, mpool, mpool.values, mpool.next}
    }

    /** The items in the buffer, oldest first. */
    ghost function Items(): (s: seq<int>)
      reads this, bufs, bufs.buf, mpool, mpool.values
      requires bufs.Valid()
      ensures |s| == |bufs.contents|
    {
      Values(bufs.contents, mpool.values[..])
    }

    /** The items handed out and not yet released. */
    ghost function HeldItems(): seq<int>
      reads this, mpool, mpool.values
    {
      Values(held, mpool.values[..])
    }

    constructor (bufsize: nat, initial: int, circular: bool)
      requires circular ==> 1 <= bufsize
      ensures Valid() && fresh(Footprint()) && Items() == [] && held == []
      ensures bufs.size == bufsize + 1 && mcircular == circular
    {
      bufs := new AtomicMWSRQueue(bufsize);
      mpool := new TsPool(bufsize + 1, initial);
      mcircular := circular;
      held := [];
      new;
      forall p: nat | 1 <= p <= bufsize + 1 ensures p in mpool.free {
        assert mpool.free[p - 1] == p;
      }
    }

    /** The buffer with pointer `p` in the hands of the running operation. */
    ghost predicate ValidWith(p: nat)
      reads this, bufs, bufs.buf, mpool, mpool.next
    {
      && Apart()
      && bufs.Valid() && mpool.Valid()
      && mpool.capacity == bufs.size
      && Partition(bufs.size, bufs.contents, mpool.free, held + [p])
    }

    /** `mpool.allocate()`. */
    method Allocate() returns (mitem: nat)
      requires Valid()
      modifies mpool
      ensures if old(mpool.free) == [] then mitem == 0 && Valid() else mitem != 0 && ValidWith(mitem)
    {
      hide Partition;
      mitem := mpool.Allocate();
      if mitem != 0 {
        MoveFromFree(bufs.size, bufs.contents, mpool.free, held, mitem);
      }
    }

    /** `bufs.dequeue(mitem)`. */
    method Dequeue(mitem: nat) returns (ok: bool, p: nat)
      requires Valid()
      modifies bufs, bufs.buf
      ensures ok == (old(bufs.contents) != [])
      ensures if ok then p != 0 && ValidWith(p) && old(bufs.contents) == [p] + bufs.contents
              else p == mitem && Valid() && bufs.contents == old(bufs.contents)
      ensures ok ==> 1 <= p <= mpool.values.Length && old(Items()) == [mpool.values[p - 1]] + Items()
    {
      hide Partition;
      ok, p := bufs.Dequeue(mitem);
      if ok {
        FrontIsPointer(bufs.size, bufs.contents, mpool.free, held, p);
        MoveFromQueue(bufs.size, bufs.contents, mpool.free, held, p);
        ItemsBeforeDequeue(bufs.contents, mpool.values[..], p);
      }
    }

    /** `mpool.deallocate(p)`. */
    method Deallocate(p: nat)
      requires ValidWith(p) && (mcircular ==> 2 <= bufs.size)
      modifies mpool, mpool.next
      ensures Valid() && mpool.free == [p] + old(mpool.free)
    {
      hide Partition;
      Taken(bufs.size, bufs.contents, mpool.free, held, p);
      MoveToFree(bufs.size, bufs.contents, mpool.free, held, p);
      var freed := mpool.Deallocate(p);
    }

    /** `bufs.enqueue(p)`. */
    method Enqueue(p: nat) returns (ok: bool)
      requires ValidWith(p) && (mcircular ==> 2 <= bufs.size)
      modifies bufs, bufs.buf
      ensures ok == (|old(bufs.contents)| < bufs.size - 1)
      ensures if ok then Valid() && bufs.contents == old(bufs.contents) + [p]
              else ValidWith(p) && bufs.contents == old(bufs.contents)
    {
      hide Partition;
      Taken(bufs.size, bufs.contents, mpool.free, held, p);
      MoveToQueue(bufs.size, bufs.contents, mpool.free, held, p);
      ok := bufs.Enqueue(p);
    }

    /** A cell to write to: a free one or, in a circular buffer without one, the oldest queued. */
    method Obtain() returns (mitem: nat)
      requires Valid()
      modifies bufs, bufs.buf, mpool
      ensures mitem == 0 ==> Valid() && old(mpool.free) == [] && bufs.contents == old(bufs.contents)
                             && (mcircular ==> bufs.contents == [])
      ensures mitem != 0 ==> ValidWith(mitem)
      ensures mitem != 0 && old(mpool.free) == [] ==> mcircular && old(Items()) != [] && Items() == old(Items())[1..]
      ensures mitem != 0 && old(mpool.free) != [] ==> Items() == old(Items())
    {
      mitem := Allocate();
      if mitem == 0 && mcircular {
        var got;
        got, mitem := Dequeue(mitem);
      }
    }

    /** Pop and deallocate until the full queue takes `mitem`: one round is enough. */
    method DropAndEnqueue(mitem: nat)
      requires ValidWith(mitem) && mcircular && 2 <= bufs.size && |bufs.contents| == bufs.size - 1
      modifies bufs, bufs.buf, mpool, mpool.next
      ensures Valid() && bufs.contents == old(bufs.contents)[1..] + [mitem]
    {
      var itmp := 0;
      var queued := false;
      while !queued
        invariant if queued then Valid() && bufs.contents == old(bufs.contents)[1..] + [mitem]
                  else ValidWith(mitem) && bufs.contents == old(bufs.contents)
        decreases !queued
      {
        itmp := DropOldest(mitem, itmp);
        queued := Enqueue(mitem);
      }
    }

    /** One round of popping and deallocating. */
    method DropOldest(mitem: nat, itmp: nat) returns (dropped: nat)
      requires ValidWith(mitem) && bufs.contents != []
      modifies bufs, bufs.buf, mpool, mpool.next
      ensures ValidWith(mitem) && old(bufs.contents) == [dropped] + bufs.contents
    {
      hide Partition;
      var got;
      got, dropped := bufs.Dequeue(itmp);
      MoveFromQueue(bufs.size, bufs.contents, mpool.free, held + [mitem], dropped);
      Taken(bufs.size, bufs.contents, mpool.free, held + [mitem], dropped);
      MoveToFree(bufs.size, bufs.contents, mpool.free, held + [mitem], dropped);
      var freed := mpool.Deallocate(dropped);
    }

    /** `*mitem = item`: no queued or held item changes. */
    method Fill(mitem: nat, item: int)
      requires ValidWith(mitem)
      modifies mpool.values
      ensures ValidWith(mitem) && HeldItems() == old(HeldItems()) && Items() == old(Items())
      ensures 1 <= mitem <= mpool.values.Length && mpool.values[mitem - 1] == item
    {
      hide Partition;
      Taken(bufs.size, bufs.contents, mpool.free, held, mitem);
      ghost var values := mpool.values[..];
      WriteElsewhere(bufs.contents, values, mitem, item);
      WriteElsewhere(held, values, mitem, item);
      mpool.values[mitem - 1] := item;
      assert mpool.values[..] == values[mitem - 1 := item];
    }

    /** Queue the filled cell, giving it back or dropping the oldest when the queue is full. */
    method Place(mitem: nat) returns (ok: bool)
      requires ValidWith(mitem) && (mcircular ==> 2 <= bufs.size)
      modifies bufs, bufs.buf, mpool, mpool.next
      ensures Valid()
      ensures ok == (|old(bufs.contents)| < bufs.size - 1 || mcircular)
      ensures bufs.contents ==
        if |old(bufs.contents)| < bufs.size - 1 then old(bufs.contents) + [mitem]
        else if mcircular then old(bufs.contents)[1..] + [mitem]
        else old(bufs.contents)
    {
      ok := Enqueue(mitem);
      if !ok {
        if !mcircular {
          Deallocate(mitem);
        } else {
          DropAndEnqueue(mitem);
          ok := true;
        }
      }
    }

    /** Write the item and queue its cell. */
    method FillAndPlace(mitem: nat, item: int) returns (ok: bool)
      requires ValidWith(mitem) && (mcircular ==> 2 <= bufs.size)
      modifies bufs, bufs.buf, mpool, mpool.values, mpool.next
      ensures Valid() && HeldItems() == old(HeldItems())
      ensures ok == (|old(Items())| < bufs.size - 1 || mcircular)
      ensures Items() ==
        if |old(Items())| < bufs.size - 1 then old(Items()) + [item]
        else if mcircular then old(Items())[1..] + [item]
        else old(Items())
    {
      Fill(mitem, item);
      ghost var ptrs, values := bufs.contents, mpool.values[..];
      ok := Place(mitem);
      ItemsAfterPlace(ptrs, values, mitem);
    }

    method Push(item: int) returns (ok: bool)
      requires Valid()
      modifies bufs, bufs.buf, mpool, mpool.values, mpool.next
      ensures Valid() && HeldItems() == old(HeldItems())
      ensures Pushed(ok, Items()) == PoolPush(bufs.size - 1, mcircular, old(Items()), |old(mpool.free)|, item)
    {
      ok := false;
      if Capacity() != bufs.Size() || mcircular {
        var mitem := Obtain();
        if mitem != 0 {
          ok := FillAndPlace(mitem, item);
        }
      }
    }

    /** With at most one item unreleased, `Push` is the bounded FIFO's. */
    method PushFifo(item: int) returns (ok: bool)
      requires Valid() && |held| <= 1
      modifies bufs, bufs.buf, mpool, mpool.values, mpool.next
      ensures Valid() && HeldItems() == old(HeldItems())
      ensures Pushed(ok, Items()) == BufferSpec.Push(bufs.size - 1, mcircular, old(Items()), item)
    {
      PartitionFacts(bufs.size, bufs.contents, mpool.free, held);
      PoolPushIsFifo(bufs.size - 1, mcircular, Items(), |mpool.free|, |held|, item);
      ok := Push(item);
    }

    /** Push one by one until one is refused. */
    method PushAll(items: seq<int>) returns (count: nat)
      requires Valid() && |held| <= 1
      modifies bufs, bufs.buf, mpool, mpool.values, mpool.next
      ensures Valid() && HeldItems() == old(HeldItems())
      ensures PushedAll(count, Items()) == BufferSpec.PushAll(bufs.size - 1, mcircular, old(Items()), items)
    {
      count := 0;
      ghost var cap, all := bufs.size - 1, BufferSpec.PushAll(bufs.size - 1, mcircular, old(Items()), items);
      var ok := true;
      while ok && count < |items|
        invariant Valid() && HeldItems() == old(HeldItems()) && count <= |items| && cap == bufs.size - 1
        invariant all == Resumed(cap, mcircular, Items(), items, count, ok)
        decreases ok, |items| - count
      {
        ResumeOne(cap, mcircular, Items(), items, count);
        ok := PushFifo(items[count]);
        if ok {
          count := count + 1;
        }
      }
    }

    method Pop() returns (ok: bool, item: int)
      requires Valid()
      modifies bufs, bufs.buf, mpool, mpool.next
      ensures Valid() && HeldItems() == old(HeldItems()) && ok == (old(Items()) != [])
      ensures if ok then old(Items()) == [item] + Items() else Items() == []
    {
      item := 0;
      var ipop;
      ok, ipop := Dequeue(0);
      if ok {
        item := mpool.values[ipop - 1];
        Deallocate(ipop);
      }
    }

    method PopAll() returns (items: seq<int>)
      requires Valid()
      modifies bufs, bufs.buf, mpool, mpool.next
      ensures Valid() && HeldItems() == old(HeldItems()) && Items() == [] && items == old(Items())
    {
      ghost var all := old(Items());
      items := [];
      var ok := true;
      while ok
        invariant Valid() && HeldItems() == old(HeldItems())
        invariant all == items + Items() && (!ok ==> Items() == [])
        decreases ok, |Items()|
      {
        var item;
        ok, item := Pop();
        if ok {
          Regroup(items, item, Items());
          items := items + [item];
        }
      }
    }

    /** The item stays in its cell, which the caller holds until it releases it. */
    method PopWithoutRelease() returns (p: nat)
      requires Valid()
      modifies this`held, bufs, bufs.buf
      ensures Valid() && mpool.free == old(mpool.free) && (p != 0) == (old(Items()) != [])
      ensures p == 0 ==> Items() == [] && held == old(held)
      ensures p != 0 ==> p <= mpool.values.Length && old(Items()) == [mpool.values[p - 1]] + Items()
                         && held == old(held) + [p]
    {
      var ok;
      ok, p := Dequeue(0);
      if ok {
        held := held + [p];
      }
    }

    /** Only an item handed out and not yet released may be released. */
    method Release(p: nat)
      requires Valid() && p in held
      modifies this`held, mpool, mpool.next
      ensures Valid() && Items() == old(Items())
      ensures mpool.free == [p] + old(mpool.free) && multiset(held) == multiset(old(held)) - multiset{p}
    {
      ghost var i :| 0 <= i < |held| && held[i] == p;
      HeldOrder(bufs.size, bufs.contents, mpool.free, held, i);
      assert held == held[..i] + [p] + held[i + 1..];
      held := held[..i] + held[i + 1..];
      Deallocate(p);
    }

    function Size(): (n: int)
      reads this, bufs, bufs.buf, mpool, mpool.values, mpool.next
      requires Valid()
      ensures n == |Items()|
    {
      bufs.Size()
    }

    predicate Empty(): (b: bool)
      reads this, bufs, bufs.buf, mpool, mpool.values, mpool.next
      requires Valid()
      ensures b == (Items() == [])
    {
      bufs.IsEmpty()
    }

    predicate Full(): (b: bool)
      reads this, bufs, bufs.buf, mpool, mpool.values, mpool.next
      requires Valid()
      ensures b == (|Items()| == Capacity())
    {
      bufs.IsFull()
    }

    function Capacity(): (n: int)
      reads this
      ensures n == bufs.size - 1
    {
      bufs.Capacity()
    }

    /** What is held leads to a cell. */
    lemma HeldIsPointer(p: nat)
      requires Valid() && p in held
      ensures 1 <= p <= mpool.values.Length
    {
      PartitionFacts(bufs.size, bufs.contents, mpool.free, held);
    }

    method Clear()
      requires Valid()
      modifies bufs, bufs.buf, mpool, mpool.next
      ensures Valid() && HeldItems() == old(HeldItems()) && Items() == []
    {
      var ok := true;
      while ok
        invariant Valid() && HeldItems() == old(HeldItems())
        invariant !ok ==> Items() == []
        decreases ok, |Items()|
      {
        var item;
        ok, item := Pop();
      }
    }
  }

  lemma ItemsBeforeDequeue(ptrs: seq<nat>, values: seq<int>, p: nat)
    requires 1 <= p <= |values|
    ensures Values([p] + ptrs, values) == [values[p - 1]] + Values(ptrs, values)
  {
  }

  lemma ItemsAfterPlace(ptrs: seq<nat>, values: seq<int>, p: nat)
    requires 1 <= p <= |values|
    ensures Values(ptrs + [p], values) == Values(ptrs, values) + [values[p - 1]]
    ensures ptrs != [] ==> Values(ptrs[1..] + [p], values) == Values(ptrs, values)[1..] + [values[p - 1]]
  {
  }
}
