/** The buffers used by one thread: the bounded FIFO they promise, the deque buffer of
    rtt/base/BufferLocked.hpp and rtt/base/BufferUnSync.hpp (the same code, with and without
    a mutex), and the pool-and-queue buffer of rtt/base/BufferLockFree.hpp. */
module BufferSpec {

  datatype Pushed = Pushed(ok: bool, items: seq<int>)
  datatype PushedAll = PushedAll(count: nat, items: seq<int>)

  /** A full buffer drops the newest item, or the oldest one when it is circular. */
  function Push(cap: nat, circular: bool, q: seq<int>, x: int): Pushed {
    if |q| < cap then Pushed(true, q + [x])
    else if circular && q != [] then Pushed(true, q[1..] + [x])
    else Pushed(false, q)
  }

  /** Push one by one, stopping at the first item refused. */
  function PushAll(cap: nat, circular: bool, q: seq<int>, xs: seq<int>): PushedAll
    decreases |xs|
  {
    if xs == [] then PushedAll(0, q)
    else
      var first := Push(cap, circular, q, xs[0]);
      if !first.ok then PushedAll(0, q)
      else
        var rest := PushAll(cap, circular, first.items, xs[1..]);
        PushedAll(rest.count + 1, rest.items)
  }

  function Last(s: seq<int>, n: nat): seq<int> {
    if |s| <= n then s else s[|s| - n..]
  }

  function Min(a: int, b: int): int { if a < b then a else b }

  /** The oldest of `n` items is not among the last `n` once another one follows. */
  lemma LastForgetsFirst(s: seq<int>, t: seq<int>, n: nat)
    requires |s| == n + 1
    ensures Last(s[1..] + t, n) == Last(s + t, n)
  {
  }

  /** Pushing one by one into a circular buffer keeps the last `cap` items of everything. */
  lemma {:induction false} CircularKeepsLast(cap: nat, q: seq<int>, xs: seq<int>)
    requires 1 <= cap && |q| <= cap
    ensures PushAll(cap, true, q, xs) == PushedAll(|xs|, Last(q + xs, cap))
    decreases |xs|
  {
    if xs == [] {
      assert q + xs == q;
    } else {
      assert q + xs == (q + [xs[0]]) + xs[1..];
      if |q| < cap {
        CircularKeepsLast(cap, q + [xs[0]], xs[1..]);
      } else {
        assert (q + [xs[0]])[1..] == q[1..] + [xs[0]];
        LastForgetsFirst(q + [xs[0]], xs[1..], cap);
        CircularKeepsLast(cap, q[1..] + [xs[0]], xs[1..]);
      }
    }
  }

  /** Pushing one by one into a buffer that is not circular takes what fits. */
  lemma {:induction false} PlainTakesFirst(cap: nat, q: seq<int>, xs: seq<int>)
    requires |q| <= cap
    ensures var k := Min(cap - |q|, |xs|); PushAll(cap, false, q, xs) == PushedAll(k, q + xs[..k])
    decreases |xs|
  {
    if xs != [] && |q| < cap {
      PlainTakesFirst(cap, q + [xs[0]], xs[1..]);
      var k := Min(cap - |q|, |xs|);
      assert xs[..k] == [xs[0]] + xs[1..][..k - 1];
      assert q + xs[..k] == (q + [xs[0]]) + xs[1..][..k - 1];
    }
  }
}

/** rtt/base/BufferLocked.hpp and rtt/base/BufferUnSync.hpp. */
module DequeBuffers {
  import opened BufferSpec

  /** What is kept of a circular buffer before the bulk push begins to copy. */
  function Kept(cap: nat, q: seq<int>, n: nat): seq<int>
    requires |q| <= cap
  {
    if n >= cap then [] else if |q| + n > cap then q[|q| + n - cap..] else q
  }

  /** What is kept and the copied end of the new items are the last `cap` of all. */
  lemma KeptAndCopied(cap: nat, q: seq<int>, items: seq<int>, skipped: nat)
    requires 1 <= cap && |q| <= cap && skipped == if |items| >= cap then |items| - cap else 0
    ensures PushAll(cap, true, q, items) == PushedAll(|items|, Kept(cap, q, |items|) + items[skipped..])
    ensures |Kept(cap, q, |items|)| + |items| - skipped <= cap
  {
    CircularKeepsLast(cap, q, items);
    assert Last(q + items, cap) == Kept(cap, q, |items|) + items[skipped..];
  }

  class DequeBuffer {
    const cap: nat
    const circular: bool
    var buf: seq<int>
    var lastSample: int

    predicate Valid()
      reads this
    {
      |buf| <= cap
    }

    /** Taking the front of an empty deque is undefined, so a circular buffer needs room for one. */
    constructor (size: nat, initial: int, circular: bool)
      requires circular ==> 1 <= size
      ensures Valid() && buf == [] && lastSample == initial && cap == size && this.circular == circular
    {
      cap, this.circular := size, circular;
      buf, lastSample := [], initial;
    }

    method Push(item: int) returns (ok: bool)
      requires Valid() && (circular ==> 1 <= cap)
      modifies this`buf
      ensures Valid() && Pushed(ok, buf) == BufferSpec.Push(cap, circular, old(buf), item)
    {
      if cap == |buf| {
        if !circular {
          return false;
        } else {
          buf := buf[1..];
        }
      }
      buf := buf + [item];
      return true;
    }

    /** Make room in a circular buffer: clear it and skip what would be dropped again, or drop
        from the front. */
    method MakeRoom(items: seq<int>) returns (itl: nat)
      requires Valid() && circular
      modifies this`buf
      ensures Valid() && buf == Kept(cap, old(buf), |items|)
      ensures itl == if |items| >= cap then |items| - cap else 0
    {
      itl := 0;
      if |items| >= cap {
        buf := [];
        itl := |items| - cap;
      } else if |buf| + |items| > cap {
        ghost var dropped := 0;
        while |buf| + |items| > cap
          invariant Valid() && |buf| + |items| >= cap
          invariant 0 <= dropped <= |old(buf)| && buf == old(buf)[dropped..]
        {
          buf := buf[1..];
          dropped := dropped + 1;
        }
      }
    }

    /** Copy from position `begin` on until the buffer is full. */
    method Copy(items: seq<int>, begin: nat) returns (itl: nat)
      requires Valid() && begin <= |items|
      modifies this`buf
      ensures Valid() && begin <= itl <= |items| && buf == old(buf) + items[begin..itl]
      ensures |buf| == cap || itl == |items|
    {
      itl := begin;
      while |buf| != cap && itl != |items|
        invariant Valid() && begin <= itl <= |items|
        invariant buf == old(buf) + items[begin..itl]
        decreases |items| - itl
      {
        buf := buf + [items[itl]];
        itl := itl + 1;
      }
    }

    /** The clear/skip/drop arithmetic of the bulk push does what pushing one by one does. */
    method PushAll(items: seq<int>) returns (count: nat)
      requires Valid() && (circular ==> 1 <= cap)
      modifies this`buf
      ensures Valid() && PushedAll(count, buf) == BufferSpec.PushAll(cap, circular, old(buf), items)
    {
      hide BufferSpec.PushAll;
      count := 0;
      if circular {
        count := MakeRoom(items);
        KeptAndCopied(cap, old(buf), items, count);
      } else {
        PlainTakesFirst(cap, old(buf), items);
      }
      count := Copy(items, count);
    }

    method Pop() returns (ok: bool, item: int)
      requires Valid()
      modifies this`buf
      ensures Valid() && ok == (old(buf) != [])
      ensures if ok then old(buf) == [item] + buf else buf == []
    {
      if buf == [] {
        return false, 0;
      }
      item := buf[0];
      buf := buf[1..];
      return true, item;
    }

    method PopAll() returns (items: seq<int>)
      requires Valid()
      modifies this`buf
      ensures Valid() && buf == [] && items == old(buf)
    {
      items := [];
      while buf != []
        invariant Valid() && items + buf == old(buf)
        decreases |buf|
      {
        items := items + [buf[0]];
        buf := buf[1..];
      }
    }

    /** Hands out the address of `lastSample`; its value is what `Front` reads. */
    method PopWithoutRelease() returns (ok: bool)
      requires Valid()
      modifies this
      ensures Valid() && ok == (old(buf) != [])
      ensures if ok then old(buf) == [lastSample] + buf else buf == [] && lastSample == old(lastSample)
    {
      if buf == [] {
        return false;
      }
      lastSample := buf[0];
      buf := buf[1..];
      return true;
    }

    method Clear()
      modifies this`buf
      ensures Valid() && buf == []
    {
      buf := [];
    }

    function Size(): int
      reads this
    {
      |buf|
    }

    predicate Empty()
      reads this
    {
      buf == []
    }

    predicate Full()
      reads this
    {
      |buf| == cap
    }

    function Capacity(): int { cap }
  }
}

/** rtt/internal/AtomicMWSRQueue.hpp and rtt/internal/TsPool.hpp, used by one thread. */
module QueueAndPool {

  /** The places from `r` up to `w`, wrapping at the end. */
  function Ring(buf: seq<nat>, r: nat, w: nat): seq<nat>
    requires r < |buf| && w < |buf|
  {
    if r <= w then buf[r..w] else buf[r..] + buf[..w]
  }

  function Following(buf: seq<nat>, i: nat): nat { if i + 1 >= |buf| then 0 else i + 1 }

  lemma AddBack(buf: seq<nat>, r: nat, w: nat, value: nat)
    requires r < |buf| && w < |buf| && Following(buf, w) != r
    ensures Ring(buf[w := value], r, Following(buf, w)) == Ring(buf, r, w) + [value]
  {
  }

  lemma TakeFront(buf: seq<nat>, r: nat, w: nat)
    requires r < |buf| && w < |buf| && r != w
    ensures Ring(buf, r, w) == [buf[r]] + Ring(buf[r := 0], Following(buf, r), w)
  {
  }

  /** A ring of pointers; 0 is the null pointer. */
  class AtomicMWSRQueue {
    const size: nat
    const buf: array<nat>
    var w: nat
    var r: nat
    ghost var contents: seq<nat>  // the queued pointers, oldest first

    ghost predicate Valid()
      reads this, buf
    {
      && 0 < size == buf.Length && w < size && r < size
      && (forall i | 0 <= i < size :: buf[i] != 0 <==> Inside(i))
      && contents == Ring(buf[..], r, w)
      && |contents| < size && 0 !in contents
    }

    ghost predicate Inside(i: nat)
      reads this
    {
      if r <= w then r <= i < w else r <= i || i < w
    }

    constructor (capacity: nat)
      ensures Valid() && fresh(buf) && contents == [] && size == capacity + 1
    {
      size := capacity + 1;
      buf := new nat[capacity + 1](_ => 0);
      w, r, contents := 0, 0, [];
    }

    function Size(): (c: int)
      reads this, buf
      requires Valid()
      ensures c == |contents|
    {
      var c := w - r;
      if c >= 0 then c else c + size
    }

    predicate IsEmpty(): (b: bool)
      reads this, buf
      requires Valid()
      ensures b == (contents == [])
    {
      w == r
    }

    predicate IsFull(): (b: bool)
      reads this, buf
      requires Valid()
      ensures b == (|contents| == size - 1)
    {
      w == r - 1 || w == r + size - 1
    }

    function Capacity(): (c: int)
      ensures c == size - 1
    {
      size - 1
    }

    method Enqueue(value: nat) returns (ok: bool)
      requires Valid()
      modifies this, buf
      ensures Valid()
      ensures ok == (value != 0 && |old(contents)| < size - 1)
      ensures contents == if ok then old(contents) + [value] else old(contents)
    {
      if value == 0 {
        return false;
      }
      if w == r - 1 || w == r + size - 1 {
        return false;
      }
      AddBack(buf[..], r, w, value);
      var loc := w;
      w := if w + 1 >= size then 0 else w + 1;
      buf[loc] := value;
      contents := contents + [value];
      assert buf[..] == old(buf[..])[loc := value];
      return true;
    }

    /** A failed dequeue leaves its argument, here `result`, alone. */
    method Dequeue(result: nat) returns (ok: bool, value: nat)
      requires Valid()
      modifies this, buf
      ensures Valid()
      ensures ok == (old(contents) != [])
      ensures if ok then old(contents) == [value] + contents else contents == [] && value == result
    {
      value := buf[r];
      if value == 0 {
        return false, result;
      }
      TakeFront(buf[..], r, w);
      ghost var loc := r;
      buf[r] := 0;
      r := if r + 1 >= size then 0 else r + 1;
      contents := contents[1..];
      assert buf[..] == old(buf[..])[loc := 0];
      return true, value;
    }
  }

  /** A free list threaded through the items; pointer `p` is item `p - 1`, 0 is null, -1 ends it. */
  class TsPool {
    const capacity: nat
    const values: array<int>
    const next: array<int>
    var head: int
    ghost var free: seq<nat>  // the free pointers, in allocation order

    ghost predicate Valid()
      reads this, next
    {
      && values.Length == next.Length == capacity && values != next
      && (forall i | 0 <= i < |free| :: 1 <= free[i] <= capacity)
      && (forall i, j | 0 <= i < j < |free| :: free[i] != free[j])
      && head == (if free == [] then -1 else free[0] - 1)
      && (forall i | 0 <= i < |free| ::
            next[free[i] - 1] == if i + 1 < |free| then free[i + 1] - 1 else -1)
    }

    constructor (ssize: nat, sample: int)
      requires 1 <= ssize
      ensures Valid() && fresh(values) && fresh(next) && capacity == ssize
      ensures free == seq(ssize, i => i + 1)
    {
      capacity := ssize;
      values := new int[ssize](_ => sample);
      next := new int[ssize](i => if i + 1 < ssize then i + 1 else -1);
      head := 0;
      free := seq(ssize, i => i + 1);
    }

    method Allocate() returns (p: nat)
      requires Valid()
      modifies this
      ensures Valid()
      ensures if old(free) == [] then p == 0 && free == [] else old(free) == [p] + free
    {
      if head == -1 {
        return 0;
      }
      p := head + 1;
      head := next[head];
      free := free[1..];
    }

    method Deallocate(p: nat) returns (ok: bool)
      requires Valid() && p <= capacity && p !in free
      modifies this, next
      ensures Valid() && ok == (p != 0)
      ensures free == if ok then [p] + old(free) else old(free)
    {
      if p == 0 {
        return false;
      }
      next[p - 1] := head;
      head := p - 1;
      free := [p] + free;
      return true;
    }
  }
}
