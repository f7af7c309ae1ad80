/** `Get` and `Set` of rtt/base/DataObjectLockFree.hpp as written, on mutable cells, with the
    other threads running between any two accesses to shared memory.  What those threads do
    is an arbitrary schedule passed in; `world` holds their program counters and locals, and
    every access of the code below is one step of the transition system. */
module DataObject {
  import opened LockFreeRegister

  predicate OnlyReaders(es: seq<Event>) { forall i | 0 <= i < |es| :: es[i].GetStep? }

  predicate NotReader(es: seq<Event>, r: nat) { forall i | 0 <= i < |es| :: es[i] != GetStep(r) }

  /** What happens while the `i`-th access is being waited for; nothing once the schedule is over. */
  function At(schedule: seq<seq<Event>>, i: nat): seq<Event> {
    if i < |schedule| then schedule[i] else []
  }

  lemma ReaderKeepsWriter(s: State, r: nat)
    requires Shape(s)
    ensures var t := Step(s, GetStep(r));
      && t.readPtr == s.readPtr && t.writePtr == s.writePtr && t.writer == s.writer
      && t.published == s.published && t.calls == s.calls
  {
  }

  /** Readers change nothing on the writer's side. */
  lemma {:induction false} ReadersKeepWriter(s: State, es: seq<Event>)
    requires Shape(s) && OnlyReaders(es)
    ensures var t := Run(s, es);
      && t.readPtr == s.readPtr && t.writePtr == s.writePtr && t.writer == s.writer
      && t.published == s.published && t.calls == s.calls
    decreases |es|
  {
    if es != [] {
      StepKeepsShape(s, es[0]);
      ReaderKeepsWriter(s, es[0].reader);
      assert OnlyReaders(es[1..]);
      ReadersKeepWriter(Step(s, es[0]), es[1..]);
    }
  }

  lemma OtherKeepsReader(s: State, e: Event, r: nat)
    requires Shape(s) && e != GetStep(r) && r < |s.readers|
    ensures var t := Step(s, e);
      r < |t.readers| && t.readers[r] == s.readers[r] && s.published <= t.published
  {
  }

  /** Other threads leave the locals of reader `r` alone, and withdraw no publication. */
  lemma {:induction false} OthersKeepReader(s: State, es: seq<Event>, r: nat)
    requires Shape(s) && NotReader(es, r) && r < |s.readers|
    ensures var t := Run(s, es); t.readers[r] == s.readers[r] && s.published <= t.published
    decreases |es|
  {
    if es != [] {
      StepKeepsShape(s, es[0]);
      OtherKeepsReader(s, es[0], r);
      assert NotReader(es[1..], r);
      OthersKeepReader(Step(s, es[0]), es[1..], r);
    }
  }

  /** A schedule for the rest of the world while one thread makes one call. */
  predicate ForSet(schedule: seq<seq<Event>>) {
    forall i | 0 <= i < |schedule| :: OnlyReaders(schedule[i])
  }

  predicate ForGet(schedule: seq<seq<Event>>, r: nat) {
    forall i | 0 <= i < |schedule| :: NotReader(schedule[i], r)
  }

  lemma StepKeepsBoth(s: State, e: Event)
    requires Inv(s)
    ensures Inv(Step(s, e)) && Shape(Step(s, e)) && SameSize(s, Step(s, e))
  {
    StepKeepsInv(s, e);
    StepKeepsShape(s, e);
  }

  /** One evaluation of the loop condition of the scan: the scan moves on or chooses. */
  lemma TestEffect(s: State, push: Value)
    requires Inv(s) && s.writer.pc == Scanning
    ensures Shape(s)
    ensures var nxt := Next(|s.cells|, s.writePtr);
      var t := Step(s, SetStep(push));
      && nxt != s.writer.wrote && s.writer.tests < |s.cells|
      && t.cells == s.cells && t.readPtr == s.readPtr && t.published == s.published
      && t.writer.push == s.writer.push && t.writer.wrote == s.writer.wrote
      && if s.cells[nxt].counter != 0 || nxt == s.readPtr
         then t.writePtr == nxt && t.writer.pc == Scanning && t.writer.tests == s.writer.tests + 1
         else t.writePtr == s.writePtr && t.writer.pc == Publishing
  {
    ScanStaysShort(s);
  }

  lemma CopyIsPublished(s: State, r: nat)
    requires Inv(s) && r < |s.readers| && s.readers[r].pc == Copying && |s.readers[r].local| == s.width
    ensures var x := s.readers[r]; x.index < |s.published| && x.local == s.published[x.index].value
  {
  }

  class DataObjectLockFree {
    const bufLen: nat
    var readPtr: nat
    var writePtr: nat
    const data: array<Value>
    const counter: array<int>
    const next: array<int>
    var world: State

    ghost predicate Valid()
      reads this, data, counter, next
    {
      && counter != next
      && data.Length == counter.Length == next.Length == bufLen == |world.cells|
      && readPtr == world.readPtr && writePtr == world.writePtr
      && (forall c | 0 <= c < bufLen :: next[c] == Next(bufLen, c))
      && (forall c | 0 <= c < bufLen :: Cell(data[c], counter[c]) == world.cells[c])
      && Shape(world) && Inv(world)
    }

    /** The ring of `max_threads + 2` cells, for at most `max_threads - 1` readers. */
    constructor (initial: Value, maxThreads: nat, readers: nat)
      requires readers < maxThreads
      ensures Valid() && fresh(data) && fresh(counter) && fresh(next)
      ensures world == Init(maxThreads, initial, readers)
    {
      bufLen := maxThreads + 2;
      data := new Value[maxThreads + 2](_ => []);
      counter := new int[maxThreads + 2](_ => 0);
      next := new int[maxThreads + 2];
      readPtr, writePtr := 0, 1;
      world := Init(maxThreads, initial, readers);
      new;
      InitInv(maxThreads, initial, readers);
      DataSample(initial);
    }

    /** Every cell gets the sample and a link to its successor, the last one to the first. */
    method DataSample(sample: Value)
      requires counter != next && data.Length == counter.Length == next.Length == bufLen && 0 < bufLen
      modifies data, next
      ensures forall c | 0 <= c < bufLen :: data[c] == sample && next[c] == Next(bufLen, c)
      ensures counter[..] == old(counter[..])
    {
      for i := 0 to bufLen - 1
        invariant forall c | 0 <= c < i :: data[c] == sample && next[c] == Next(bufLen, c)
        invariant counter[..] == old(counter[..])
      {
        data[i] := sample;
        next[i] := i + 1;
      }
      data[bufLen - 1] := sample;
      next[bufLen - 1] := 0;
    }

    /** The other threads take the steps `es`. */
    method Preempt(es: seq<Event>)
      requires Valid()
      modifies this, data, counter
      ensures Valid()
      ensures world == Run(old(world), es)
    {
      RunKeepsInv(world, es);
      world := Run(world, es);
      readPtr, writePtr := world.readPtr, world.writePtr;
      forall c | 0 <= c < bufLen { data[c] := world.cells[c].data; }
      forall c | 0 <= c < bufLen { counter[c] := world.cells[c].counter; }
    }

    /** Readers run while the writer waits for its next access. */
    method PreemptWriter(es: seq<Event>)
      requires Valid() && OnlyReaders(es)
      modifies this, data, counter
      ensures Valid()
      ensures readPtr == old(readPtr) && writePtr == old(writePtr)
      ensures world.writer == old(world.writer) && world.width == old(world.width)
      ensures world.published == old(world.published)
    {
      ReadersKeepWriter(world, es);
      Preempt(es);
    }

    /** The call of `Set`. */
    method Begin(push: Value)
      requires Valid() && world.writer.pc == Idle && |push| == world.width
      modifies this
      ensures Valid() && world.width == old(world.width) && world.published == old(world.published)
      ensures world.writer.pc == Writing && world.writer.push == push && world.writer.words == 0
    {
      hide Inv;
      StepKeepsBoth(world, SetStep(push));
      world := Step(world, SetStep(push));
    }

    /** One word of `write_ptr->data = push`. */
    method StoreWord(push: Value, k: nat, es: seq<Event>)
      requires Valid() && OnlyReaders(es)
      requires world.writer.pc == Writing && world.writer.push == push && world.writer.words == k < world.width
      modifies this, data, counter
      ensures Valid() && world.width == old(world.width) && world.published == old(world.published)
      ensures world.writer.pc == Writing && world.writer.push == push && world.writer.words == k + 1
    {
      hide Inv;
      PreemptWriter(es);
      StepKeepsBoth(world, SetStep(push));
      data[writePtr] := data[writePtr][k := push[k]];
      world := Step(world, SetStep(push));
    }

    /** `wrote_ptr = write_ptr`. */
    method NoteWritten(push: Value, es: seq<Event>) returns (wrotePtr: nat)
      requires Valid() && OnlyReaders(es)
      requires world.writer.pc == Writing && world.writer.push == push && world.writer.words == world.width
      modifies this, data, counter
      ensures Valid() && world.published == old(world.published)
      ensures world.writer.pc == Scanning && world.writer.push == push && world.writer.wrote == wrotePtr
    {
      hide Inv;
      PreemptWriter(es);
      StepKeepsBoth(world, SetStep(push));
      wrotePtr := writePtr;
      world := Step(world, SetStep(push));
    }

    /** The loop condition of the scan; when it holds the loop body has moved `write_ptr` on. */
    method TestNext(push: Value, es: seq<Event>) returns (occupied: bool)
      requires Valid() && OnlyReaders(es)
      requires world.writer.pc == Scanning && world.writer.push == push
      modifies this, data, counter
      ensures Valid() && world.published == old(world.published)
      ensures world.writer.push == push && world.writer.wrote == old(world.writer.wrote)
      ensures occupied ==> world.writer.pc == Scanning && writePtr != world.writer.wrote
      ensures occupied ==> old(world.writer.tests) < world.writer.tests <= bufLen
      ensures !occupied ==> world.writer.pc == Publishing
    {
      hide Inv;
      PreemptWriter(es);
      StepKeepsBoth(world, SetStep(push));
      TestEffect(world, push);
      var nxt := next[writePtr];
      assert world.cells[nxt].counter == counter[nxt];
      occupied := counter[nxt] != 0 || nxt == readPtr;
      ghost var before := world;
      world := Step(world, SetStep(push));
      assert world.cells == before.cells && world.readPtr == readPtr;
      if occupied {
        writePtr := nxt;
      }
    }

    /** `read_ptr = wrote_ptr`. */
    method StoreReadPtr(push: Value, wrotePtr: nat, es: seq<Event>)
      requires Valid() && OnlyReaders(es)
      requires world.writer.pc == Publishing && world.writer.push == push && world.writer.wrote == wrotePtr
      modifies this, data, counter
      ensures Valid() && world.writer.pc == Advancing
      ensures |world.published| == |old(world.published)| + 1 && old(world.published) <= world.published
      ensures world.published[|old(world.published)|].value == push
    {
      hide Inv;
      PreemptWriter(es);
      StepKeepsBoth(world, SetStep(push));
      readPtr := wrotePtr;
      world := Step(world, SetStep(push));
    }

    /** `write_ptr = write_ptr->next`. */
    method AdvanceWritePtr(push: Value, es: seq<Event>)
      requires Valid() && OnlyReaders(es) && world.writer.pc == Advancing
      modifies this, data, counter
      ensures Valid() && world.writer.pc == Idle && world.published == old(world.published)
    {
      hide Inv;
      PreemptWriter(es);
      StepKeepsBoth(world, SetStep(push));
      writePtr := next[writePtr];
      world := Step(world, SetStep(push));
    }

    /** Whatever the readers do meanwhile, `Set` publishes the value it was given. */
    method Set(push: Value, schedule: seq<seq<Event>>)
      requires Valid() && world.writer.pc == Idle && |push| == world.width && ForSet(schedule)
      modifies this, data, counter
      ensures Valid() && world.writer.pc == Idle
      ensures |world.published| == |old(world.published)| + 1 && old(world.published) <= world.published
      ensures world.published[|old(world.published)|].value == push
    {
      hide Inv, Shape, Step, WriterStep;
      Begin(push);
      var i := 0;
      for k := 0 to |push|
        invariant Valid() && |push| == world.width && 0 <= i
        invariant world.writer.pc == Writing && world.writer.push == push && world.writer.words == k
        invariant world.published == old(world.published)
      {
        StoreWord(push, k, At(schedule, i));
        i := i + 1;
      }
      var wrotePtr := NoteWritten(push, At(schedule, i));
      var occupied := TestNext(push, At(schedule, i + 1));
      i := i + 2;
      while occupied
        invariant Valid() && 0 <= i
        invariant world.writer.push == push && world.writer.wrote == wrotePtr
        invariant world.writer.pc == if occupied then Scanning else Publishing
        invariant occupied ==> writePtr != wrotePtr
        invariant world.published == old(world.published)
        decreases occupied, bufLen - world.writer.tests
      {
        if writePtr == wrotePtr {
          assert false;
        }
        occupied := TestNext(push, At(schedule, i));
        i := i + 1;
      }
      StoreReadPtr(push, wrotePtr, At(schedule, i));
      AdvanceWritePtr(push, At(schedule, i + 1));
    }

    /** The other readers and the writer run while reader `r` waits for its next access. */
    method PreemptReader(es: seq<Event>, r: nat)
      requires Valid() && NotReader(es, r) && r < |world.readers|
      modifies this, data, counter
      ensures Valid()
      ensures world.width == old(world.width)
      ensures |world.readers| == |old(world.readers)| && world.readers[r] == old(world.readers[r])
      ensures old(world.published) <= world.published
      ensures es == [] ==> world == old(world)
    {
      OthersKeepReader(world, es, r);
      Preempt(es);
    }

    /** `reading = read_ptr`. */
    method LoadReadPtr(r: nat, es: seq<Event>) returns (reading: nat)
      requires Valid() && NotReader(es, r) && r < |world.readers| && world.readers[r].pc == Loading
      modifies this, data, counter
      ensures Valid() && |world.readers| == |old(world.readers)| && old(world.published) <= world.published
      ensures world.readers[r].pc == Loaded && world.readers[r].reading == reading < bufLen
      ensures reading == readPtr
    {
      hide Inv;
      PreemptReader(es, r);
      StepKeepsBoth(world, GetStep(r));
      reading := readPtr;
      world := Step(world, GetStep(r));
    }

    /** `oro_atomic_inc(&reading->counter)`. */
    method Lock(r: nat, reading: nat, es: seq<Event>)
      requires Valid() && NotReader(es, r) && r < |world.readers|
      requires world.readers[r].pc == Loaded && world.readers[r].reading == reading < bufLen
      modifies this, data, counter
      ensures Valid() && |world.readers| == |old(world.readers)| && old(world.published) <= world.published
      ensures world.readers[r].pc == Counted && world.readers[r].reading == reading
      ensures es == [] ==> readPtr == old(readPtr)
    {
      hide Inv;
      PreemptReader(es, r);
      StepKeepsBoth(world, GetStep(r));
      counter[reading] := counter[reading] + 1;
      world := Step(world, GetStep(r));
    }

    /** `reading != read_ptr`. */
    method Compare(r: nat, reading: nat, es: seq<Event>) returns (changed: bool)
      requires Valid() && NotReader(es, r) && r < |world.readers|
      requires world.readers[r].pc == Counted && world.readers[r].reading == reading
      modifies this, data, counter
      ensures Valid() && |world.readers| == |old(world.readers)| && old(world.published) <= world.published
      ensures world.readers[r].pc == (if changed then BackOff else Copying)
      ensures world.readers[r].reading == reading
      ensures !changed ==> world.readers[r].local == [] && world.readers[r].index == |world.published| - 1
      ensures es == [] ==> changed == (reading != old(readPtr))
    {
      hide Inv;
      PreemptReader(es, r);
      StepKeepsBoth(world, GetStep(r));
      changed := reading != readPtr;
      world := Step(world, GetStep(r));
    }

    /** `oro_atomic_dec(&reading->counter)` after a failed comparison: start over. */
    method GiveUp(r: nat, reading: nat, es: seq<Event>)
      requires Valid() && NotReader(es, r) && r < |world.readers|
      requires world.readers[r].reading == reading < bufLen && world.readers[r].pc == BackOff
      modifies this, data, counter
      ensures Valid() && |world.readers| == |old(world.readers)| && old(world.published) <= world.published
      ensures world.readers[r].pc == Loading
    {
      hide Inv;
      PreemptReader(es, r);
      StepKeepsBoth(world, GetStep(r));
      counter[reading] := counter[reading] - 1;
      world := Step(world, GetStep(r));
    }

    /** `oro_atomic_dec(&reading->counter)` after the copy: release the cell and return. */
    method Release(r: nat, reading: nat, es: seq<Event>)
      requires Valid() && NotReader(es, r) && r < |world.readers|
      requires world.readers[r].reading == reading < bufLen
      requires world.readers[r].pc == Copying && |world.readers[r].local| == world.width
      modifies this, data, counter
      ensures Valid() && |world.readers| == |old(world.readers)| && old(world.published) <= world.published
      ensures world.readers[r].pc == Outside
    {
      hide Inv;
      PreemptReader(es, r);
      StepKeepsBoth(world, GetStep(r));
      counter[reading] := counter[reading] - 1;
      world := Step(world, GetStep(r));
    }

    /** One word of `pull = reading->data`. */
    method CopyWord(r: nat, reading: nat, k: nat, es: seq<Event>) returns (word: int)
      requires Valid() && NotReader(es, r) && r < |world.readers|
      requires world.readers[r].pc == Copying && world.readers[r].reading == reading < bufLen
      requires |world.readers[r].local| == k < world.width
      modifies this, data, counter
      ensures Valid() && |world.readers| == |old(world.readers)| && old(world.published) <= world.published
      ensures world.width == old(world.width)
      ensures world.readers[r] == old(world.readers[r]).(local := old(world.readers[r]).local + [word])
    {
      hide Inv;
      PreemptReader(es, r);
      StepKeepsBoth(world, GetStep(r));
      word := data[reading][k];
      world := Step(world, GetStep(r));
    }

    /** One pass through the `do`/`while` loop up to its comparison. */
    method Attempt(r: nat, es: seq<Event>, fs: seq<Event>, gs: seq<Event>) returns (reading: nat, changed: bool)
      requires Valid() && r < |world.readers| && world.readers[r].pc == Loading
      requires NotReader(es, r) && NotReader(fs, r) && NotReader(gs, r)
      modifies this, data, counter
      ensures Valid() && |world.readers| == |old(world.readers)| && old(world.published) <= world.published
      ensures world.readers[r].pc == (if changed then BackOff else Copying)
      ensures world.readers[r].reading == reading < bufLen
      ensures !changed ==> world.readers[r].local == [] && world.readers[r].index == |world.published| - 1
      ensures fs == [] && gs == [] ==> !changed
    {
      hide Inv, Shape, Step, ReaderStep;
      reading := LoadReadPtr(r, es);
      Lock(r, reading, fs);
      changed := Compare(r, reading, gs);
    }

    /** The `do`/`while` loop of `Get`: lock a cell that is still `read_ptr` after the locking. */
    method Validate(r: nat, schedule: seq<seq<Event>>) returns (reading: nat, i: nat)
      requires Valid() && r < |world.readers| && world.readers[r].pc == Loading && ForGet(schedule, r)
      modifies this, data, counter
      ensures Valid() && |world.readers| == |old(world.readers)| && old(world.published) <= world.published
      ensures world.readers[r].pc == Copying && world.readers[r].reading == reading < bufLen
      ensures world.readers[r].local == [] && world.readers[r].index == |world.published| - 1
    {
      hide Inv, Shape, Step, ReaderStep;
      var changed := true;
      i, reading := 0, 0;
      while changed
        invariant Valid() && |world.readers| == |old(world.readers)| && old(world.published) <= world.published
        invariant world.readers[r].pc == (if changed then Loading else Copying)
        invariant !changed ==>
          && world.readers[r].reading == reading < bufLen
          && world.readers[r].local == [] && world.readers[r].index == |world.published| - 1
        decreases changed, if i < |schedule| then |schedule| - i else 0
      {
        reading, changed := Attempt(r, At(schedule, i), At(schedule, i + 1), At(schedule, i + 2));
        i := i + 3;
        if changed {
          GiveUp(r, reading, At(schedule, i));
          i := i + 1;
        }
      }
    }

    /** The call of `Get`. */
    method Enter(r: nat)
      requires Valid() && r < |world.readers| && world.readers[r].pc == Outside
      modifies this
      ensures Valid() && |world.readers| == |old(world.readers)| && world.published == old(world.published)
      ensures world.readers[r].pc == Loading
    {
      hide Inv;
      StepKeepsBoth(world, GetStep(r));
      world := Step(world, GetStep(r));
    }

    /** Whatever the other threads do meanwhile, `Get` ends, and returns a value that was the
        latest published one at some moment of the call. */
    method Get(r: nat, schedule: seq<seq<Event>>) returns (pull: Value)
      requires Valid() && r < |world.readers| && world.readers[r].pc == Outside && ForGet(schedule, r)
      modifies this, data, counter
      ensures Valid() && |world.readers| == |old(world.readers)| && world.readers[r].pc == Outside
      ensures old(world.published) <= world.published
      ensures exists k | |old(world.published)| - 1 <= k < |world.published| :: pull == world.published[k].value
    {
      hide Inv, Shape, Step, ReaderStep;
      Enter(r);
      var reading, i := Validate(r, schedule);
      ghost var k := world.readers[r].index;
      pull := [];
      while |pull| < world.width
        invariant Valid() && |world.readers| == |old(world.readers)|
        invariant old(world.published) <= world.published
        invariant |pull| <= world.width
        invariant world.readers[r].pc == Copying && world.readers[r].reading == reading < bufLen
        invariant world.readers[r].local == pull && world.readers[r].index == k
        decreases world.width - |pull|
      {
        var word := CopyWord(r, reading, |pull|, At(schedule, i));
        pull := pull + [word];
        i := i + 1;
      }
      CopyIsPublished(world, r);
      Release(r, reading, At(schedule, i));
    }
  }
}
