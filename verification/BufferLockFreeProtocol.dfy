/** The non-circular lock-free buffer of rtt/base/BufferLockFree.hpp, with its queue of
    cell pointers (rtt/internal/AtomicMWSRQueue.hpp) down to the single shared accesses, as
    a transition system: any number of threads push, one thread pops.

    An enqueue takes two steps, reserving a slot by moving the write index and storing the
    pointer later; a dequeue takes three, reading the slot, clearing it and moving the read
    index.  Taking a cell from the pool and giving it back are one step each. */
module LockFreeBuffer {
  import opened Options

  type Cell = nat

  /** Who may touch a cell. */
  datatype Place = Free | WithWriter(writer: nat) | InSlot(slot: nat) | WithReader

  /** Where a writer is inside `Push`. */
  datatype WriterPc = Outside | Allocating | Filling | Reserving | Storing | Returning

  /** The locals of one `Push`, and the items this writer's calls returned true for. */
  datatype Writer = Writer(pc: WriterPc, item: int, cell: Cell, slot: nat, ticket: nat, done: seq<int>)
  {
    predicate Owns() { pc == Filling || pc == Reserving || pc == Storing || pc == Returning }
  }

  /** Where the reader is inside `Pop` or, when `keep`, `PopWithoutRelease`. */
  datatype ReaderPc = Ready | Read | Cleared | Dequeued | Copied

  datatype Reader = Reader(pc: ReaderPc, cell: Cell, keep: bool)
  {
    predicate Owns() { pc == Cleared || pc == Dequeued || pc == Copied }
  }

  datatype Accepted = Accepted(writer: nat, item: int)

  /** The queue's slots and indexes, the pool, the cells' contents, and all threads; `owner`,
      `accepted`, `taken` (read-index moves), `popped` and `held` record what happened. */
  datatype State = State(slots: seq<Option<Cell>>, w: nat, r: nat, pool: set<Cell>, memory: seq<int>,
                         writers: seq<Writer>, reader: Reader,
                         owner: seq<Place>, accepted: seq<Accepted>, taken: nat,
                         popped: seq<int>, held: map<Cell, int>)

  /** `PushStep`: the item if a `Push` begins, the cell if one is allocated, and whether the copy
      into the cell is still partial.  `PopStep`: which kind of pop begins. */
  datatype Event = PushStep(writer: nat, item: int, pick: Cell, partial: Option<int>)
                 | PopStep(keep: bool)
                 | ReleaseStep(cell: Cell)

  /** The slot `k` places after slot `from` in a ring of `n`. */
  function At(n: nat, from: nat, k: nat): nat {
    if from + k < n then from + k else if from + k < n + n then from + k - n else 0
  }

  function Wrap(n: nat, i: nat): nat { if i + 1 >= n then 0 else i + 1 }

  // ---------------------------------------------------------------- the queue's own arithmetic

  predicate Full(s: State) {
    s.w == s.r - 1 || s.w == s.r + |s.slots| - 1
  }

  function Size(s: State): int {
    var c := s.w - s.r;
    if c >= 0 then c else c + |s.slots|
  }

  function Capacity(s: State): int { |s.slots| - 1 }

  /** Enqueues begun, dequeues not yet finished: the pointers the queue accounts for. */
  function Queued(s: State): int { |s.accepted| - s.taken }

  ghost predicate Shape(s: State) {
    && 0 < |s.slots| == |s.memory| == |s.owner|
    && s.r < |s.slots| && s.w < |s.slots|
    && s.reader.cell < |s.memory|
    && (forall q | 0 <= q < |s.writers| :: s.writers[q].cell < |s.memory| && s.writers[q].slot < |s.slots|)
    && (forall i | 0 <= i < |s.slots| && s.slots[i].Some? :: s.slots[i].value < |s.memory|)
    && (forall c | c in s.pool :: c < |s.memory|)
    && (forall c | c in s.held :: c < |s.memory|)
  }

  // ---------------------------------------------------------------- steps

  function SetWriter(s: State, q: nat, x: Writer): State
    requires q < |s.writers|
  {
    s.(writers := s.writers[q := x])
  }

  function SetOwner(s: State, c: Cell, p: Place): State
    requires c < |s.owner|
  {
    s.(owner := s.owner[c := p])
  }

  function WriterStep(s: State, q: nat, item: int, pick: Cell, partial: Option<int>): State
    requires Shape(s) && q < |s.writers|
  {
    var x := s.writers[q];
    match x.pc
    case Outside =>
      if Capacity(s) == Size(s) then s
      else SetWriter(s, q, x.(pc := Allocating, item := item))
    case Allocating =>
      if s.pool == {} then SetWriter(s, q, x.(pc := Outside))
      else if pick !in s.pool then s
      else SetOwner(SetWriter(s.(pool := s.pool - {pick}), q, x.(pc := Filling, cell := pick)), pick, WithWriter(q))
    case Filling =>
      if partial.Some? then s.(memory := s.memory[x.cell := partial.value])
      else SetWriter(s.(memory := s.memory[x.cell := x.item]), q, x.(pc := Reserving))
    case Reserving =>
      if Full(s) then SetWriter(s, q, x.(pc := Returning))
      else
        SetWriter(s.(w := Wrap(|s.slots|, s.w), accepted := s.accepted + [Accepted(q, x.item)]),
                  q, x.(pc := Storing, slot := s.w, ticket := |s.accepted|))
    case Storing =>
      SetOwner(SetWriter(s.(slots := s.slots[x.slot := Some(x.cell)]), q, x.(pc := Outside, done := x.done + [x.item])),
               x.cell, InSlot(x.slot))
    case Returning =>
      SetOwner(SetWriter(s.(pool := s.pool + {x.cell}), q, x.(pc := Outside)), x.cell, Free)
  }

  function ReaderStep(s: State, keep: bool): State
    requires Shape(s)
  {
    var x := s.reader;
    match x.pc
    case Ready =>
      if s.slots[s.r].None? then s
      else s.(reader := Reader(Read, s.slots[s.r].value, keep))
    case Read =>
      SetOwner(s.(slots := s.slots[s.r := None], reader := x.(pc := Cleared)), x.cell, WithReader)
    case Cleared =>
      s.(r := Wrap(|s.slots|, s.r), taken := s.taken + 1, reader := x.(pc := Dequeued))
    case Dequeued =>
      var v := s.memory[x.cell];
      if x.keep then s.(held := s.held[x.cell := v], popped := s.popped + [v], reader := x.(pc := Ready))
      else s.(popped := s.popped + [v], reader := x.(pc := Copied))
    case Copied =>
      SetOwner(s.(pool := s.pool + {x.cell}, reader := x.(pc := Ready)), x.cell, Free)
  }

  function Step(s: State, e: Event): State
    requires Shape(s)
  {
    match e
    case PushStep(q, item, pick, partial) =>
      if q < |s.writers| then WriterStep(s, q, item, pick, partial) else s
    case PopStep(keep) => ReaderStep(s, keep)
    case ReleaseStep(c) =>
      if s.reader.pc == Ready && c in s.held
      then SetOwner(s.(pool := s.pool + {c}, held := s.held - {c}), c, Free)
      else s
  }

  function CellsBelow(n: nat): (cells: set<Cell>)
    ensures forall c: nat :: c in cells <==> c < n
  {
    if n == 0 then {} else CellsBelow(n - 1) + {n - 1}
  }

  function Init(bufsize: nat, initial: int, writers: nat): State {
    State(seq(bufsize + 1, _ => None), 0, 0, CellsBelow(bufsize + 1), seq(bufsize + 1, _ => initial),
          seq(writers, _ => Writer(Outside, 0, 0, 0, 0, [])), Reader(Ready, 0, false),
          seq(bufsize + 1, _ => Free), [], 0, [], map[])
  }

  // ---------------------------------------------------------------- the invariant

  /** The indexes describe a window of `Queued` slots, never more than the capacity. */
  ghost predicate Indexes(s: State) {
    && 0 <= Queued(s) < |s.slots|
    && s.r < |s.slots|
    && s.w == At(|s.slots|, s.r, Queued(s))
  }

  /** Cell `c` is in place `p`. */
  predicate Located(s: State, c: Cell, p: Place) {
    match p
    case Free => c in s.pool
    case WithWriter(q) => q < |s.writers| && s.writers[q].Owns() && s.writers[q].cell == c
    case InSlot(i) => i < |s.slots| && s.slots[i] == Some(c)
    case WithReader => (s.reader.Owns() && s.reader.cell == c) || c in s.held
  }

  ghost predicate OwnedCell(s: State, c: Cell)
    requires c < |s.owner|
  {
    forall p :: Located(s, c, p) <==> s.owner[c] == p
  }

  /** Each cell is in one place only, the one `owner` records. */
  ghost predicate Owned(s: State) {
    && (forall c: Cell | c < |s.owner| :: OwnedCell(s, c))
    && (s.reader.Owns() ==> s.reader.cell !in s.held)
  }

  /** The slot that ticket `j` was given. */
  function SlotOf(s: State, j: int): nat
    requires s.taken <= j
  {
    At(|s.slots|, s.r, j - s.taken)
  }

  /** An accepted item not yet taken is in its slot, on its way there, or just being taken out. */
  ghost predicate Carried(s: State, j: nat)
    requires Shape(s) && s.taken <= j < |s.accepted| && SlotOf(s, j) < |s.slots|
  {
    var a := s.accepted[j];
    match s.slots[SlotOf(s, j)]
    case Some(c) => s.memory[c] == a.item
    case None =>
      || (j == s.taken && s.reader.pc == Cleared)
      || (a.writer < |s.writers| && s.writers[a.writer].pc == Storing && s.writers[a.writer].ticket == j)
  }

  ghost predicate InTransit(s: State)
    requires Shape(s)
  {
    forall j | s.taken <= j < |s.accepted| :: SlotOf(s, j) < |s.slots| && Carried(s, j)
  }

  /** Slots beyond the last ticket are empty. */
  ghost predicate RestEmpty(s: State) {
    && s.taken <= |s.accepted|
    && forall j | |s.accepted| <= j < s.taken + |s.slots| :: SlotOf(s, j) < |s.slots| && s.slots[SlotOf(s, j)] == None
  }

  /** A writer about to store has a reserved, still empty slot and a filled cell. */
  ghost predicate StoreReady(s: State, q: nat)
    requires q < |s.writers|
  {
    var x := s.writers[q];
    && s.taken <= x.ticket < |s.accepted|
    && s.accepted[x.ticket] == Accepted(q, x.item)
    && x.slot == SlotOf(s, x.ticket) < |s.slots|
    && s.slots[x.slot] == None
    && (s.reader.pc == Cleared ==> x.ticket != s.taken)
  }

  ghost predicate StoresReady(s: State) {
    forall q | 0 <= q < |s.writers| && s.writers[q].pc == Storing :: StoreReady(s, q)
  }

  ghost predicate CellsFilled(s: State)
    requires Shape(s)
  {
    forall q | 0 <= q < |s.writers| && (s.writers[q].pc == Reserving || s.writers[q].pc == Storing) ::
      s.memory[s.writers[q].cell] == s.writers[q].item
  }

  ghost predicate ReaderFits(s: State)
    requires Shape(s)
  {
    && (s.reader.pc == Read ==> s.slots[s.r] == Some(s.reader.cell))
    && (s.reader.pc == Cleared ==>
          s.taken < |s.accepted| && s.slots[s.r] == None && s.memory[s.reader.cell] == s.accepted[s.taken].item)
    && (s.reader.pc == Dequeued ==>
          0 < s.taken <= |s.accepted| && s.memory[s.reader.cell] == s.accepted[s.taken - 1].item)
    && (forall c | c in s.held :: c < |s.memory| && s.memory[c] == s.held[c])
  }

  function Items(a: seq<Accepted>): seq<int> {
    seq(|a|, i requires 0 <= i < |a| => a[i].item)
  }

  /** What was popped is what was accepted, in order; one item may be between the two. */
  ghost predicate InOrder(s: State) {
    && |s.popped| + (if s.reader.pc == Dequeued then 1 else 0) == s.taken <= |s.accepted|
    && (forall i | 0 <= i < |s.popped| :: s.popped[i] == s.accepted[i].item)
  }

  /** The items of writer `q` among the accepted ones. */
  function Of(q: nat, a: seq<Accepted>): seq<int> {
    if a == [] then []
    else Of(q, a[..|a| - 1]) + (if a[|a| - 1].writer == q then [a[|a| - 1].item] else [])
  }

  /** What the calls of a writer returned true for, and the item one is about to return true for. */
  function Told(x: Writer): seq<int> {
    x.done + (if x.pc == Storing then [x.item] else [])
  }

  /** Accepted from a writer are exactly the items its calls returned true for, in call order,
      and the one it is about to return true for. */
  ghost predicate PerWriter(s: State) {
    forall q | 0 <= q < |s.writers| :: Of(q, s.accepted) == Told(s.writers[q])
  }

  ghost predicate Inv(s: State) {
    && Shape(s)
    && Indexes(s)
    && Owned(s)
    && InTransit(s) && RestEmpty(s)
    && StoresReady(s) && CellsFilled(s)
    && ReaderFits(s)
    && InOrder(s)
    && PerWriter(s)
  }

  lemma IndexArithmetic(s: State)
    requires Indexes(s)
    ensures Size(s) == Queued(s)
    ensures Full(s) <==> Queued(s) == Capacity(s)
  {
  }

  lemma WriterKeepsShape(s: State, q: nat, item: int, pick: Cell, partial: Option<int>)
    requires Shape(s) && q < |s.writers|
    ensures Shape(WriterStep(s, q, item, pick, partial))
  {
    hide Full, Size, Capacity;
  }

  /** What a step of writer `q` may change. */
  lemma WriterFrame(s: State, q: nat, item: int, pick: Cell, partial: Option<int>)
    requires Shape(s) && q < |s.writers|
    ensures var x, t := s.writers[q], WriterStep(s, q, item, pick, partial);
      && t.r == s.r && t.taken == s.taken && t.reader == s.reader && t.held == s.held && t.popped == s.popped
      && t.slots == (if x.pc == Storing then s.slots[x.slot := Some(x.cell)] else s.slots)
      && t.accepted == (if x.pc == Reserving && !Full(s) then s.accepted + [Accepted(q, x.item)] else s.accepted)
      && |t.memory| == |s.memory|
      && (forall c | 0 <= c < |s.memory| && (x.pc == Filling ==> c != x.cell) :: t.memory[c] == s.memory[c])
      && |t.writers| == |s.writers| && (forall p | 0 <= p < |s.writers| && p != q :: t.writers[p] == s.writers[p])
  {
  }

  /** How writer `q` itself goes on. */
  lemma WriterMoves(s: State, q: nat, item: int, pick: Cell, partial: Option<int>)
    requires Shape(s) && q < |s.writers|
    ensures var x, t := s.writers[q], WriterStep(s, q, item, pick, partial);
      && |t.writers| == |s.writers|
      && (t.writers[q].pc == Storing <==> x.pc == Reserving && !Full(s))
      && (t.writers[q].pc == Storing ==>
            t.writers[q] == x.(pc := Storing, slot := s.w, ticket := |s.accepted|))
  {
  }

  lemma WriterKeepsIndexes(s: State, q: nat, item: int, pick: Cell, partial: Option<int>)
    requires Shape(s) && Indexes(s) && q < |s.writers|
    ensures Indexes(WriterStep(s, q, item, pick, partial))
  {
  }

  lemma OnePlace(s: State, c: Cell, p: Place, p': Place)
    requires Owned(s) && c < |s.owner| && Located(s, c, p) && Located(s, c, p')
    ensures p == p'
  {
    assert OwnedCell(s, c);
  }

  lemma WriterMovesCell(s: State, q: nat, item: int, pick: Cell, partial: Option<int>, c: Cell)
    requires Shape(s) && q < |s.writers| && c < |s.owner| && OwnedCell(s, c)
    requires s.writers[q].pc == Storing ==> s.slots[s.writers[q].slot] == None
    ensures var t := WriterStep(s, q, item, pick, partial); |t.owner| == |s.owner| && OwnedCell(t, c)
  {
    var t := WriterStep(s, q, item, pick, partial);
    forall p ensures Located(t, c, p) <==> t.owner[c] == p {
      assert Located(s, c, p) <==> s.owner[c] == p;
      assert Located(s, c, WithWriter(q)) <==> s.owner[c] == WithWriter(q);
      assert Located(s, c, Free) <==> s.owner[c] == Free;
    }
  }

  lemma WriterKeepsOwned(s: State, q: nat, item: int, pick: Cell, partial: Option<int>)
    requires Shape(s) && Owned(s) && q < |s.writers|
    requires s.writers[q].pc == Storing ==> s.slots[s.writers[q].slot] == None
    ensures Owned(WriterStep(s, q, item, pick, partial))
  {
    var t := WriterStep(s, q, item, pick, partial);
    forall c: Cell | c < |s.owner| ensures |t.owner| == |s.owner| && OwnedCell(t, c) {
      WriterMovesCell(s, q, item, pick, partial, c);
    }
  }

  lemma OtherStoreStays(s: State, q: nat, item: int, pick: Cell, partial: Option<int>, p: nat)
    requires Shape(s) && Indexes(s) && q < |s.writers| && p < |s.writers| && p != q
    requires StoreReady(s, p) && s.writers[q].pc == Storing ==> StoreReady(s, q)
    requires StoreReady(s, p)
    ensures var t := WriterStep(s, q, item, pick, partial); p < |t.writers| && StoreReady(t, p)
  {
    hide WriterStep;
    WriterFrame(s, q, item, pick, partial);
    if s.writers[q].pc == Storing {
      SlotsDistinct(s, s.writers[q].ticket, s.writers[p].ticket);
    }
  }

  lemma WriterKeepsStores(s: State, q: nat, item: int, pick: Cell, partial: Option<int>)
    requires Shape(s) && Indexes(s) && StoresReady(s) && RestEmpty(s) && q < |s.writers|
    requires s.reader.pc == Cleared ==> s.taken < |s.accepted|
    ensures StoresReady(WriterStep(s, q, item, pick, partial))
  {
    hide WriterStep;
    var t := WriterStep(s, q, item, pick, partial);
    WriterFrame(s, q, item, pick, partial);
    WriterMoves(s, q, item, pick, partial);
    IndexArithmetic(s);
    assert Queued(s) < Capacity(s) ==> s.slots[SlotOf(s, |s.accepted|)] == None;
    assert t.writers[q].pc == Storing ==> StoreReady(t, q);
    forall p | 0 <= p < |t.writers| && p != q && t.writers[p].pc == Storing ensures StoreReady(t, p) {
      OtherStoreStays(s, q, item, pick, partial, p);
    }
  }

  lemma SlotsDistinct(s: State, j: nat, k: nat)
    requires s.r < |s.slots|
    requires s.taken <= j < s.taken + |s.slots| && s.taken <= k < s.taken + |s.slots| && j != k
    ensures SlotOf(s, j) != SlotOf(s, k)
  {
  }

  lemma WriterCarries(s: State, q: nat, item: int, pick: Cell, partial: Option<int>, j: nat)
    requires Shape(s) && Indexes(s) && Owned(s) && StoresReady(s) && RestEmpty(s) && CellsFilled(s) && q < |s.writers|
    requires s.taken <= j < |s.accepted| && SlotOf(s, j) < |s.slots| && Carried(s, j)
    ensures var t := WriterStep(s, q, item, pick, partial);
      Shape(t) && j < |t.accepted| && t.taken == s.taken && SlotOf(t, j) == SlotOf(s, j) && Carried(t, j)
  {
    hide WriterStep;
    WriterKeepsShape(s, q, item, pick, partial);
    WriterFrame(s, q, item, pick, partial);
    var i := SlotOf(s, j);
    var x := s.writers[q];
    if x.pc == Filling && s.slots[i].Some? {
      if s.slots[i].value == x.cell {
        OnePlace(s, x.cell, InSlot(i), WithWriter(q));
      }
    }
    if x.pc == Storing {
      assert StoreReady(s, q);
      if x.ticket != j {
        SlotsDistinct(s, x.ticket, j);
      }
    }
  }

  lemma WriterKeepsTransit(s: State, q: nat, item: int, pick: Cell, partial: Option<int>)
    requires Shape(s) && Indexes(s) && Owned(s) && StoresReady(s) && RestEmpty(s) && CellsFilled(s) && q < |s.writers|
    requires InTransit(s)
    ensures var t := WriterStep(s, q, item, pick, partial); Shape(t) && InTransit(t)
  {
    hide WriterStep;
    WriterKeepsShape(s, q, item, pick, partial);
    WriterFrame(s, q, item, pick, partial);
    WriterMoves(s, q, item, pick, partial);
    var t := WriterStep(s, q, item, pick, partial);
    forall j | t.taken <= j < |t.accepted| ensures SlotOf(t, j) < |t.slots| && Carried(t, j) {
      if j < |s.accepted| {
        WriterCarries(s, q, item, pick, partial, j);
      } else {
        IndexArithmetic(s);
        assert s.slots[SlotOf(s, j)] == None;
      }
    }
  }

  lemma WriterKeepsRest(s: State, q: nat, item: int, pick: Cell, partial: Option<int>)
    requires Shape(s) && Indexes(s) && StoresReady(s) && RestEmpty(s) && q < |s.writers|
    ensures RestEmpty(WriterStep(s, q, item, pick, partial))
  {
    hide WriterStep;
    WriterFrame(s, q, item, pick, partial);
    var t := WriterStep(s, q, item, pick, partial);
    IndexArithmetic(s);
    forall j | |t.accepted| <= j < t.taken + |t.slots|
      ensures SlotOf(t, j) < |t.slots| && t.slots[SlotOf(t, j)] == None
    {
      assert s.slots[SlotOf(s, j)] == None;
      if s.writers[q].pc == Storing {
        assert StoreReady(s, q);
        SlotsDistinct(s, s.writers[q].ticket, j);
      }
    }
  }

  lemma WriterKeepsFilled(s: State, q: nat, item: int, pick: Cell, partial: Option<int>)
    requires Shape(s) && Owned(s) && CellsFilled(s) && q < |s.writers|
    ensures var t := WriterStep(s, q, item, pick, partial); Shape(t) && CellsFilled(t)
  {
    WriterKeepsShape(s, q, item, pick, partial);
    forall p | 0 <= p < |s.writers| && p != q && s.writers[p].Owns() && s.writers[q].Owns()
      ensures s.writers[p].cell != s.writers[q].cell
    {
      if s.writers[p].cell == s.writers[q].cell {
        OnePlace(s, s.writers[p].cell, WithWriter(p), WithWriter(q));
      }
    }
  }

  /** A push disturbs neither the cell the reader is taking nor those it still holds. */
  lemma WriterKeepsReader(s: State, q: nat, item: int, pick: Cell, partial: Option<int>)
    requires Shape(s) && Indexes(s) && Owned(s) && StoresReady(s) && ReaderFits(s) && InOrder(s) && q < |s.writers|
    ensures var t := WriterStep(s, q, item, pick, partial); Shape(t) && ReaderFits(t) && InOrder(t)
  {
    hide WriterStep;
    WriterKeepsShape(s, q, item, pick, partial);
    WriterFrame(s, q, item, pick, partial);
    if s.writers[q].Owns() && Located(s, s.writers[q].cell, WithReader) {
      OnePlace(s, s.writers[q].cell, WithReader, WithWriter(q));
    }
    assert s.writers[q].pc == Storing ==> StoreReady(s, q);
    assert s.reader.pc == Cleared ==> SlotOf(s, s.taken) == s.r;
    if s.reader.pc == Cleared && s.writers[q].pc == Storing {
      SlotsDistinct(s, s.writers[q].ticket, s.taken);
    }
  }

  lemma OfOneMore(q: nat, a: seq<Accepted>, x: Accepted)
    ensures Of(q, a + [x]) == Of(q, a) + (if x.writer == q then [x.item] else [])
  {
    assert (a + [x])[..|a|] == a;
  }

  lemma WriterIsTold(s: State, q: nat, item: int, pick: Cell, partial: Option<int>)
    requires Shape(s) && q < |s.writers|
    ensures var x, t := s.writers[q], WriterStep(s, q, item, pick, partial);
      |t.writers| == |s.writers|
      && Told(t.writers[q]) == Told(x) + (if x.pc == Reserving && !Full(s) then [x.item] else [])
  {
  }

  lemma WriterKeepsPerWriter(s: State, q: nat, item: int, pick: Cell, partial: Option<int>)
    requires Shape(s) && PerWriter(s) && q < |s.writers|
    ensures PerWriter(WriterStep(s, q, item, pick, partial))
  {
    hide WriterStep, Of, Full;
    var t := WriterStep(s, q, item, pick, partial);
    WriterFrame(s, q, item, pick, partial);
    WriterIsTold(s, q, item, pick, partial);
    forall p | 0 <= p < |t.writers| ensures Of(p, t.accepted) == Told(t.writers[p]) {
      OfOneMore(p, s.accepted, Accepted(q, s.writers[q].item));
      assert Of(p, s.accepted) == Told(s.writers[p]);
    }
  }

  lemma WriterStepKeeps(s: State, q: nat, item: int, pick: Cell, partial: Option<int>)
    requires Inv(s) && q < |s.writers|
    ensures Inv(WriterStep(s, q, item, pick, partial))
  {
    WriterKeepsShape(s, q, item, pick, partial);
    WriterKeepsIndexes(s, q, item, pick, partial);
    assert s.writers[q].pc == Storing ==> StoreReady(s, q);
    WriterKeepsOwned(s, q, item, pick, partial);
    WriterKeepsStores(s, q, item, pick, partial);
    WriterKeepsTransit(s, q, item, pick, partial);
    WriterKeepsRest(s, q, item, pick, partial);
    WriterKeepsFilled(s, q, item, pick, partial);
    WriterKeepsReader(s, q, item, pick, partial);
    WriterKeepsPerWriter(s, q, item, pick, partial);
  }

  // ---------------------------------------------------------------- the reader's steps keep it

  lemma ReaderKeepsShape(s: State, keep: bool)
    requires Shape(s)
    ensures Shape(ReaderStep(s, keep))
  {
  }

  /** What a step of the reader may change. */
  lemma ReaderFrame(s: State, keep: bool)
    requires Shape(s)
    ensures var x, t := s.reader, ReaderStep(s, keep);
      && t.w == s.w && t.writers == s.writers && t.memory == s.memory && t.accepted == s.accepted
      && t.slots == (if x.pc == Read then s.slots[s.r := None] else s.slots)
      && t.r == (if x.pc == Cleared then Wrap(|s.slots|, s.r) else s.r)
      && t.taken == (if x.pc == Cleared then s.taken + 1 else s.taken)
      && (t.reader.pc == Cleared <==> x.pc == Read)
  {
  }

  /** A pointer the reader sees is that of the oldest accepted item not yet taken. */
  lemma HeadIsOldest(s: State)
    requires Shape(s) && Indexes(s) && InTransit(s) && RestEmpty(s) && s.slots[s.r].Some?
    ensures s.taken < |s.accepted| && s.memory[s.slots[s.r].value] == s.accepted[s.taken].item
  {
    assert SlotOf(s, s.taken) == s.r;
    if s.taken < |s.accepted| {
      assert Carried(s, s.taken);
    }
  }

  lemma ReaderMovesCell(s: State, keep: bool, c: Cell)
    requires Shape(s) && c < |s.owner| && OwnedCell(s, c) && ReaderFits(s)
    requires s.reader.Owns() ==> s.reader.cell !in s.held
    ensures var t := ReaderStep(s, keep); |t.owner| == |s.owner| && OwnedCell(t, c)
  {
    var t := ReaderStep(s, keep);
    forall p ensures Located(t, c, p) <==> t.owner[c] == p {
      assert Located(s, c, p) <==> s.owner[c] == p;
      assert Located(s, c, WithReader) <==> s.owner[c] == WithReader;
      assert Located(s, c, InSlot(s.r)) <==> s.owner[c] == InSlot(s.r);
    }
  }

  lemma ReaderKeepsOwned(s: State, keep: bool)
    requires Shape(s) && Owned(s) && ReaderFits(s)
    ensures Owned(ReaderStep(s, keep))
  {
    var t := ReaderStep(s, keep);
    forall c: Cell | c < |s.owner| ensures |t.owner| == |s.owner| && OwnedCell(t, c) {
      ReaderMovesCell(s, keep, c);
    }
    if s.reader.pc == Read && s.reader.cell in s.held {
      OnePlace(s, s.reader.cell, InSlot(s.r), WithReader);
    }
  }

  lemma ReaderCarries(s: State, keep: bool, j: nat)
    requires Shape(s) && Indexes(s) && ReaderFits(s)
    requires s.taken <= j < |s.accepted| && SlotOf(s, j) < |s.slots| && Carried(s, j)
    requires s.reader.pc == Cleared ==> j != s.taken
    ensures var t := ReaderStep(s, keep);
      Shape(t) && t.accepted == s.accepted && t.taken <= j && SlotOf(t, j) == SlotOf(s, j) && Carried(t, j)
  {
    hide ReaderStep;
    ReaderFrame(s, keep);
    ReaderKeepsShape(s, keep);
    if s.reader.pc == Read && j != s.taken {
      SlotsDistinct(s, j, s.taken);
    }
  }

  lemma ReaderKeepsTransit(s: State, keep: bool)
    requires Shape(s) && Indexes(s) && ReaderFits(s) && InTransit(s) && RestEmpty(s)
    ensures var t := ReaderStep(s, keep); Shape(t) && Indexes(t) && InTransit(t)
  {
    hide ReaderStep, Carried;
    ReaderFrame(s, keep);
    ReaderKeepsShape(s, keep);
    var t := ReaderStep(s, keep);
    forall j | t.taken <= j < |t.accepted| ensures SlotOf(t, j) < |t.slots| && Carried(t, j) {
      assert SlotOf(s, j) < |s.slots| && Carried(s, j);
      ReaderCarries(s, keep, j);
    }
  }

  lemma ReaderKeepsRest(s: State, keep: bool)
    requires Shape(s) && Indexes(s) && ReaderFits(s) && RestEmpty(s)
    ensures RestEmpty(ReaderStep(s, keep))
  {
    hide ReaderStep;
    ReaderFrame(s, keep);
    var t := ReaderStep(s, keep);
    forall j | |t.accepted| <= j < t.taken + |t.slots|
      ensures SlotOf(t, j) < |t.slots| && t.slots[SlotOf(t, j)] == None
    {
      if j < s.taken + |s.slots| {
        assert s.slots[SlotOf(s, j)] == None;
      } else {
        assert SlotOf(t, j) == s.r;
      }
    }
  }

  lemma ReaderKeepsStores(s: State, keep: bool)
    requires Shape(s) && Indexes(s) && ReaderFits(s) && StoresReady(s) && CellsFilled(s)
    ensures var t := ReaderStep(s, keep); Shape(t) && StoresReady(t) && CellsFilled(t)
  {
    hide ReaderStep;
    ReaderFrame(s, keep);
    ReaderKeepsShape(s, keep);
    var t := ReaderStep(s, keep);
    forall p | 0 <= p < |t.writers| && t.writers[p].pc == Storing ensures StoreReady(t, p) {
      assert StoreReady(s, p);
      assert SlotOf(s, s.taken) == s.r;
    }
  }

  lemma ReaderKeepsFits(s: State, keep: bool)
    requires Shape(s) && Indexes(s) && ReaderFits(s) && InTransit(s) && RestEmpty(s)
    ensures var t := ReaderStep(s, keep); Shape(t) && ReaderFits(t)
  {
    ReaderKeepsShape(s, keep);
    if s.slots[s.r].Some? {
      HeadIsOldest(s);
    }
  }

  lemma ReaderKeepsOrder(s: State, keep: bool)
    requires Shape(s) && ReaderFits(s) && InOrder(s) && PerWriter(s)
    ensures var t := ReaderStep(s, keep); InOrder(t) && PerWriter(t)
  {
  }

  lemma ReaderStepKeeps(s: State, keep: bool)
    requires Inv(s)
    ensures Inv(ReaderStep(s, keep))
  {
    ReaderKeepsShape(s, keep);
    ReaderKeepsOwned(s, keep);
    ReaderKeepsTransit(s, keep);
    ReaderKeepsRest(s, keep);
    ReaderKeepsStores(s, keep);
    ReaderKeepsFits(s, keep);
    ReaderKeepsOrder(s, keep);
  }

  lemma ReleaseKeepsOwned(s: State, c: Cell)
    requires Shape(s) && Owned(s)
    ensures Owned(Step(s, ReleaseStep(c)))
  {
    var t := Step(s, ReleaseStep(c));
    forall d: Cell | d < |s.owner| ensures |t.owner| == |s.owner| && OwnedCell(t, d) {
      forall p ensures Located(t, d, p) <==> t.owner[d] == p {
        assert OwnedCell(s, d);
        assert Located(s, d, p) <==> s.owner[d] == p;
        assert Located(s, d, WithReader) <==> s.owner[d] == WithReader;
      }
    }
  }

  lemma ReleaseKeepsQueue(s: State, c: Cell)
    requires Shape(s) && InTransit(s) && RestEmpty(s) && StoresReady(s)
    ensures var t := Step(s, ReleaseStep(c)); Shape(t) && InTransit(t) && RestEmpty(t) && StoresReady(t)
  {
    var t := Step(s, ReleaseStep(c));
    forall j | t.taken <= j < |t.accepted| ensures SlotOf(t, j) < |t.slots| && Carried(t, j) {
      assert SlotOf(s, j) < |s.slots| && Carried(s, j);
    }
    forall p | 0 <= p < |t.writers| && t.writers[p].pc == Storing ensures StoreReady(t, p) {
      assert StoreReady(s, p);
    }
    forall j | |t.accepted| <= j < t.taken + |t.slots|
      ensures SlotOf(t, j) < |t.slots| && t.slots[SlotOf(t, j)] == None
    {
      assert s.slots[SlotOf(s, j)] == None;
    }
  }

  lemma ReleaseKeeps(s: State, c: Cell)
    requires Inv(s)
    ensures Inv(Step(s, ReleaseStep(c)))
  {
    ReleaseKeepsOwned(s, c);
    ReleaseKeepsQueue(s, c);
  }

  lemma StepKeeps(s: State, e: Event)
    requires Inv(s)
    ensures Inv(Step(s, e))
  {
    match e
    case PushStep(q, item, pick, partial) =>
      if q < |s.writers| { WriterStepKeeps(s, q, item, pick, partial); }
    case PopStep(keep) => ReaderStepKeeps(s, keep);
    case ReleaseStep(c) => ReleaseKeeps(s, c);
  }

  // ---------------------------------------------------------------- runs

  ghost function Run(s: State, es: seq<Event>): (t: State)
    requires Inv(s)
    ensures Inv(t)
    decreases |es|
  {
    if es == [] then s
    else
      StepKeeps(s, es[0]);
      Run(Step(s, es[0]), es[1..])
  }

  lemma InitInv(bufsize: nat, initial: int, writers: nat)
    ensures Inv(Init(bufsize, initial, writers))
  {
    var s := Init(bufsize, initial, writers);
    forall c: Cell | c < |s.owner| ensures OwnedCell(s, c) {
      forall p ensures Located(s, c, p) <==> s.owner[c] == p {
      }
    }
  }

  /** The state of a buffer of `bufsize` after any run of `writers` pushing threads and the reader. */
  ghost function After(bufsize: nat, initial: int, writers: nat, es: seq<Event>): (s: State)
    ensures Inv(s)
  {
    InitInv(bufsize, initial, writers);
    Run(Init(bufsize, initial, writers), es)
  }

  lemma StepKeepsSize(s: State, e: Event)
    requires Shape(s)
    ensures var t := Step(s, e); |t.slots| == |s.slots| && |t.writers| == |s.writers|
  {
  }

  lemma {:induction false} RunKeepsSize(s: State, es: seq<Event>)
    requires Inv(s)
    ensures var t := Run(s, es); |t.slots| == |s.slots| && |t.writers| == |s.writers|
    decreases |es|
  {
    if es != [] {
      StepKeeps(s, es[0]);
      StepKeepsSize(s, es[0]);
      RunKeepsSize(Step(s, es[0]), es[1..]);
    }
  }

  // ---------------------------------------------------------------- what holds of every run

  /** Every cell is in exactly one place: free, with one writer, in one slot, or with the reader. */
  lemma OwnershipPartition(bufsize: nat, initial: int, writers: nat, es: seq<Event>, c: Cell) returns (p: Place)
    requires c <= bufsize
    ensures var s := After(bufsize, initial, writers, es);
      Located(s, c, p) && forall p' :: Located(s, c, p') ==> p' == p
  {
    var s := After(bufsize, initial, writers, es);
    InitInv(bufsize, initial, writers);
    RunKeepsSize(Init(bufsize, initial, writers), es);
    p := s.owner[c];
    assert OwnedCell(s, c);
    assert Located(s, c, p) <==> s.owner[c] == p;
  }

  /** The cell a writer fills is in no slot, not free, not with the reader nor another writer. */
  lemma FillsItsOwnCell(bufsize: nat, initial: int, writers: nat, es: seq<Event>, q: nat)
    requires var s := After(bufsize, initial, writers, es); q < |s.writers| && s.writers[q].pc == Filling
    ensures var s := After(bufsize, initial, writers, es);
      var c := s.writers[q].cell;
      && c !in s.pool && c !in s.held && !(s.reader.Owns() && s.reader.cell == c)
      && (forall i | 0 <= i < |s.slots| :: s.slots[i] != Some(c))
      && (forall p | 0 <= p < |s.writers| && p != q && s.writers[p].Owns() :: s.writers[p].cell != c)
  {
    var s := After(bufsize, initial, writers, es);
    var c := s.writers[q].cell;
    forall p | Located(s, c, p) ensures p == WithWriter(q) {
      OnePlace(s, c, p, WithWriter(q));
    }
    assert Located(s, c, Free) <==> c in s.pool;
    assert !Located(s, c, WithReader);
    forall i | 0 <= i < |s.slots| ensures s.slots[i] != Some(c) {
      assert !Located(s, c, InSlot(i));
    }
    forall p | 0 <= p < |s.writers| && p != q && s.writers[p].Owns() ensures s.writers[p].cell != c {
      assert !Located(s, c, WithWriter(p));
    }
  }

  /** Every ticket of the window has its pointer stored. */
  predicate WindowFull(s: State) {
    forall j | s.taken <= j < |s.accepted| :: SlotOf(s, j) < |s.slots| && s.slots[SlotOf(s, j)].Some?
  }

  /** The items the stored pointers of the window lead to, oldest first. */
  function QueuedItems(s: State): seq<int>
    requires Shape(s) && 0 <= Queued(s) && WindowFull(s)
  {
    seq(Queued(s), k requires 0 <= k < Queued(s) => s.memory[s.slots[SlotOf(s, s.taken + k)].value])
  }

  /** No call is under way. */
  predicate Quiet(s: State) {
    s.reader.pc == Ready && forall q | 0 <= q < |s.writers| :: s.writers[q].pc == Outside
  }

  /** First in, first out, nothing lost, duplicated or altered: what was popped is what was
      accepted first, in order; what each writer was told is accepted was accepted once, in its
      call order; and items handed out without release keep their value. */
  lemma FifoConservation(bufsize: nat, initial: int, writers: nat, es: seq<Event>)
    ensures var s := After(bufsize, initial, writers, es);
      && s.popped <= Items(s.accepted)
      && |s.accepted| - |s.popped| <= bufsize + 1
      && InTransit(s) && CellsFilled(s)
      && (forall q | 0 <= q < |s.writers| && s.writers[q].pc != Storing :: Of(q, s.accepted) == s.writers[q].done)
      && (forall c | c in s.held :: c < |s.memory| && s.memory[c] == s.held[c])
  {
    var s := After(bufsize, initial, writers, es);
    InitInv(bufsize, initial, writers);
    RunKeepsSize(Init(bufsize, initial, writers), es);
  }

  lemma QuietSlots(s: State)
    requires Inv(s) && Quiet(s)
    ensures WindowFull(s)
  {
    forall j | s.taken <= j < |s.accepted| ensures SlotOf(s, j) < |s.slots| && s.slots[SlotOf(s, j)].Some? {
      assert Carried(s, j);
    }
  }

  /** Whenever no call is under way, popped followed by queued is exactly what was accepted. */
  lemma QuietConservation(bufsize: nat, initial: int, writers: nat, es: seq<Event>)
    requires Quiet(After(bufsize, initial, writers, es))
    ensures var s := After(bufsize, initial, writers, es);
      && WindowFull(s)
      && s.popped + QueuedItems(s) == Items(s.accepted)
  {
    var s := After(bufsize, initial, writers, es);
    QuietSlots(s);
    forall j | s.taken <= j < |s.accepted| ensures s.memory[s.slots[SlotOf(s, j)].value] == s.accepted[j].item {
      assert Carried(s, j);
    }
  }

  // ---------------------------------------------------------------- cells add up

  /** A writer that has a cell and no ticket, or a reader that has taken its ticket, has a cell the
      queue does not account for. */
  predicate WriterBusy(x: Writer) { x.pc == Filling || x.pc == Reserving || x.pc == Returning }

  function BusyWriters(writers: seq<Writer>): nat {
    if writers == [] then 0
    else BusyWriters(writers[..|writers| - 1]) + (if WriterBusy(writers[|writers| - 1]) then 1 else 0)
  }

  /** The cells in the hands of calls under way. */
  function Busy(s: State): nat {
    BusyWriters(s.writers) + (if s.reader.pc == Dequeued || s.reader.pc == Copied then 1 else 0)
  }

  /** Every cell is free, accounted for by the queue, handed out, or in the hands of a call. */
  ghost predicate AddsUp(s: State) {
    |s.pool| + Queued(s) + |s.held| + Busy(s) == |s.slots|
  }

  lemma {:induction false} BusyChange(writers: seq<Writer>, q: nat, x: Writer)
    requires q < |writers|
    ensures BusyWriters(writers[q := x])
         == BusyWriters(writers) + (if WriterBusy(x) then 1 else 0) - (if WriterBusy(writers[q]) then 1 else 0)
    decreases |writers|
  {
    var last := |writers| - 1;
    if q < last {
      BusyChange(writers[..last], q, x);
      assert writers[q := x][..last] == writers[..last][q := x];
    } else {
      assert writers[q := x][..last] == writers[..last];
    }
  }

  lemma WriterAddsUp(s: State, q: nat, item: int, pick: Cell, partial: Option<int>)
    requires Shape(s) && Owned(s) && AddsUp(s) && q < |s.writers|
    ensures AddsUp(WriterStep(s, q, item, pick, partial))
  {
    hide BusyWriters, WriterStep, Full;
    var x, t := s.writers[q], WriterStep(s, q, item, pick, partial);
    WriterFrame(s, q, item, pick, partial);
    WriterMovesPool(s, q, item, pick, partial);
    assert t.writers == s.writers[q := t.writers[q]];
    BusyChange(s.writers, q, t.writers[q]);
    if x.pc == Returning && x.cell in s.pool {
      OnePlace(s, x.cell, Free, WithWriter(q));
    }
  }

  lemma WriterMovesPool(s: State, q: nat, item: int, pick: Cell, partial: Option<int>)
    requires Shape(s) && q < |s.writers|
    ensures var x, t := s.writers[q], WriterStep(s, q, item, pick, partial);
      && |t.writers| == |s.writers|
      && t.pool == (if x.pc == Allocating && pick in s.pool then s.pool - {pick}
                    else if x.pc == Returning then s.pool + {x.cell} else s.pool)
      && (WriterBusy(t.writers[q]) <==>
            || (x.pc == Allocating && pick in s.pool) || x.pc == Filling || (x.pc == Reserving && Full(s)))
  {
  }

  lemma ReaderAddsUp(s: State, keep: bool)
    requires Shape(s) && Owned(s) && AddsUp(s)
    ensures AddsUp(ReaderStep(s, keep))
  {
    ReaderFrame(s, keep);
    ReaderMovesPool(s, keep);
    if s.reader.Owns() {
      ReaderCellIsOwn(s);
    }
    hide BusyWriters, ReaderStep, Wrap, Owned;
    if s.reader.pc == Dequeued {
      KeepOne(s.held, s.reader.cell, s.memory[s.reader.cell]);
    }
  }

  lemma ReaderCellIsOwn(s: State)
    requires Shape(s) && Owned(s) && s.reader.Owns()
    ensures s.reader.cell !in s.pool && s.reader.cell !in s.held
  {
    if s.reader.cell in s.pool {
      OnePlace(s, s.reader.cell, Free, WithReader);
    }
  }

  lemma ReaderMovesPool(s: State, keep: bool)
    requires Shape(s)
    ensures var x, t := s.reader, ReaderStep(s, keep);
      && t.pool == (if x.pc == Copied then s.pool + {x.cell} else s.pool)
      && t.held == (if x.pc == Dequeued && x.keep then s.held[x.cell := s.memory[x.cell]] else s.held)
      && (t.reader.pc == Dequeued || t.reader.pc == Copied <==> x.pc == Cleared || (x.pc == Dequeued && !x.keep))
  {
  }

  lemma KeepOne(held: map<Cell, int>, c: Cell, v: int)
    ensures c !in held ==> |held[c := v]| == |held| + 1
    ensures c in held ==> |held - {c}| == |held| - 1
  {
    assert held[c := v].Keys == held.Keys + {c};
    assert (held - {c}).Keys == held.Keys - {c};
  }

  lemma ReleaseAddsUp(s: State, c: Cell)
    requires Shape(s) && Owned(s) && AddsUp(s)
    ensures AddsUp(Step(s, ReleaseStep(c)))
  {
    hide BusyWriters;
    if s.reader.pc == Ready && c in s.held {
      KeepOne(s.held, c, 0);
      if c in s.pool {
        OnePlace(s, c, Free, WithReader);
      }
    }
  }

  lemma {:induction false} RunAddsUp(s: State, es: seq<Event>)
    requires Inv(s) && AddsUp(s)
    ensures AddsUp(Run(s, es))
    decreases |es|
  {
    if es != [] {
      match es[0] {
        case PushStep(q, item, pick, partial) =>
          if q < |s.writers| {
            WriterAddsUp(s, q, item, pick, partial);
          }
        case PopStep(keep) => ReaderAddsUp(s, keep);
        case ReleaseStep(c) => ReleaseAddsUp(s, c);
      }
      StepKeeps(s, es[0]);
      assert Shape(s);
      hide Inv, Shape, Step;
      RunAddsUp(Step(s, es[0]), es[1..]);
    }
  }

  lemma {:induction false} NobodyBusy(writers: seq<Writer>)
    requires forall q | 0 <= q < |writers| :: !WriterBusy(writers[q])
    ensures BusyWriters(writers) == 0
    decreases |writers|
  {
    if writers != [] {
      NobodyBusy(writers[..|writers| - 1]);
    }
  }

  lemma CountBelow(n: nat)
    ensures |CellsBelow(n)| == n
  {
  }

  lemma InitAddsUp(bufsize: nat, initial: int, writers: nat)
    ensures AddsUp(Init(bufsize, initial, writers))
  {
    var s := Init(bufsize, initial, writers);
    hide BusyWriters;
    CountBelow(bufsize + 1);
    forall q | 0 <= q < |s.writers| ensures !WriterBusy(s.writers[q]) {
    }
    NobodyBusy(s.writers);
  }

  /** Nothing leaks, at any time: every cell is free, accounted for by the queue, handed out, or in the
      hands of a call; when no call is under way, it is free, queued or handed out. */
  lemma NoLeak(bufsize: nat, initial: int, writers: nat, es: seq<Event>)
    ensures var s := After(bufsize, initial, writers, es);
      && |s.pool| + Queued(s) + |s.held| + Busy(s) == bufsize + 1
      && (Quiet(s) ==> |s.pool| + Queued(s) + |s.held| == bufsize + 1)
  {
    var start, s := Init(bufsize, initial, writers), After(bufsize, initial, writers, es);
    InitInv(bufsize, initial, writers);
    InitAddsUp(bufsize, initial, writers);
    RunAddsUp(start, es);
    RunKeepsSize(start, es);
    hide Inv, Run;
    if Quiet(s) {
      NobodyBusy(s.writers);
    }
  }

  /** A push that is past its test for a full queue is refused for want of a cell if and only if all the
      cells the queue does not account for are in other hands.  If the queue has room then, there are at
      least two of them. */
  lemma RefusedByPoolIff(bufsize: nat, initial: int, writers: nat, es: seq<Event>,
                         q: nat, item: int, pick: Cell, partial: Option<int>)
    requires var s := After(bufsize, initial, writers, es); q < |s.writers| && s.writers[q].pc == Allocating
    ensures var s := After(bufsize, initial, writers, es);
      var t := Step(s, PushStep(q, item, pick, partial));
      && q < |t.writers| && t.accepted == s.accepted
      && (t.writers[q].pc == Outside <==> |s.held| + Busy(s) == bufsize + 1 - Queued(s))
      && (t.writers[q].pc == Outside ==> (Queued(s) < bufsize <==> |s.held| + Busy(s) >= 2))
  {
    var s := After(bufsize, initial, writers, es);
    NoLeak(bufsize, initial, writers, es);
    assert s.pool == {} <==> |s.pool| == 0;
  }

  // ---------------------------------------------------------------- calls made alone

  /** A push that begins goes on to allocate exactly if the queue has room; otherwise it is refused and
      nothing changes. */
  lemma PushBeginsIff(bufsize: nat, initial: int, writers: nat, es: seq<Event>,
                      q: nat, item: int, pick: Cell, partial: Option<int>)
    requires var s := After(bufsize, initial, writers, es); q < |s.writers| && s.writers[q].pc == Outside
    ensures var s := After(bufsize, initial, writers, es);
      var t := Step(s, PushStep(q, item, pick, partial));
      && |t.writers| == |s.writers|
      && (t.writers[q].pc == Allocating <==> Queued(s) < bufsize)
      && (if Queued(s) < bufsize then t == SetWriter(s, q, s.writers[q].(pc := Allocating, item := item)) else t == s)
  {
    var s := After(bufsize, initial, writers, es);
    InitInv(bufsize, initial, writers);
    RunKeepsSize(Init(bufsize, initial, writers), es);
    IndexArithmetic(s);
  }

  /** A push that has filled its cell is accepted in its next step exactly if the queue has room then;
      otherwise it goes on to give the cell back. */
  lemma PushIsAcceptedIff(bufsize: nat, initial: int, writers: nat, es: seq<Event>,
                          q: nat, item: int, pick: Cell, partial: Option<int>)
    requires var s := After(bufsize, initial, writers, es); q < |s.writers| && s.writers[q].pc == Reserving
    ensures var s := After(bufsize, initial, writers, es);
      var t := Step(s, PushStep(q, item, pick, partial));
      && |t.writers| == |s.writers| && t.pool == s.pool
      && if Queued(s) < bufsize then
           t.accepted == s.accepted + [Accepted(q, s.writers[q].item)] && t.writers[q].pc == Storing
         else
           t.accepted == s.accepted && t.writers[q].pc == Returning
  {
    var s := After(bufsize, initial, writers, es);
    InitInv(bufsize, initial, writers);
    RunKeepsSize(Init(bufsize, initial, writers), es);
    IndexArithmetic(s);
  }

  /** Steps of writer `q` alone until its call returns, at most n. */
  ghost function PushAlone(s: State, q: nat, item: int, pick: Cell, n: nat): State
    requires Shape(s) && q < |s.writers|
    decreases n
  {
    if n == 0 then s
    else
      WriterKeepsShape(s, q, item, pick, None);
      var t := WriterStep(s, q, item, pick, None);
      StepKeepsSize(s, PushStep(q, item, pick, None));
      if t.writers[q].pc == Outside then t else PushAlone(t, q, item, pick, n - 1)
  }

  lemma PushAloneStep(s: State, q: nat, item: int, pick: Cell, n: nat)
    requires Shape(s) && q < |s.writers| && n > 0
    ensures var t := WriterStep(s, q, item, pick, None);
      && Shape(t) && q < |t.writers|
      && PushAlone(s, q, item, pick, n)
         == if t.writers[q].pc == Outside then t else PushAlone(t, q, item, pick, n - 1)
  {
    WriterKeepsShape(s, q, item, pick, None);
    StepKeepsSize(s, PushStep(q, item, pick, None));
    hide WriterStep;
  }

  /** What a push that is past its test does, with nobody else moving, when it gets a cell. */
  lemma PushGoesOn(s: State, q: nat, item: int, pick: Cell)
    requires Shape(s) && q < |s.writers| && s.writers[q].pc == Allocating && s.writers[q].item == item
    requires pick in s.pool && !Full(s)
    ensures var t := PushAlone(s, q, item, pick, 4);
      && |t.writers| == |s.writers| && t.writers[q].pc == Outside && t.writers[q].done == s.writers[q].done + [item]
      && t.accepted == s.accepted + [Accepted(q, item)] && t.pool == s.pool - {pick}
      && t.popped == s.popped && t.taken == s.taken && t.reader == s.reader && t.held == s.held
      && (forall p | 0 <= p < |s.writers| && p != q :: t.writers[p] == s.writers[p])
  {
    PushAloneStep(s, q, item, pick, 4);
    var s1 := WriterStep(s, q, item, pick, None);
    PushAloneStep(s1, q, item, pick, 3);
    var s2 := WriterStep(s1, q, item, pick, None);
    PushAloneStep(s2, q, item, pick, 2);
    var s3 := WriterStep(s2, q, item, pick, None);
    PushAloneStep(s3, q, item, pick, 1);
  }

  /** A push made while no other call is under way ends within five steps.  It is accepted if and only if
      the queue has room and the pool a cell; otherwise nothing was taken. */
  lemma PushAloneIff(bufsize: nat, initial: int, writers: nat, es: seq<Event>, q: nat, item: int, pick: Cell)
    requires var s := After(bufsize, initial, writers, es);
      Quiet(s) && q < |s.writers| && (s.pool != {} ==> pick in s.pool)
    ensures var s := After(bufsize, initial, writers, es); var t := PushAlone(s, q, item, pick, 5);
      && |t.writers| == |s.writers| && Quiet(t) && t.popped == s.popped && t.taken == s.taken
      && if Queued(s) < bufsize && s.pool != {} then
           t.accepted == s.accepted + [Accepted(q, item)] && t.writers[q].done == s.writers[q].done + [item]
         else
           t.accepted == s.accepted && t.writers[q].done == s.writers[q].done && t.pool == s.pool
  {
    var s := After(bufsize, initial, writers, es);
    PushBeginsIff(bufsize, initial, writers, es, q, item, pick, None);
    MissAndFull(bufsize, initial, writers, es);
    PushFromQuiet(s, q, item, pick, bufsize);
  }

  lemma PushFromQuiet(s: State, q: nat, item: int, pick: Cell, bufsize: nat)
    requires Shape(s) && Quiet(s) && q < |s.writers| && (s.pool != {} ==> pick in s.pool)
    requires var t := WriterStep(s, q, item, pick, None);
      if Queued(s) < bufsize then t == SetWriter(s, q, s.writers[q].(pc := Allocating, item := item)) else t == s
    requires Full(s) <==> Queued(s) == bufsize
    ensures var t := PushAlone(s, q, item, pick, 5);
      && |t.writers| == |s.writers| && Quiet(t) && t.popped == s.popped && t.taken == s.taken
      && if Queued(s) < bufsize && s.pool != {} then
           t.accepted == s.accepted + [Accepted(q, item)] && t.writers[q].done == s.writers[q].done + [item]
         else
           t.accepted == s.accepted && t.writers[q].done == s.writers[q].done && t.pool == s.pool
  {
    PushAloneStep(s, q, item, pick, 5);
    if Queued(s) < bufsize {
      var s1 := WriterStep(s, q, item, pick, None);
      if s.pool != {} {
        PushGoesOn(s1, q, item, pick);
      } else {
        PushAloneStep(s1, q, item, pick, 4);
      }
    }
  }

  /** A pop that begins goes on to take a pointer exactly if the oldest accepted push has stored its own;
      otherwise it finds nothing and nothing changes. */
  lemma PopBeginsIff(bufsize: nat, initial: int, writers: nat, es: seq<Event>, keep: bool)
    requires After(bufsize, initial, writers, es).reader.pc == Ready
    ensures var s := After(bufsize, initial, writers, es); var t := Step(s, PopStep(keep));
      var pending := exists q | 0 <= q < |s.writers| :: s.writers[q].pc == Storing && s.writers[q].ticket == s.taken;
      && (t.reader.pc == Read <==> Queued(s) > 0 && !pending)
      && (t.reader.pc != Read ==> t == s)
      && (t.reader.pc == Read ==>
            && t == s.(reader := Reader(Read, t.reader.cell, keep))
            && s.taken < |s.accepted| && s.memory[t.reader.cell] == s.accepted[s.taken].item)
  {
    var s := After(bufsize, initial, writers, es);
    MissAndFull(bufsize, initial, writers, es);
    if s.slots[s.r].Some? {
      HeadIsOldest(s);
    }
  }

  /** Steps of the reader alone until its call returns, at most n. */
  ghost function PopAlone(s: State, keep: bool, n: nat): State
    requires Shape(s)
    decreases n
  {
    if n == 0 then s
    else
      ReaderKeepsShape(s, keep);
      var t := ReaderStep(s, keep);
      if t.reader.pc == Ready then t else PopAlone(t, keep, n - 1)
  }

  lemma PopAloneStep(s: State, keep: bool, n: nat)
    requires Shape(s) && n > 0
    ensures var t := ReaderStep(s, keep);
      Shape(t) && PopAlone(s, keep, n) == if t.reader.pc == Ready then t else PopAlone(t, keep, n - 1)
  {
    ReaderKeepsShape(s, keep);
    hide ReaderStep;
  }

  /** What a pop that finds a pointer does, with nobody else moving. */
  lemma PopGoesOn(s: State, keep: bool)
    requires Shape(s) && s.reader.pc == Ready && s.slots[s.r].Some?
    ensures var c := s.slots[s.r].value; var t := PopAlone(s, keep, 5);
      && t.reader.pc == Ready && t.writers == s.writers && t.accepted == s.accepted && t.taken == s.taken + 1
      && t.popped == s.popped + [s.memory[c]]
      && t.pool == (if keep then s.pool else s.pool + {c})
      && t.held == (if keep then s.held[c := s.memory[c]] else s.held)
  {
    PopAloneStep(s, keep, 5);
    var s1 := ReaderStep(s, keep);
    PopAloneStep(s1, keep, 4);
    var s2 := ReaderStep(s1, keep);
    PopAloneStep(s2, keep, 3);
    var s3 := ReaderStep(s2, keep);
    PopAloneStep(s3, keep, 2);
    if !keep {
      PopAloneStep(ReaderStep(s3, keep), keep, 1);
    }
  }

  /** A pop made while no other call is under way ends within five steps.  It finds nothing, and changes
      nothing, if and only if the queue is empty; otherwise it returns the oldest item not taken, whose
      cell is handed out or free again. */
  lemma PopAloneIff(bufsize: nat, initial: int, writers: nat, es: seq<Event>, keep: bool)
    requires Quiet(After(bufsize, initial, writers, es))
    ensures var s := After(bufsize, initial, writers, es); var t := PopAlone(s, keep, 5);
      && Quiet(t) && t.accepted == s.accepted
      && (Queued(s) == 0 <==> t == s)
      && (Queued(s) > 0 ==>
            && t.popped == s.popped + [s.accepted[s.taken].item] && t.taken == s.taken + 1
            && (keep ==> t.pool == s.pool && |t.held| == |s.held| + 1)
            && (!keep ==> |t.pool| == |s.pool| + 1 && t.held == s.held))
  {
    var s := After(bufsize, initial, writers, es);
    MissAndFull(bufsize, initial, writers, es);
    if Queued(s) > 0 {
      HeadIsOldest(s);
      var c := s.slots[s.r].value;
      HeadIsOwn(s);
      PopGoesOn(s, keep);
      KeepOne(s.held, c, s.memory[c]);
    } else {
      PopAloneStep(s, keep, 5);
    }
  }

  /** A release by the reader frees exactly the cell it was handed out, and nothing if it holds no such
      cell. */
  lemma ReleaseIs(bufsize: nat, initial: int, writers: nat, es: seq<Event>, c: Cell)
    requires After(bufsize, initial, writers, es).reader.pc == Ready
    ensures var s := After(bufsize, initial, writers, es); var t := Step(s, ReleaseStep(c));
      && (c !in s.held ==> t == s)
      && (c in s.held ==> |t.pool| == |s.pool| + 1 && c in t.pool && s.pool <= t.pool && t.held == s.held - {c})
      && t.slots == s.slots && t.memory == s.memory && t.writers == s.writers && t.reader == s.reader
      && t.accepted == s.accepted && t.popped == s.popped && t.taken == s.taken
  {
    var s := After(bufsize, initial, writers, es);
    if c in s.held && c in s.pool {
      OnePlace(s, c, Free, WithReader);
    }
  }

  lemma HeadIsOwn(s: State)
    requires Shape(s) && Owned(s) && s.slots[s.r].Some?
    ensures s.slots[s.r].value !in s.pool && s.slots[s.r].value !in s.held
  {
    var c := s.slots[s.r].value;
    if c in s.pool {
      OnePlace(s, c, Free, InSlot(s.r));
    }
    if c in s.held {
      OnePlace(s, c, WithReader, InSlot(s.r));
    }
  }

  // ---------------------------------------------------------------- real time

  lemma StepOnlyAccepts(s: State, e: Event)
    requires Shape(s)
    ensures s.accepted <= Step(s, e).accepted
  {
  }

  lemma {:induction false} RunOnlyAccepts(s: State, es: seq<Event>)
    requires Inv(s)
    ensures s.accepted <= Run(s, es).accepted
    decreases |es|
  {
    if es != [] {
      StepOnlyAccepts(s, es[0]);
      StepKeeps(s, es[0]);
      assert Shape(s);
      hide Inv, Shape, Step;
      RunOnlyAccepts(Step(s, es[0]), es[1..]);
    }
  }

  lemma {:induction false} OfJoin(q: nat, a: seq<Accepted>, b: seq<Accepted>)
    ensures Of(q, a + b) == Of(q, a) + Of(q, b)
    decreases |b|
  {
    if b == [] {
      assert a + b == a;
    } else {
      OfJoin(q, a, b[..|b| - 1]);
      assert (a + b)[..|a + b| - 1] == a + b[..|b| - 1];
    }
  }

  lemma ToldSince(q: nat, a: seq<Accepted>, b: seq<Accepted>, x: Writer, y: Writer)
    requires a <= b && Of(q, a) == Told(x) && Of(q, b) == Told(y)
    ensures x.done <= Of(q, a) && (x.pc != Storing ==> Told(y) == x.done + Of(q, b[|a|..]))
  {
    hide Of;
    assert b == a + b[|a|..];
    OfJoin(q, a, b[|a|..]);
  }

  /** From any state on, what a writer that is not about to be told is told is accepted after all that
      was accepted before. */
  lemma ToldInOrder(s: State, es: seq<Event>, q: nat)
    requires Inv(s) && q < |s.writers|
    ensures var t := Run(s, es);
      && |t.writers| == |s.writers| && s.accepted <= t.accepted
      && s.writers[q].done <= Of(q, s.accepted)
      && (s.writers[q].pc != Storing ==>
            Told(t.writers[q]) == s.writers[q].done + Of(q, t.accepted[|s.accepted|..]))
  {
    hide Run, Of, Shape, Indexes, Owned, InTransit, RestEmpty, StoresReady, CellsFilled, ReaderFits, InOrder;
    RunKeepsSize(s, es);
    RunOnlyAccepts(s, es);
    var t := Run(s, es);
    ToldSince(q, s.accepted, t.accepted, s.writers[q], t.writers[q]);
  }

  /** The order of the queue respects real time: at any moment of a run, all that pushes which have
      returned were told is accepted is accepted before all that pushes which begin later are told. */
  lemma RealTimeOrder(bufsize: nat, initial: int, writers: nat, before: seq<Event>, after: seq<Event>, q: nat)
    requires q < writers
    ensures var s := After(bufsize, initial, writers, before); var t := Run(s, after);
      && |s.writers| == |t.writers| == writers && s.accepted <= t.accepted
      && s.writers[q].done <= Of(q, s.accepted)
      && (s.writers[q].pc != Storing ==>
            Told(t.writers[q]) == s.writers[q].done + Of(q, t.accepted[|s.accepted|..]))
  {
    InitInv(bufsize, initial, writers);
    RunKeepsSize(Init(bufsize, initial, writers), before);
    hide Run, Of;
    ToldInOrder(After(bufsize, initial, writers, before), after, q);
  }

  /** A pop finds nothing exactly when the queue is empty or the oldest accepted push has not
      yet stored its pointer; a push finds no room exactly when `bufsize` items are accounted for. */
  lemma MissAndFull(bufsize: nat, initial: int, writers: nat, es: seq<Event>)
    ensures var s := After(bufsize, initial, writers, es);
      && (s.reader.pc == Ready ==>
            (s.slots[s.r] == None <==>
              Queued(s) == 0 ||
              exists q | 0 <= q < |s.writers| :: s.writers[q].pc == Storing && s.writers[q].ticket == s.taken))
      && (Full(s) <==> Queued(s) == bufsize) && (Capacity(s) == Size(s) <==> Queued(s) == bufsize)
  {
    var s := After(bufsize, initial, writers, es);
    InitInv(bufsize, initial, writers);
    RunKeepsSize(Init(bufsize, initial, writers), es);
    IndexArithmetic(s);
    assert SlotOf(s, s.taken) == s.r;
    if Queued(s) != 0 {
      assert Carried(s, s.taken);
    }
    forall q | 0 <= q < |s.writers| && s.writers[q].pc == Storing && s.writers[q].ticket == s.taken
      ensures s.slots[s.r] == None
    {
      assert StoreReady(s, q);
    }
  }
}
