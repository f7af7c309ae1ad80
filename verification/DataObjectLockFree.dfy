/** The lock-free data object of rtt/base/DataObjectLockFree.hpp as a transition system.

    One thread calls `Set`, any number of threads call `Get`.  Every access to shared
    memory is one step, and a value is copied one machine word at a time, so both the
    write in `Set` and the copy in `Get` take several steps.  A run is any sequence of
    steps of the writer and the readers. */
module LockFreeRegister {

  type Value = seq<int>  // the words of one data sample

  datatype Cell = Cell(data: Value, counter: int)

  /** Where a reader is inside `Get`. */
  datatype ReaderPc = Outside | Loading | Loaded | Counted | BackOff | Copying

  /** The locals of one `Get` call, followed by what an observer notes about it:
      when it began, how often it failed to validate, the number of publications at
      its begin and at its latest load, and when and on what it validated. */
  datatype Reader = Reader(pc: ReaderPc, reading: nat, local: Value,
                           begin: nat, fails: nat, beginPubs: nat, loadPubs: nat,
                           validAt: nat, index: nat)
  {
    /** This reader has incremented the counter of `reading` and not yet decremented it. */
    predicate Holds(c: nat) {
      (pc == Counted || pc == BackOff || pc == Copying) && reading == c
    }

    /** This reader has passed its validating comparison on cell `c`. */
    predicate Validated(c: nat) { pc == Copying && reading == c }

    /** This reader has loaded a cell it may still lock, or has locked it. */
    predicate Aims() { pc != Outside && pc != Loading }
  }

  /** Where the writer is inside `Set`. */
  datatype WriterPc = Idle | Writing | Scanning | Publishing | Advancing

  /** The locals of one `Set` call; `words` counts copied words, `tests` the scan tests
      that failed, `steps` the writer's own steps since the call began. */
  datatype Writer = Writer(pc: WriterPc, push: Value, words: nat, wrote: nat,
                           tests: nat, steps: nat, begin: nat)
  {
    /** A value has been handed to `Set` and is not yet published. */
    predicate Pending() { pc == Writing || pc == Scanning || pc == Publishing }
  }

  datatype Publication = Publication(value: Value, begin: nat, at: nat)

  /** One completed `Get`: it ran from `begin` to `end` and compared successfully at `validAt`. */
  datatype GetRecord = GetRecord(reader: nat, value: Value, index: nat,
                                 begin: nat, validAt: nat, end: nat,
                                 fails: nat, pubs: int)

  datatype State = State(width: nat, cells: seq<Cell>, readPtr: nat, writePtr: nat,
                         writer: Writer, readers: seq<Reader>,
                         clock: nat, calls: seq<Value>, drops: nat,
                         published: seq<Publication>, log: seq<GetRecord>)

  datatype Event = SetStep(push: Value) | GetStep(reader: nat)

  // ---------------------------------------------------------------- the ring

  /** The `next` link that `data_sample` gives cell `c` of a ring of `n` cells. */
  function Next(n: nat, c: nat): nat { if c + 1 < n then c + 1 else 0 }

  /** How many links lead from cell `from` to cell `c`. */
  function Ahead(n: nat, from: nat, c: nat): nat
    requires from < n && c < n
  {
    if from <= c then c - from else n - from + c
  }

  // ---------------------------------------------------------------- steps

  function Init(maxThreads: nat, initial: Value, readers: nat): State {
    State(|initial|, seq(maxThreads + 2, _ => Cell(initial, 0)), 0, 1,
          Writer(Idle, initial, 0, 0, 0, 0, 0),
          seq(readers, _ => Reader(Outside, 0, [], 0, 0, 0, 0, 0, 0)),
          1, [], 0, [Publication(initial, 0, 0)], [])
  }

  /** The types keep every pointer on a cell of the ring and every sample at full width. */
  ghost predicate Shape(s: State) {
    && 2 <= |s.cells|
    && s.readPtr < |s.cells| && s.writePtr < |s.cells| && s.writer.wrote < |s.cells|
    && |s.writer.push| == s.width && s.writer.words <= s.width
    && 0 < |s.published|
    && (forall c | 0 <= c < |s.cells| :: |s.cells[c].data| == s.width)
    && (forall r | 0 <= r < |s.readers| :: s.readers[r].reading < |s.cells| && |s.readers[r].local| <= s.width)
  }

  function Tick(s: State): State { s.(clock := s.clock + 1) }

  function WithCounter(s: State, c: nat, delta: int): seq<Cell>
    requires c < |s.cells|
  {
    s.cells[c := s.cells[c].(counter := s.cells[c].counter + delta)]
  }

  /** The next step of the writer; when it is not inside `Set` it calls `Set(push)`. */
  function WriterStep(s: State, push: Value): State
    requires Shape(s)
  {
    var w := s.writer;
    var w1 := w.(steps := w.steps + 1);
    var n := |s.cells|;
    match w.pc
    case Idle =>
      if |push| != s.width then s
      else s.(writer := Writer(Writing, push, 0, w.wrote, 0, 1, s.clock), calls := s.calls + [push])
    case Writing =>
      if w.words < s.width then
        var cell := s.cells[s.writePtr];
        s.(cells := s.cells[s.writePtr := cell.(data := cell.data[w.words := w.push[w.words]])],
           writer := w1.(words := w.words + 1))
      else
        s.(writer := w1.(pc := Scanning, wrote := s.writePtr, tests := 0))
    case Scanning =>
      var nxt := Next(n, s.writePtr);
      if s.cells[nxt].counter != 0 || nxt == s.readPtr then
        if nxt == w.wrote then
          s.(writePtr := nxt, writer := w1.(pc := Idle), drops := s.drops + 1)
        else
          s.(writePtr := nxt, writer := w1.(tests := w.tests + 1))
      else
        s.(writer := w1.(pc := Publishing))
    case Publishing =>
      s.(readPtr := w.wrote, writer := w1.(pc := Advancing),
         published := s.published + [Publication(w.push, w.begin, s.clock)])
    case Advancing =>
      s.(writePtr := Next(n, s.writePtr), writer := w1.(pc := Idle))
  }

  /** The next step of reader `r`; when it is not inside `Get` it calls `Get`. */
  function ReaderStep(s: State, r: nat): State
    requires Shape(s) && r < |s.readers|
  {
    var x := s.readers[r];
    var pubs := |s.published|;
    match x.pc
    case Outside =>
      s.(readers := s.readers[r := Reader(Loading, x.reading, [], s.clock, 0, pubs, pubs, 0, 0)])
    case Loading =>
      s.(readers := s.readers[r := x.(pc := Loaded, reading := s.readPtr, loadPubs := pubs)])
    case Loaded =>
      s.(cells := WithCounter(s, x.reading, 1), readers := s.readers[r := x.(pc := Counted)])
    case Counted =>
      if x.reading != s.readPtr then
        s.(readers := s.readers[r := x.(pc := BackOff)])
      else
        s.(readers := s.readers[r := x.(pc := Copying, local := [], validAt := s.clock, index := pubs - 1)])
    case BackOff =>
      s.(cells := WithCounter(s, x.reading, -1),
         readers := s.readers[r := x.(pc := Loading, fails := x.fails + 1)])
    case Copying =>
      if |x.local| < s.width then
        s.(readers := s.readers[r := x.(local := x.local + [s.cells[x.reading].data[|x.local|]])])
      else
        s.(cells := WithCounter(s, x.reading, -1), readers := s.readers[r := x.(pc := Outside)],
           log := s.log + [GetRecord(r, x.local, x.index, x.begin, x.validAt, s.clock,
                                     x.fails, pubs as int - x.beginPubs as int)])
  }

  function Step(s: State, e: Event): State
    requires Shape(s)
  {
    match e
    case SetStep(push) => Tick(WriterStep(s, push))
    case GetStep(r) => if r < |s.readers| then Tick(ReaderStep(s, r)) else s
  }

  // ---------------------------------------------------------------- the invariant

  function Holders(readers: seq<Reader>, c: nat): set<nat>
  {
    set r | 0 <= r < |readers| && readers[r].Holds(c)
  }

  /** Each counter equals the number of readers between its increment and its decrement. */
  ghost predicate CountersExact(s: State) {
    forall c :: 0 <= c < |s.cells| ==> s.cells[c].counter == |Holders(s.readers, c)|
  }

  /** Cell `c` is neither `read_ptr` nor copied by a validated reader. */
  ghost predicate Exclusive(s: State, c: nat) {
    c != s.readPtr && forall r | 0 <= r < |s.readers| :: !s.readers[r].Validated(c)
  }

  /** The cells the writer relies on: the one being filled or about to be published and,
      once the scan has chosen it, the one to be filled next. */
  ghost predicate ReservedExclusive(s: State) {
    match s.writer.pc
    case Idle => Exclusive(s, s.writePtr)
    case Writing => Exclusive(s, s.writePtr)
    case Scanning => Exclusive(s, s.writer.wrote)
    case Publishing => Exclusive(s, s.writer.wrote) && Exclusive(s, Next(|s.cells|, s.writePtr))
    case Advancing => Exclusive(s, Next(|s.cells|, s.writePtr))
  }

  ghost predicate WriterData(s: State)
    requires Shape(s)
  {
    match s.writer.pc
    case Idle => true
    case Writing => s.cells[s.writePtr].data[..s.writer.words] == s.writer.push[..s.writer.words]
    case Scanning => s.cells[s.writer.wrote].data == s.writer.push
    case Publishing => s.cells[s.writer.wrote].data == s.writer.push && Next(|s.cells|, s.writePtr) != s.writer.wrote
    case Advancing => s.readPtr == s.writer.wrote
  }

  ghost predicate ReaderData(s: State)
    requires Shape(s)
  {
    && s.cells[s.readPtr].data == s.published[|s.published| - 1].value
    && forall r | 0 <= r < |s.readers| && s.readers[r].pc == Copying ::
         var x := s.readers[r];
         && x.index < |s.published|
         && s.cells[x.reading].data == s.published[x.index].value
         && x.local == s.published[x.index].value[..|x.local|]
  }

  /** A publication was current at time `t`: made before, and replaced only after, `t`. */
  ghost predicate CurrentAt(published: seq<Publication>, index: nat, t: nat) {
    && index < |published|
    && published[index].at < t
    && (index + 1 < |published| ==> t < published[index + 1].at)
  }

  /** A call in progress has failed at most once per publication made since it began, and
      one that validated did so while its value was current. */
  ghost predicate Timely(published: seq<Publication>, readPtr: nat, clock: nat, x: Reader) {
    && x.begin < clock
    && x.beginPubs + x.fails <= |published|
    && (x.pc == Loaded || x.pc == Counted ==>
          && x.beginPubs + x.fails <= x.loadPubs <= |published|
          && (x.loadPubs == |published| ==> x.reading == readPtr))
    && (x.pc == BackOff ==> x.beginPubs + x.fails < |published|)
    && (x.pc == Copying ==> x.begin <= x.validAt < clock && CurrentAt(published, x.index, x.validAt))
  }

  ghost predicate ReaderTimes(s: State) {
    forall r | 0 <= r < |s.readers| && s.readers[r].pc != Outside ::
      Timely(s.published, s.readPtr, s.clock, s.readers[r])
  }

  ghost predicate Ordered(published: seq<Publication>) {
    && (forall i | 0 <= i < |published| :: published[i].begin <= published[i].at)
    && (forall i, j | 0 <= i < j < |published| ::
          published[i].at < published[j].at && published[i].at < published[j].begin)
  }

  ghost predicate PublicationTimes(s: State) {
    && 0 < |s.published| && Ordered(s.published)
    && s.published[|s.published| - 1].at < s.clock
    && (s.writer.Pending() ==> s.published[|s.published| - 1].at < s.writer.begin < s.clock)
  }

  /** `Set` never takes its drop exit, and publishes exactly what it was called with, in order. */
  ghost predicate Accounted(s: State) {
    && s.drops == 0
    && |s.published| + (if s.writer.Pending() then 1 else 0) == |s.calls| + 1
    && (forall i | 1 <= i < |s.published| :: s.published[i].value == s.calls[i - 1])
    && (s.writer.Pending() ==> 0 < |s.calls| && s.writer.push == s.calls[|s.calls| - 1])
  }

  /** What a completed `Get` reports is the value current at its validating comparison. */
  ghost predicate Faithful(published: seq<Publication>, g: GetRecord) {
    && g.begin <= g.validAt < g.end
    && CurrentAt(published, g.index, g.validAt)
    && g.value == published[g.index].value
    && g.fails <= g.pubs
  }

  ghost predicate LogFaithful(s: State) {
    forall i | 0 <= i < |s.log| :: Faithful(s.published, s.log[i]) && s.log[i].end < s.clock
  }

  /** Readers that could still make the scan skip a cell it has not tested yet. */
  function Threats(s: State): set<nat>
    requires Shape(s)
  {
    set r | 0 <= r < |s.readers| && Threat(s, s.readers[r])
  }

  predicate Threat(s: State, x: Reader)
    requires Shape(s)
  {
    && x.Aims() && x.reading != s.readPtr
    && x.reading < |s.cells| && !Tested(s, x.reading)
  }

  predicate Tested(s: State, c: nat)
    requires Shape(s) && c < |s.cells|
  {
    1 <= Ahead(|s.cells|, s.writer.wrote, c) <= s.writer.tests
  }

  /** The failed tests that a reader, and not `read_ptr`, is to blame for. */
  function Blamed(s: State): int
    requires Shape(s)
  {
    s.writer.tests - (if Tested(s, s.readPtr) then 1 else 0)
  }

  /** The pigeonhole argument: a reader can be blamed for one cell only. */
  ghost predicate ScanBudget(s: State)
    requires Shape(s)
  {
    s.writer.pc == Scanning ==>
      && s.writer.tests + 2 <= |s.cells|
      && Ahead(|s.cells|, s.writer.wrote, s.writePtr) == s.writer.tests
      && |Threats(s)| + Blamed(s) <= |s.readers|
  }

  /** `Set` is wait-free: a bound on the writer's own steps since the call began. */
  ghost predicate StepBudget(s: State)
    requires Shape(s)
  {
    var w := s.writer;
    match w.pc
    case Idle => true
    case Writing => w.steps == 1 + w.words
    case Scanning => w.steps == s.width + 2 + w.tests
    case Publishing => w.steps <= s.width + |s.readers| + 4
    case Advancing => w.steps <= s.width + |s.readers| + 5
  }

  ghost predicate Inv(s: State) {
    && Shape(s)
    && |s.readers| + 3 <= |s.cells|
    && CountersExact(s)
    && ReservedExclusive(s)
    && WriterData(s)
    && ReaderData(s)
    && ReaderTimes(s)
    && PublicationTimes(s)
    && Accounted(s)
    && LogFaithful(s)
    && ScanBudget(s)
    && StepBudget(s)
  }

  // ---------------------------------------------------------------- steps keep it

  ghost predicate SameSize(s: State, t: State) {
    t.width == s.width && |t.cells| == |s.cells| && |t.readers| == |s.readers|
  }

  lemma HoldersChange(readers: seq<Reader>, r: nat, x: Reader, c: nat)
    requires r < |readers|
    ensures |Holders(readers[r := x], c)| == |Holders(readers, c)|
              + (if x.Holds(c) then 1 else 0) - (if readers[r].Holds(c) then 1 else 0)
  {
    var before, after := Holders(readers, c), Holders(readers[r := x], c);
    var rest := before - {r};
    assert before == if readers[r].Holds(c) then rest + {r} else rest;
    assert after == if x.Holds(c) then rest + {r} else rest;
    assert |rest + {r}| == |rest| + 1;
  }

  lemma SubsetOfFirst(t: set<nat>, n: nat)
    requires forall r :: r in t ==> r < n
    ensures |t| <= n
  {
    if n > 0 {
      SubsetOfFirst(t - {n - 1}, n - 1);
    }
  }

  lemma SubsetSize(a: set<nat>, b: set<nat>)
    requires a <= b
    ensures |a| <= |b|
  {
    assert b == a + (b - a);
  }

  lemma WriterKeepsShape(s: State, push: Value)
    requires Shape(s)
    ensures Shape(Step(s, SetStep(push)))
  {
  }

  lemma WriterKeepsCounters(s: State, push: Value)
    requires Shape(s) && CountersExact(s)
    ensures CountersExact(Step(s, SetStep(push)))
  {
  }

  /** A failed test of a cell other than `read_ptr` uses up a threat: the reader blamed for it. */
  lemma FailedTestUsesThreat(s: State, t: State)
    requires Shape(s) && CountersExact(s) && ScanBudget(s) && s.writer.pc == Scanning
    requires var nxt := Next(|s.cells|, s.writePtr);
      && nxt != s.writer.wrote
      && (s.cells[nxt].counter != 0 || nxt == s.readPtr)
      && t == s.(clock := s.clock + 1, writePtr := nxt,
                 writer := s.writer.(tests := s.writer.tests + 1, steps := s.writer.steps + 1))
    ensures |Threats(t)| + Blamed(t) <= |Threats(s)| + Blamed(s)
  {
    var nxt := Next(|s.cells|, s.writePtr);
    assert Ahead(|s.cells|, s.writer.wrote, nxt) == s.writer.tests + 1;
    TestAddsNoThreat(s, t);
    if nxt == s.readPtr {
      SubsetSize(Threats(t), Threats(s));
    } else {
      assert s.cells[nxt].counter == |Holders(s.readers, nxt)|;
      var r :| r in Holders(s.readers, nxt);
      HolderIsBlamed(s, t, r);
      SubsetSize(Threats(t), Threats(s) - {r});
    }
  }

  /** A reader that holds the cell just tested was a threat and is one no more. */
  lemma HolderIsBlamed(s: State, t: State, r: nat)
    requires Shape(s) && Shape(t) && t.cells == s.cells && t.readers == s.readers && t.readPtr == s.readPtr
    requires t.writer.wrote == s.writer.wrote && t.writer.tests == s.writer.tests + 1
    requires var nxt := Next(|s.cells|, s.writePtr);
      nxt != s.readPtr && r in Holders(s.readers, nxt) && Ahead(|s.cells|, s.writer.wrote, nxt) == t.writer.tests
    ensures r in Threats(s) && r !in Threats(t)
  {
  }

  /** What is tested stays tested. */
  lemma TestAddsNoThreat(s: State, t: State)
    requires Shape(s) && Shape(t) && t.cells == s.cells && t.readers == s.readers && t.readPtr == s.readPtr
    requires t.writer.wrote == s.writer.wrote && s.writer.tests <= t.writer.tests
    ensures Threats(t) <= Threats(s)
  {
  }

  /** The next cell the scan tests is not the one that was written: too few readers can be
      to blame for the failed tests so far. */
  lemma ScanStaysShort(s: State)
    requires Shape(s) && ScanBudget(s) && s.writer.pc == Scanning && |s.readers| + 3 <= |s.cells|
    ensures var nxt := Next(|s.cells|, s.writePtr);
      && Ahead(|s.cells|, s.writer.wrote, nxt) == s.writer.tests + 1
      && nxt != s.writer.wrote
      && s.writer.tests <= |s.readers| + 1
  {
  }

  lemma WriterKeepsBudgets(s: State, push: Value)
    requires Shape(s) && CountersExact(s) && ScanBudget(s) && StepBudget(s) && |s.readers| + 3 <= |s.cells|
    ensures var t := Step(s, SetStep(push)); Shape(t) && ScanBudget(t) && StepBudget(t)
  {
    WriterKeepsShape(s, push);
    var t := Step(s, SetStep(push));
    if t.writer.pc == Scanning {
      SubsetOfFirst(Threats(t), |t.readers|);
      if s.writer.pc == Scanning {
        ScanStaysShort(s);
        FailedTestUsesThreat(s, t);
      }
    } else if s.writer.pc == Scanning {
      ScanStaysShort(s);
    }
  }

  /** The scan chooses a cell that nobody has locked, so no validated reader is on it. */
  lemma WriterKeepsExclusive(s: State, push: Value)
    requires Shape(s) && CountersExact(s) && ReservedExclusive(s) && ScanBudget(s) && WriterData(s)
    requires |s.readers| + 3 <= |s.cells|
    ensures ReservedExclusive(Step(s, SetStep(push)))
  {
    if s.writer.pc == Scanning {
      ScanStaysShort(s);
      var nxt := Next(|s.cells|, s.writePtr);
      if s.cells[nxt].counter == 0 {
        forall r | 0 <= r < |s.readers| ensures !s.readers[r].Validated(nxt) {
          assert r !in Holders(s.readers, nxt);
        }
      }
    }
  }

  lemma WriterKeepsData(s: State, push: Value)
    requires Shape(s) && ReservedExclusive(s) && WriterData(s) && ReaderData(s) && ScanBudget(s)
    requires |s.readers| + 3 <= |s.cells|
    ensures var t := Step(s, SetStep(push)); Shape(t) && WriterData(t) && ReaderData(t)
  {
    WriterKeepsShape(s, push);
    if s.writer.pc == Scanning {
      ScanStaysShort(s);
    }
  }

  lemma WriterKeepsTimes(s: State, push: Value)
    requires Shape(s) && ReaderTimes(s)
    ensures ReaderTimes(Step(s, SetStep(push)))
  {
    var t := Step(s, SetStep(push));
    forall q | 0 <= q < |t.readers| && t.readers[q].pc != Outside
      ensures Timely(t.published, t.readPtr, t.clock, t.readers[q])
    {
      assert Timely(s.published, s.readPtr, s.clock, s.readers[q]);
    }
  }

  lemma WriterKeepsPublicationTimes(s: State, push: Value)
    requires Shape(s) && PublicationTimes(s)
    ensures PublicationTimes(Step(s, SetStep(push)))
  {
    hide Ordered;
    if s.writer.pc == Publishing {
      OrderedAppend(s.published, Publication(s.writer.push, s.writer.begin, s.clock));
    }
  }

  lemma OrderedAppend(published: seq<Publication>, p: Publication)
    requires Ordered(published) && p.begin <= p.at
    requires published != [] ==> published[|published| - 1].at < p.begin
    ensures Ordered(published + [p])
  {
  }

  lemma WriterKeepsAccounts(s: State, push: Value)
    requires Shape(s) && Accounted(s) && ScanBudget(s) && |s.readers| + 3 <= |s.cells|
    ensures Accounted(Step(s, SetStep(push)))
  {
    if s.writer.pc == Scanning {
      ScanStaysShort(s);
    }
  }

  lemma WriterKeepsLog(s: State, push: Value)
    requires Shape(s) && LogFaithful(s)
    ensures LogFaithful(Step(s, SetStep(push)))
  {
    var t := Step(s, SetStep(push));
    forall i | 0 <= i < |t.log| ensures Faithful(t.published, t.log[i]) {
      assert Faithful(s.published, s.log[i]);
    }
  }

  lemma WriterStepKeeps(s: State, push: Value)
    requires Inv(s)
    ensures Inv(Step(s, SetStep(push)))
  {
    StepKeepsShape(s, SetStep(push));
    hide Shape, Step, CountersExact, ReservedExclusive, WriterData, ReaderData, ReaderTimes,
      PublicationTimes, Accounted, LogFaithful, ScanBudget, StepBudget;
    WriterKeepsCounters(s, push);
    WriterKeepsBudgets(s, push);
    WriterKeepsExclusive(s, push);
    WriterKeepsData(s, push);
    WriterKeepsTimes(s, push);
    WriterKeepsPublicationTimes(s, push);
    WriterKeepsAccounts(s, push);
    WriterKeepsLog(s, push);
  }

  lemma ReaderKeepsShape(s: State, r: nat)
    requires Shape(s) && r < |s.readers|
    ensures Shape(Step(s, GetStep(r)))
  {
  }

  lemma CountersAfter(s: State, r: nat, x: Reader, delta: int)
    requires CountersExact(s) && r < |s.readers| && s.readers[r].reading < |s.cells|
    requires delta == (if x.Holds(s.readers[r].reading) then 1 else 0)
                    - (if s.readers[r].Holds(s.readers[r].reading) then 1 else 0)
    requires forall c: nat :: c != s.readers[r].reading ==> !x.Holds(c)
    ensures CountersExact(s.(cells := WithCounter(s, s.readers[r].reading, delta), readers := s.readers[r := x]))
  {
    forall c: nat | c < |s.cells| ensures
      |Holders(s.readers[r := x], c)| == WithCounter(s, s.readers[r].reading, delta)[c].counter
    {
      HoldersChange(s.readers, r, x, c);
    }
  }

  lemma ReaderKeepsCounters(s: State, r: nat)
    requires Shape(s) && CountersExact(s) && r < |s.readers|
    ensures CountersExact(Step(s, GetStep(r)))
  {
    var t := Step(s, GetStep(r));
    var x := s.readers[r];
    var delta := if x.pc == Loaded then 1
                 else if x.pc == BackOff || (x.pc == Copying && |x.local| == s.width) then -1 else 0;
    CountersAfter(s, r, t.readers[r], delta);
  }

  lemma ReaderAddsNoThreat(s: State, r: nat)
    requires Shape(s) && r < |s.readers| && Shape(Step(s, GetStep(r)))
    ensures Threats(Step(s, GetStep(r))) <= Threats(s)
  {
    ReaderKeepsOthers(s, r);
    ReaderKeepsSamples(s, r);
  }

  /** A reader step creates no threat: what a reader newly aims at is `read_ptr`. */
  lemma ReaderKeepsBudgets(s: State, r: nat)
    requires Shape(s) && ScanBudget(s) && StepBudget(s) && r < |s.readers|
    ensures var t := Step(s, GetStep(r)); Shape(t) && ScanBudget(t) && StepBudget(t)
  {
    ReaderKeepsShape(s, r);
    ReaderAddsNoThreat(s, r);
    SubsetSize(Threats(Step(s, GetStep(r))), Threats(s));
    ReaderKeepsSamples(s, r);
    hide Step, Threats;
  }

  lemma ReaderKeepsCell(s: State, r: nat, c: nat)
    requires Shape(s) && r < |s.readers|
    ensures Exclusive(s, c) ==> Exclusive(Step(s, GetStep(r)), c)
  {
  }

  /** A reader can pass its comparison only on `read_ptr`, which the writer does not touch. */
  lemma ReaderKeepsExclusive(s: State, r: nat)
    requires Shape(s) && ReservedExclusive(s) && r < |s.readers|
    ensures ReservedExclusive(Step(s, GetStep(r)))
  {
    hide Exclusive;
    ReaderKeepsCell(s, r, s.writePtr);
    ReaderKeepsCell(s, r, s.writer.wrote);
    ReaderKeepsCell(s, r, Next(|s.cells|, s.writePtr));
  }

  /** A reader step leaves the writer, the pointers and every sample alone. */
  lemma ReaderKeepsSamples(s: State, r: nat)
    requires Shape(s) && r < |s.readers|
    ensures var t := Step(s, GetStep(r));
      && SameSize(s, t) && t.writer == s.writer && t.readPtr == s.readPtr && t.writePtr == s.writePtr
      && t.published == s.published && forall c | 0 <= c < |s.cells| :: t.cells[c].data == s.cells[c].data
  {
  }

  lemma ReaderMovesData(s: State, r: nat, x: Reader)
    requires Shape(s) && ReaderData(s) && r < |s.readers|
    requires x == Step(s, GetStep(r)).readers[r] && x.pc == Copying
    ensures x.reading < |s.cells| && x.index < |s.published|
      && s.cells[x.reading].data == s.published[x.index].value
      && x.local == s.published[x.index].value[..|x.local|]
  {
  }

  lemma ReaderKeepsData(s: State, r: nat)
    requires Shape(s) && WriterData(s) && ReaderData(s) && r < |s.readers|
    ensures var t := Step(s, GetStep(r)); Shape(t) && WriterData(t) && ReaderData(t)
  {
    ReaderKeepsShape(s, r);
    ReaderKeepsSamples(s, r);
    var t := Step(s, GetStep(r));
    if t.readers[r].pc == Copying {
      ReaderMovesData(s, r, t.readers[r]);
    }
    ReaderKeepsOthers(s, r);
    hide Step;
  }

  lemma ReaderKeepsOthers(s: State, r: nat)
    requires Shape(s) && r < |s.readers|
    ensures var t := Step(s, GetStep(r)); |t.readers| == |s.readers| && t.readers == s.readers[r := t.readers[r]]
  {
  }

  lemma ReaderMovesTimely(s: State, r: nat)
    requires Shape(s) && s.published[|s.published| - 1].at < s.clock && r < |s.readers|
    requires s.readers[r].pc != Outside ==> Timely(s.published, s.readPtr, s.clock, s.readers[r])
    ensures var x := Step(s, GetStep(r)).readers[r];
            x.pc != Outside ==> Timely(s.published, s.readPtr, s.clock + 1, x)
  {
  }

  lemma ReaderKeepsTimes(s: State, r: nat)
    requires Shape(s) && ReaderTimes(s) && s.published[|s.published| - 1].at < s.clock && r < |s.readers|
    ensures ReaderTimes(Step(s, GetStep(r)))
  {
    ReaderMovesTimely(s, r);
  }

  lemma ReaderKeepsHistory(s: State, r: nat)
    requires Shape(s) && PublicationTimes(s) && Accounted(s) && r < |s.readers|
    ensures var t := Step(s, GetStep(r)); PublicationTimes(t) && Accounted(t)
  {
    ReaderKeepsSamples(s, r);
    ReaderKeepsCalls(s, r);
    hide Step, Ordered;
  }

  lemma ReaderKeepsCalls(s: State, r: nat)
    requires Shape(s) && r < |s.readers|
    ensures var t := Step(s, GetStep(r)); t.calls == s.calls && t.drops == s.drops && s.clock < t.clock
  {
  }

  lemma ReaderKeepsLog(s: State, r: nat)
    requires Shape(s) && ReaderTimes(s) && ReaderData(s) && LogFaithful(s) && r < |s.readers|
    ensures LogFaithful(Step(s, GetStep(r)))
  {
  }

  lemma ReaderStepKeeps(s: State, r: nat)
    requires Inv(s) && r < |s.readers|
    ensures Inv(Step(s, GetStep(r)))
  {
    assert 0 < |s.published| && s.published[|s.published| - 1].at < s.clock;
    StepKeepsShape(s, GetStep(r));
    hide Shape, Step, CountersExact, ReservedExclusive, WriterData, ReaderData, ReaderTimes,
      PublicationTimes, Accounted, LogFaithful, ScanBudget, StepBudget;
    ReaderKeepsCounters(s, r);
    ReaderKeepsBudgets(s, r);
    ReaderKeepsExclusive(s, r);
    ReaderKeepsData(s, r);
    ReaderKeepsTimes(s, r);
    ReaderKeepsHistory(s, r);
    ReaderKeepsLog(s, r);
  }

  lemma StepKeepsShape(s: State, e: Event)
    requires Shape(s)
    ensures Shape(Step(s, e)) && SameSize(s, Step(s, e))
  {
    match e
    case SetStep(push) => WriterKeepsShape(s, push);
    case GetStep(r) => if r < |s.readers| { ReaderKeepsShape(s, r); }
  }

  // ---------------------------------------------------------------- runs

  function Run(s: State, es: seq<Event>): (t: State)
    requires Shape(s)
    ensures Shape(t) && SameSize(s, t)
    decreases |es|
  {
    if es == [] then s
    else
      StepKeepsShape(s, es[0]);
      Run(Step(s, es[0]), es[1..])
  }

  lemma StepKeepsInv(s: State, e: Event)
    requires Inv(s)
    ensures Inv(Step(s, e))
  {
    match e
    case SetStep(push) => WriterStepKeeps(s, push);
    case GetStep(r) => if r < |s.readers| { ReaderStepKeeps(s, r); }
  }

  lemma {:induction false} RunKeepsInv(s: State, es: seq<Event>)
    requires Inv(s)
    ensures Inv(Run(s, es))
    decreases |es|
  {
    if es != [] {
      StepKeepsInv(s, es[0]);
      RunKeepsInv(Step(s, es[0]), es[1..]);
    }
  }

  lemma InitInv(maxThreads: nat, initial: Value, readers: nat)
    requires readers < maxThreads
    ensures Inv(Init(maxThreads, initial, readers))
  {
    var s := Init(maxThreads, initial, readers);
    forall c | 0 <= c < |s.cells| ensures Holders(s.readers, c) == {} {
    }
  }

  /** The state after any run of one writer and `readers` readers. */
  ghost function After(maxThreads: nat, initial: Value, readers: nat, es: seq<Event>): State {
    Run(Init(maxThreads, initial, readers), es)
  }

  lemma ReachableInv(maxThreads: nat, initial: Value, readers: nat, es: seq<Event>)
    requires readers < maxThreads
    ensures Inv(After(maxThreads, initial, readers, es))
  {
    InitInv(maxThreads, initial, readers);
    RunKeepsInv(Init(maxThreads, initial, readers), es);
  }

  // ---------------------------------------------------------------- what holds of every run

  /** While `Set` fills a cell, that cell is not `read_ptr` and nobody validated is copying it. */
  ghost predicate Safe(s: State) {
    s.writer.pc == Writing ==> Exclusive(s, s.writePtr)
  }

  /** No torn read: a `Get` that is copying has so far copied words of one published value. */
  lemma NoTornRead(maxThreads: nat, initial: Value, readers: nat, es: seq<Event>)
    requires readers < maxThreads
    ensures var s := After(maxThreads, initial, readers, es);
      && Safe(s)
      && (forall r | 0 <= r < |s.readers| && s.readers[r].pc == Copying ::
            exists i | 0 <= i < |s.published| ::
              s.readers[r].local <= s.published[i].value
              && s.cells[s.readers[r].reading].data == s.published[i].value)
  {
    ReachableInv(maxThreads, initial, readers, es);
  }

  /** `Set` never gives up: it publishes every value it is called with, in call order, after a
      bounded number of its own steps, and then has a cell to write to that is not `read_ptr`. */
  lemma SetAlwaysPublishes(maxThreads: nat, initial: Value, readers: nat, es: seq<Event>)
    requires readers < maxThreads
    ensures var s := After(maxThreads, initial, readers, es);
      && s.drops == 0
      && |s.calls| <= |s.published| <= |s.calls| + 1
      && s.published[0].value == initial
      && (forall i | 1 <= i < |s.published| :: s.published[i].value == s.calls[i - 1])
      && (s.writer.pc == Idle ==> |s.published| == |s.calls| + 1 && s.writePtr != s.readPtr)
      && (s.writer.pc == Scanning ==> s.writer.tests <= readers + 1)
      && (s.writer.pc != Idle ==> s.writer.steps <= s.width + readers + 5)
  {
    InitialStays(Init(maxThreads, initial, readers), es);
    ReachableInv(maxThreads, initial, readers, es);
  }

  lemma {:induction false} InitialStays(s: State, es: seq<Event>)
    requires Shape(s)
    ensures Run(s, es).published[0] == s.published[0]
    decreases |es|
  {
    if es != [] {
      StepKeepsShape(s, es[0]);
      InitialStays(Step(s, es[0]), es[1..]);
    }
  }

  /** Linearizability: each `Get` returns the value that was current at its validating
      comparison, inside the call; so it never returns a value older than one whose publication
      precedes the call, nor one of a later `Set`, nor one older than an earlier `Get` returned.
      It fails to validate at most once per publication made during the call. */
  lemma Linearizable(maxThreads: nat, initial: Value, readers: nat, es: seq<Event>)
    requires readers < maxThreads
    ensures var s := After(maxThreads, initial, readers, es);
      && (forall i | 0 <= i < |s.log| :: Faithful(s.published, s.log[i]))
      && (forall i, k | 0 <= i < |s.log| && 0 <= k < |s.published| ::
            && (s.published[k].at < s.log[i].begin ==> k <= s.log[i].index)
            && (s.log[i].end <= s.published[k].begin ==> s.log[i].index < k || k == 0))
      && (forall i, j | 0 <= i < |s.log| && 0 <= j < |s.log| && s.log[i].end <= s.log[j].begin ::
            s.log[i].index <= s.log[j].index)
  {
    ReachableInv(maxThreads, initial, readers, es);
    var s := After(maxThreads, initial, readers, es);
    forall i, k | 0 <= i < |s.log| && 0 <= k < |s.published| ensures
      && (s.published[k].at < s.log[i].begin ==> k <= s.log[i].index)
      && (s.log[i].end <= s.published[k].begin ==> s.log[i].index < k || k == 0)
    {
      var g := s.log[i];
      assert Faithful(s.published, g);
      assert g.index + 1 < k ==> s.published[g.index + 1].at < s.published[k].at;
      assert k < g.index ==> s.published[k].at < s.published[g.index].at;
    }
    forall i, j | 0 <= i < |s.log| && 0 <= j < |s.log| && s.log[i].end <= s.log[j].begin
      ensures s.log[i].index <= s.log[j].index
    {
      var g, h := s.log[i], s.log[j];
      assert Faithful(s.published, g) && Faithful(s.published, h);
    }
  }

  // ---------------------------------------------------------------- the bound is tight

  lemma {:induction false} RunConcat(s: State, es: seq<Event>, fs: seq<Event>)
    requires Shape(s)
    ensures Run(s, es + fs) == Run(Run(s, es), fs)
    decreases |es|
  {
    if es == [] {
      assert es + fs == fs;
    } else {
      StepKeepsShape(s, es[0]);
      assert (es + fs)[1..] == es[1..] + fs;
      RunConcat(Step(s, es[0]), es[1..], fs);
    }
  }

  lemma RunSnoc(s: State, es: seq<Event>, e: Event)
    requires Shape(s)
    ensures Run(s, es + [e]) == Step(Run(s, es), e)
  {
    var t := Run(s, es);
    StepKeepsShape(t, e);
    RunConcat(s, es, [e]);
    assert [e][1..] == [];
    assert Run(t, [e]) == Run(Step(t, e), []);
  }

  /** Nothing a scan looks at differs between the two states. */
  ghost predicate SameLocks(s: State, t: State) {
    && t.width == s.width && |t.cells| == |s.cells| && t.readers == s.readers
    && (forall c | 0 <= c < |s.cells| :: t.cells[c].counter == s.cells[c].counter)
  }

  /** `Set(v)` up to the point where the value is written and the scan begins. */
  lemma WriteOut(s: State, v: Value) returns (es: seq<Event>)
    requires Shape(s) && |v| == s.width && s.writer.pc == Idle
    ensures var t := Run(s, es);
      && SameLocks(s, t) && t.readPtr == s.readPtr && t.writePtr == s.writePtr
      && t.writer.pc == Scanning && t.writer.wrote == s.writePtr
  {
    es := [];
    var t := s;
    while t.writer.pc != Scanning
      invariant t == Run(s, es) && SameLocks(s, t)
      invariant t.readPtr == s.readPtr && t.writePtr == s.writePtr
      invariant t.writer.pc == Idle || t.writer.pc == Writing
             || (t.writer.pc == Scanning && t.writer.wrote == s.writePtr)
      decreases t.writer.pc == Idle, t.writer.pc == Writing, s.width - t.writer.words
    {
      RunSnoc(s, es, SetStep(v));
      es := es + [SetStep(v)];
      t := Step(t, SetStep(v));
    }
  }

  /** A scan that finds the first `skip` cells taken and the next one free publishes there. */
  lemma ScanTo(s: State, v: Value, skip: nat) returns (es: seq<Event>)
    requires Shape(s) && s.writer.pc == Scanning && s.writer.wrote == s.writePtr
    requires s.writePtr + 1 == |s.cells| || skip == 0
    requires skip < |s.cells| && s.readPtr != s.writePtr
    requires forall c | 0 <= c < skip :: s.cells[c].counter != 0 || c == s.readPtr
    requires var free := if skip == 0 then Next(|s.cells|, s.writePtr) else skip;
      s.cells[free].counter == 0 && free != s.readPtr
    ensures var t := Run(s, es);
      && SameLocks(s, t) && t.readPtr == s.writePtr && t.writer.pc == Idle
      && t.writePtr == (if skip == 0 then Next(|s.cells|, s.writePtr) else skip)
  {
    es := [];
    var t := s;
    var done := 0;
    while done < skip
      invariant 0 <= done <= skip && t == Run(s, es) && SameLocks(s, t)
      invariant t.readPtr == s.readPtr && t.writer.pc == Scanning && t.writer.wrote == s.writePtr
      invariant t.writePtr == if done == 0 then s.writePtr else done - 1
    {
      RunSnoc(s, es, SetStep(v));
      es := es + [SetStep(v)];
      t := Step(t, SetStep(v));
      done := done + 1;
    }
    var fs := PublishRest(t, v);
    RunConcat(s, es, fs);
    es := es + fs;
  }

  lemma PublishRest(s: State, v: Value) returns (es: seq<Event>)
    requires Shape(s) && s.writer.pc == Scanning
    requires var nxt := Next(|s.cells|, s.writePtr); s.cells[nxt].counter == 0 && nxt != s.readPtr
    ensures var t := Run(s, es);
      && SameLocks(s, t) && t.readPtr == s.writer.wrote && t.writer.pc == Idle
      && t.writePtr == Next(|s.cells|, s.writePtr)
  {
    var e := SetStep(v);
    RunSnoc(s, [], e);
    RunSnoc(s, [e], e);
    RunSnoc(s, [e] + [e], e);
    es := [e] + [e] + [e];
  }

  /** Readers `0 .. i-1` have each locked a different cell that is no longer `read_ptr`. */
  ghost predicate Parked(s: State, i: nat) {
    && Shape(s) && i < |s.cells| - 1 && i <= |s.readers|
    && s.writer.pc == Idle && s.readPtr == i && s.writePtr == i + 1
    && (forall c | 0 <= c < |s.cells| :: s.cells[c].counter == if c < i then 1 else 0)
    && (forall r | i <= r < |s.readers| :: s.readers[r].pc == Outside)
  }

  /** Reader `i` locks `read_ptr` and is preempted before its comparison. */
  lemma ParkReader(s: State, i: nat) returns (es: seq<Event>)
    requires Parked(s, i) && i < |s.readers|
    ensures var t := Run(s, es);
      && t.width == s.width && |t.cells| == |s.cells| && |t.readers| == |s.readers|
      && t.readPtr == i && t.writePtr == i + 1 && t.writer.pc == Idle
      && (forall c | 0 <= c < |s.cells| :: t.cells[c].counter == if c <= i then 1 else 0)
      && (forall r | i < r < |s.readers| :: t.readers[r].pc == Outside)
  {
    var e := GetStep(i);
    RunSnoc(s, [], e);
    RunSnoc(s, [e], e);
    RunSnoc(s, [e] + [e], e);
    es := [e] + [e] + [e];
  }

  lemma {:induction false} ParkAll(maxThreads: nat, initial: Value, readers: nat, i: nat) returns (es: seq<Event>)
    requires i <= maxThreads <= readers
    ensures var s := After(maxThreads, initial, readers, es); 
      Parked(s, i) && |s.cells| == maxThreads + 2 && |s.readers| == readers && s.width == |initial|
  {
    var s0 := Init(maxThreads, initial, readers);
    if i == 0 {
      es := [];
    } else {
      es := ParkAll(maxThreads, initial, readers, i - 1);
      var s := Run(s0, es);
      var park := ParkReader(s, i - 1);
      var t := Run(s, park);
      var write := WriteOut(t, initial);
      var u := Run(t, write);
      var publish := ScanTo(u, initial, 0);
      RunConcat(s0, es, park);
      RunConcat(s0, es + park, write);
      RunConcat(s0, es + park + write, publish);
      es := es + park + write + publish;
    }
  }

  /** As many readers as `MAX_THREADS` can lock every cell but the last, and then the scan
      comes round to the cell just written: `Set` next writes into `read_ptr`. */
  lemma TooManyReaders(maxThreads: nat, initial: Value, readers: nat) returns (es: seq<Event>)
    requires maxThreads <= readers
    ensures !Safe(After(maxThreads, initial, readers, es))
  {
    var s0 := Init(maxThreads, initial, readers);
    es := ParkAll(maxThreads, initial, readers, maxThreads);
    var s := Run(s0, es);
    var write := WriteOut(s, initial);
    var t := Run(s, write);
    var publish := ScanTo(t, initial, maxThreads + 1);
    RunConcat(s0, es, write);
    RunConcat(s0, es + write, publish);
    RunSnoc(s0, es + write + publish, SetStep(initial));
    es := es + write + publish + [SetStep(initial)];
  }

  /** The writer never fills a cell that is being read, in any run, exactly when the readers
      and the writer together are no more than `MAX_THREADS`. */
  lemma SafeIffEnoughCells(maxThreads: nat, initial: Value, readers: nat)
    ensures (forall es :: Safe(After(maxThreads, initial, readers, es))) <==> readers + 1 <= maxThreads
  {
    if readers < maxThreads {
      forall es ensures Safe(After(maxThreads, initial, readers, es)) {
        NoTornRead(maxThreads, initial, readers, es);
      }
    } else {
      var es := TooManyReaders(maxThreads, initial, readers);
    }
  }
}
