/** The two containers behind the peers of a component (rtt/TaskContext.cpp): `_task_map`, a
    `std::map` from alias to component, as the sequence of its entries in key order, and `musers`, a
    `std::vector`. */
module PeerMaps {
  import opened Options
  import opened Sequences

  datatype Entry<T> = Entry(alias: string, task: T)

  // ---------------------------------------------------------------- keys

  /** The order of strings. */
  predicate Less(a: string, b: string) {
    b != "" && (a == "" || a[0] < b[0] || (a[0] == b[0] && Less(a[1..], b[1..])))
  }

  lemma {:induction false} LessTransitive(a: string, b: string, c: string)
    requires Less(a, b) && Less(b, c)
    ensures Less(a, c)
    decreases |a|
  {
    if a != "" && a[0] == b[0] && b[0] == c[0] {
      LessTransitive(a[1..], b[1..], c[1..]);
    }
  }

  /** It is the order of `std::string`: the first character that differs decides, and otherwise the length. */
  lemma {:induction false} LessAt(a: string, b: string, k: nat)
    requires k <= |a| && k <= |b| && a[..k] == b[..k]
    requires k < |a| && k < |b| ==> a[k] != b[k]
    ensures Less(a, b) <==> k < |b| && (k == |a| || a[k] < b[k])
    decreases k
  {
    if k > 0 {
      assert a[0] == a[..k][0] && b[0] == b[..k][0];
      assert a[1..][..k - 1] == a[..k][1..] && b[1..][..k - 1] == b[..k][1..];
      LessAt(a[1..], b[1..], k - 1);
    }
  }

  lemma {:induction false} LessTotal(a: string, b: string)
    ensures Less(a, b) || a == b || Less(b, a)
    ensures !(Less(a, b) && Less(b, a)) && !Less(a, a)
    decreases |a|
  {
    if a != "" {
      LessTotal(a[1..], a[1..]);
      if b != "" {
        LessTotal(a[1..], b[1..]);
        assert a == [a[0]] + a[1..] && b == [b[0]] + b[1..];
      }
    }
  }

  // ---------------------------------------------------------------- entries

  predicate Sorted<T>(m: seq<Entry<T>>) {
    forall i, j | 0 <= i < j < |m| :: Less(m[i].alias, m[j].alias)
  }

  function Tasks<T>(m: seq<Entry<T>>): (r: seq<T>)
    ensures |r| == |m| && forall i | 0 <= i < |m| :: r[i] == m[i].task
  {
    seq(|m|, i requires 0 <= i < |m| => m[i].task)
  }

  /** `find(alias)`. */
  function Find<T>(m: seq<Entry<T>>, alias: string): (r: Option<nat>)
    ensures r.Some? ==> r.value < |m| && m[r.value].alias == alias
    ensures r.None? ==> forall i | 0 <= i < |m| :: m[i].alias != alias
  {
    if m == [] then None
    else if m[0].alias == alias then Some(0)
    else
      var r := Find(m[1..], alias);
      if r.Some? then Some(r.value + 1) else None
  }

  /** `m[alias] = task` for a new key. */
  function Insert<T>(m: seq<Entry<T>>, alias: string, task: T): seq<Entry<T>> {
    if m == [] || !Less(m[0].alias, alias) then [Entry(alias, task)] + m
    else [m[0]] + Insert(m[1..], alias, task)
  }

  lemma {:induction false} InsertIs<T>(m: seq<Entry<T>>, alias: string, task: T) returns (i: nat)
    ensures i <= |m| && Insert(m, alias, task) == m[..i] + [Entry(alias, task)] + m[i..]
    ensures forall k | 0 <= k < i :: Less(m[k].alias, alias)
    ensures i < |m| ==> !Less(m[i].alias, alias)
    decreases |m|
  {
    if m == [] || !Less(m[0].alias, alias) {
      i := 0;
      assert m[..0] + [Entry(alias, task)] + m[0..] == [Entry(alias, task)] + m;
    } else {
      i := InsertIs(m[1..], alias, task);
      i := i + 1;
      assert m[..i] + [Entry(alias, task)] + m[i..]
          == [m[0]] + (m[1..][..i - 1] + [Entry(alias, task)] + m[1..][i - 1..]);
    }
  }

  lemma InsertKeepsSorted<T>(m: seq<Entry<T>>, alias: string, task: T)
    requires Sorted(m) && Find(m, alias).None?
    ensures Sorted(Insert(m, alias, task))
  {
    var at := InsertIs(m, alias, task);
    forall j | at <= j < |m| ensures Less(alias, m[j].alias) {
      LessTotal(alias, m[at].alias);
      if at < j {
        LessTransitive(alias, m[at].alias, m[j].alias);
      }
    }
    var r := Insert(m, alias, task);
    forall i, j | 0 <= i < j < |r| ensures Less(r[i].alias, r[j].alias) {
      var k, l := if i < at then i else i - 1, if j < at then j else j - 1;
    }
  }

  lemma {:induction false} InsertCount<T>(m: seq<Entry<T>>, alias: string, task: T, t: T)
    ensures Count(Tasks(Insert(m, alias, task)), t) == Count(Tasks(m), t) + (if task == t then 1 else 0)
    decreases |m|
  {
    var r := Insert(m, alias, task);
    if m == [] || !Less(m[0].alias, alias) {
      assert Tasks(r)[1..] == Tasks(m);
    } else {
      InsertCount(m[1..], alias, task, t);
      assert Tasks(r)[1..] == Tasks(Insert(m[1..], alias, task)) && Tasks(m)[1..] == Tasks(m[1..]);
    }
  }

  function RemoveAt<T>(m: seq<Entry<T>>, i: nat): seq<Entry<T>>
    requires i < |m|
  {
    m[..i] + m[i + 1..]
  }

  /** The entries with other aliases, in order. */
  function OtherAliases<T>(m: seq<Entry<T>>, alias: string): seq<Entry<T>> {
    if m == [] then []
    else (if m[0].alias == alias then [] else [m[0]]) + OtherAliases(m[1..], alias)
  }

  lemma {:induction false} AllAreOthers<T>(m: seq<Entry<T>>, alias: string)
    requires forall i | 0 <= i < |m| :: m[i].alias != alias
    ensures OtherAliases(m, alias) == m
    decreases |m|
  {
    if m != [] {
      AllAreOthers(m[1..], alias);
    }
  }

  lemma {:induction false} OthersAround<T>(a: seq<Entry<T>>, e: Entry<T>, b: seq<Entry<T>>)
    requires forall i | 0 <= i < |a| :: a[i].alias != e.alias
    requires forall i | 0 <= i < |b| :: b[i].alias != e.alias
    ensures OtherAliases(a + [e] + b, e.alias) == a + b
    decreases |a|
  {
    var m := a + [e] + b;
    if a == [] {
      assert m[1..] == b && a + b == b;
      AllAreOthers(b, e.alias);
    } else {
      assert m[1..] == a[1..] + [e] + b;
      OthersAround(a[1..], e, b);
    }
  }

  /** Erasing the entry of an alias. */
  lemma RemoveAtLeavesOthers<T>(m: seq<Entry<T>>, i: nat)
    requires Sorted(m) && i < |m|
    ensures OtherAliases(m, m[i].alias) == RemoveAt(m, i)
  {
    hide Sorted, OtherAliases;
    forall k | 0 <= k < |m| && k != i ensures m[k].alias != m[i].alias {
      DistinctAliases(m, i, k);
    }
    assert m == m[..i] + [m[i]] + m[i + 1..];
    OthersAround(m[..i], m[i], m[i + 1..]);
  }

  lemma DistinctAliases<T>(m: seq<Entry<T>>, i: nat, k: nat)
    requires Sorted(m) && i < |m| && k < |m| && i != k
    ensures m[k].alias != m[i].alias
  {
    LessTotal(m[i].alias, m[i].alias);
  }

  /** Inserting a new alias. */
  lemma InsertLeavesOthers<T>(m: seq<Entry<T>>, alias: string, t: T)
    requires Find(m, alias).None?
    ensures OtherAliases(Insert(m, alias, t), alias) == m
  {
    var i := InsertIs(m, alias, t);
    OthersAround(m[..i], Entry(alias, t), m[i..]);
  }

  lemma RemoveAtCount<T>(m: seq<Entry<T>>, i: nat, t: T)
    requires i < |m|
    ensures Count(Tasks(m), t) == Count(Tasks(RemoveAt(m, i)), t) + (if m[i].task == t then 1 else 0)
  {
    var ts := Tasks(m);
    assert ts == ts[..i] + ([ts[i]] + ts[i + 1..]) && Tasks(RemoveAt(m, i)) == ts[..i] + ts[i + 1..];
    CountJoin(ts[..i], [ts[i]] + ts[i + 1..], t);
    CountJoin([ts[i]], ts[i + 1..], t);
    CountJoin(ts[..i], ts[i + 1..], t);
  }

  /** The entries without the first one of `t`. */
  function RemoveTask<T(==)>(m: seq<Entry<T>>, t: T): seq<Entry<T>> {
    if m == [] then []
    else if m[0].task == t then m[1..]
    else [m[0]] + RemoveTask(m[1..], t)
  }

  lemma {:induction false} RemoveTaskAt<T>(m: seq<Entry<T>>, i: nat)
    requires i < |m| && forall k | 0 <= k < i :: m[k].task != m[i].task
    ensures RemoveTask(m, m[i].task) == RemoveAt(m, i)
    decreases i
  {
    if i > 0 {
      RemoveTaskAt(m[1..], i - 1);
      assert RemoveAt(m, i) == [m[0]] + RemoveAt(m[1..], i - 1);
    }
  }

  lemma {:induction false} RemoveTaskAbsent<T>(m: seq<Entry<T>>, t: T)
    requires forall k | 0 <= k < |m| :: m[k].task != t
    ensures RemoveTask(m, t) == m
    decreases |m|
  {
    if m != [] {
      RemoveTaskAbsent(m[1..], t);
    }
  }

  /** All entries of `t` taken out. */
  function WithoutTask<T(==)>(m: seq<Entry<T>>, t: T): seq<Entry<T>> {
    if m == [] then []
    else if m[0].task == t then WithoutTask(m[1..], t)
    else [m[0]] + WithoutTask(m[1..], t)
  }

  lemma {:induction false} WithoutTaskAfterRemove<T>(m: seq<Entry<T>>, t: T)
    ensures WithoutTask(RemoveTask(m, t), t) == WithoutTask(m, t)
    decreases |m|
  {
    if m != [] && m[0].task != t {
      WithoutTaskAfterRemove(m[1..], t);
      assert RemoveTask(m, t)[1..] == RemoveTask(m[1..], t);
    }
  }

  lemma {:induction false} WithoutTaskAbsent<T>(m: seq<Entry<T>>, t: T)
    requires t !in Tasks(m)
    ensures WithoutTask(m, t) == m
    decreases |m|
  {
    if m != [] {
      assert Tasks(m)[1..] == Tasks(m[1..]);
      WithoutTaskAbsent(m[1..], t);
    }
  }

  /** How many smaller aliases there are for the component of the k-th one. */
  function Smaller<T(==)>(m: seq<Entry<T>>, k: nat): nat
    requires k < |m|
  {
    Count(Tasks(m[..k]), m[k].task)
  }

  /** Removing the first entry of a component removes the k-th alias if no smaller one stands for that
      component, and otherwise leaves it with one smaller alias less. */
  lemma AliasAfterRemove<T>(m: seq<Entry<T>>, k: nat)
    requires Sorted(m) && k < |m|
    ensures var r := RemoveTask(m, m[k].task);
      && Sorted(r)
      && if Smaller(m, k) == 0 then Find(r, m[k].alias).None?
         else 0 < k <= |r| && r[k - 1] == m[k] && Smaller(r, k - 1) == Smaller(m, k) - 1
  {
    var t := m[k].task;
    var i := FirstAlias(m, k);
    RemoveTaskAt(m, i);
    RemoveAtSorted(m, i);
    CountZero(Tasks(m[..k]), t);
    if i == k {
      assert forall j | 0 <= j < k :: Tasks(m[..k])[j] != t;
      AliasIsGone(m, k);
    } else {
      assert Tasks(m[..k])[i] == t;
      assert RemoveAt(m, i)[..k - 1] == RemoveAt(m[..k], i);
      RemoveAtCount(m[..k], i, t);
    }
  }

  /** Whether the k-th alias is still there after removing the first entry of its component ... */
  lemma AliasAfterOne<T>(m: seq<Entry<T>>, k: nat)
    requires Sorted(m) && k < |m|
    ensures Find(RemoveTask(m, m[k].task), m[k].alias).Some? <==> Smaller(m, k) >= 1
  {
    AliasAfterRemove(m, k);
    if Smaller(m, k) > 0 {
      FindIs(RemoveTask(m, m[k].task), k - 1);
    }
  }

  /** ... and after removing the first one left as well. */
  lemma AliasAfterTwo<T>(m: seq<Entry<T>>, k: nat)
    requires Sorted(m) && k < |m|
    ensures var t := m[k].task;
      Find(RemoveTask(RemoveTask(m, t), t), m[k].alias).Some? <==> Smaller(m, k) >= 2
  {
    var once := RemoveTask(m, m[k].task);
    AliasAfterRemove(m, k);
    if Smaller(m, k) == 0 {
      GoneStaysGone(once, m[k].task, m[k].alias);
    } else {
      AliasAfterOne(once, k - 1);
    }
  }

  lemma GoneStaysGone<T>(m: seq<Entry<T>>, t: T, alias: string)
    requires Find(m, alias).None?
    ensures Find(RemoveTask(m, t), alias).None?
  {
    RemoveTaskWithin(m, t);
    var r := RemoveTask(m, t);
    forall i | 0 <= i < |r| ensures r[i].alias != alias {
      assert r[i] in m;
    }
  }

  lemma FindIs<T>(m: seq<Entry<T>>, k: nat)
    requires Sorted(m) && k < |m|
    ensures Find(m, m[k].alias) == Some(k)
  {
    var i := Find(m, m[k].alias);
    LessTotal(m[k].alias, m[k].alias);
  }

  lemma RemoveAtSorted<T>(m: seq<Entry<T>>, i: nat)
    requires Sorted(m) && i < |m|
    ensures Sorted(RemoveAt(m, i))
  {
    var r := RemoveAt(m, i);
    forall j | 0 <= j < |r| ensures r[j] == m[if j < i then j else j + 1] {
    }
  }

  lemma {:induction false} RemoveTaskWithin<T>(m: seq<Entry<T>>, t: T)
    ensures forall e | e in RemoveTask(m, t) :: e in m
    decreases |m|
  {
    if m != [] {
      RemoveTaskWithin(m[1..], t);
    }
  }

  lemma AliasIsGone<T>(m: seq<Entry<T>>, k: nat)
    requires Sorted(m) && k < |m|
    ensures Find(RemoveAt(m, k), m[k].alias).None?
  {
    var r := RemoveAt(m, k);
    forall j | 0 <= j < |r| ensures r[j].alias != m[k].alias {
      assert r[j] == m[if j < k then j else j + 1];
      LessTotal(m[k].alias, m[k].alias);
    }
  }

  lemma FirstAlias<T>(m: seq<Entry<T>>, k: nat) returns (i: nat)
    requires k < |m|
    ensures i <= k && m[i].task == m[k].task && forall j | 0 <= j < i :: m[j].task != m[k].task
  {
    i := 0;
    while m[i].task != m[k].task
      invariant i <= k && forall j | 0 <= j < i :: m[j].task != m[k].task
      decreases k - i
    {
      i := i + 1;
    }
  }

  // ---------------------------------------------------------------- undoing

  lemma {:induction false} RemoveUndoesInsert<T>(m: seq<Entry<T>>, alias: string, t: T)
    requires forall k | 0 <= k < |m| :: m[k].task != t
    ensures RemoveTask(Insert(m, alias, t), t) == m
    decreases |m|
  {
    if m != [] && Less(m[0].alias, alias) {
      RemoveUndoesInsert(m[1..], alias, t);
      assert Insert(m, alias, t)[1..] == Insert(m[1..], alias, t);
    }
  }

  lemma FoundAfterInsert<T>(m: seq<Entry<T>>, alias: string, t: T) returns (i: nat)
    requires Sorted(m) && Find(m, alias).None?
    ensures var r := Insert(m, alias, t); Find(r, alias) == Some(i) && i < |r| && r[i] == Entry(alias, t)
  {
    i := InsertIs(m, alias, t);
    var r := Insert(m, alias, t);
    assert r[i] == Entry(alias, t);
    forall k | 0 <= k < |r| && k != i ensures r[k].alias != alias {
      assert r[k] == m[if k < i then k else k - 1];
    }
  }

  // ---------------------------------------------------------------- filters

  lemma {:induction false} WithoutTaskCount<T>(m: seq<Entry<T>>, t: T, u: T)
    ensures Count(Tasks(WithoutTask(m, t)), u) == if u == t then 0 else Count(Tasks(m), u)
    decreases |m|
  {
    if m != [] {
      WithoutTaskCount(m[1..], t, u);
      assert Tasks(m)[1..] == Tasks(m[1..]);
      if m[0].task != t {
        assert Tasks(WithoutTask(m, t))[1..] == Tasks(WithoutTask(m[1..], t));
      }
    }
  }

  lemma {:induction false} WithoutTaskSorted<T>(m: seq<Entry<T>>, t: T)
    requires Sorted(m)
    ensures Sorted(WithoutTask(m, t)) && forall e | e in WithoutTask(m, t) :: e in m
    decreases |m|
  {
    if m != [] {
      WithoutTaskSorted(m[1..], t);
      var r := WithoutTask(m[1..], t);
      if m[0].task != t {
        forall j | 0 <= j < |r| ensures Less(m[0].alias, r[j].alias) {
          assert r[j] in m[1..];
        }
      }
    }
  }
}
