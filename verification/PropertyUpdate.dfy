/** `updateProperties` of rtt/PropertyBag.cpp: every value of the source
    goes to the property of the same name, the k-th of a name to the k-th of that name. */
module PropertyUpdate {
  import opened Options
  import opened PropertyNames
  import opened PropertyTree
  import opened Sequences

  // ---------------------------------------------------------------- what an update promises

  /** The types agree wherever source and target have a k-th property of the same name. */
  ghost predicate Compatible(target: seq<Prop>, source: seq<Prop>)
    decreases source
  {
    forall n, k | 0 <= k < |Positions(source, n)| && k < |Positions(target, n)| ::
      CompatibleProp(target[Positions(target, n)[k]], source[Positions(source, n)[k]])
  }

  ghost predicate CompatibleProp(p: Prop, q: Prop)
    decreases q
  {
    match q
    case Leaf(_, _, tag, _) => p.Leaf? && p.tag == tag
    case Bag(_, _, props) => p.Bag? && Compatible(p.props, props)
  }

  /** The bag already has all the values of the source. */
  ghost predicate Absorbs(target: seq<Prop>, source: seq<Prop>)
    decreases source
  {
    forall n, k | 0 <= k < |Positions(source, n)| ::
      k < |Positions(target, n)| && AbsorbsProp(target[Positions(target, n)[k]], source[Positions(source, n)[k]])
  }

  ghost predicate AbsorbsProp(p: Prop, q: Prop)
    decreases q
  {
    match q
    case Leaf(_, _, tag, value) => p.Leaf? && p.tag == tag && p.value == value
    case Bag(_, _, props) => p.Bag? && Absorbs(p.props, props)
  }

  /** `p` became `r` by taking the value of `q`: it is the same property, and if it is a bag its
      contents were updated in the same way. */
  ghost predicate UpdatedProp(p: Prop, q: Prop, r: Prop)
    decreases q, 1
  {
    match q
    case Leaf(_, _, tag, value) => p.Leaf? && p.tag == tag && r == p.(value := value)
    case Bag(_, _, props) => p.Bag? && r.Bag? && r == p.(props := r.props)
                             && Completed(p.props, props, r.props)
  }

  /** `r` is a new property with the value of `q`. */
  ghost predicate Copied(q: Prop, r: Prop)
    decreases q, 1
  {
    match q
    case Leaf(_, name, tag, value) => r.Leaf? && r.name == name && r.tag == tag && r.value == value
    case Bag(_, name, props) => r.Bag? && r.name == name && Completed([], props, r.props)
  }

  /** All places in the bag. */
  ghost function AllOf(bag: seq<Prop>): (r: set<nat>)
    ensures forall i: nat :: i in r <==> i < |bag|
  {
    if bag == [] then {} else AllOf(bag[..|bag| - 1]) + {|bag| - 1}
  }

  /** The k-th property called `n` in the updated bag: it has the k-th value of that name or it is
      a copy of it, if that one was `done`, and is untouched otherwise. */
  ghost predicate UpdatedAt(target: seq<Prop>, source: seq<Prop>, r: seq<Prop>, done: set<nat>, n: string, k: nat)
    requires k < |Positions(r, n)|
    decreases source, 0
  {
    var j := Positions(r, n)[k];
    if k < |Positions(source, n)| && Positions(source, n)[k] in done then
      var q := source[Positions(source, n)[k]];
      if j < |target| then UpdatedProp(target[j], q, r[j]) else Copied(q, r[j])
    else j < |target| && r[j] == target[j]
  }

  /** Every `done` property of the source has a counterpart. */
  ghost predicate Covers(source: seq<Prop>, r: seq<Prop>, done: set<nat>) {
    forall n, k | 0 <= k < |Positions(source, n)| && Positions(source, n)[k] in done :: k < |Positions(r, n)|
  }

  /** `target` became `r` by the update with the `done` ones of the source: the k-th property of a
      name took the value of the k-th one in the source, or was added if there was none; whatever
      has no such counterpart is untouched. */
  ghost predicate Updated(target: seq<Prop>, source: seq<Prop>, r: seq<Prop>, done: set<nat>)
    decreases source, 1
  {
    && Extends(r, target)
    && (forall n, k | 0 <= k < |Positions(r, n)| :: UpdatedAt(target, source, r, done, n, k))
    && Covers(source, r, done)
  }

  /** How many properties called `n` the source has more than the target. */
  function Excess(k: nat, n: nat): nat {
    if k > n then k - n else 0
  }

  /** The names of the properties that are added for `names`. */
  function AddedFor(target: seq<Prop>, source: seq<Prop>, names: seq<string>): seq<string>
    decreases |names|
  {
    if names == [] then []
    else
      var last := |names| - 1;
      AddedFor(target, source, names[..last])
      + Repeat(names[last], Excess(|Positions(source, names[last])|, |Positions(target, names[last])|))
  }

  /** The whole update: all of the source is done, and the properties added stand at the end, grouped
      by name in the order in which the names first occur in the source. */
  ghost predicate Completed(target: seq<Prop>, source: seq<Prop>, r: seq<Prop>)
    decreases source, 2
  {
    && Updated(target, source, r, AllOf(source))
    && Names(r) == Names(target) + AddedFor(target, source, Firsts(Names(source)))
  }

  /** An update that is complete leaves the bag with all the values of the source. */
  lemma {:induction false} UpdatedAbsorbs(target: seq<Prop>, source: seq<Prop>, r: seq<Prop>)
    requires Updated(target, source, r, AllOf(source))
    ensures Absorbs(r, source)
    decreases source, 0
  {
    forall n, k | 0 <= k < |Positions(source, n)|
      ensures k < |Positions(r, n)| && AbsorbsProp(r[Positions(r, n)[k]], source[Positions(source, n)[k]])
    {
      var i, j := Positions(source, n)[k], Positions(r, n)[k];
      assert i in AllOf(source);
      assert UpdatedAt(target, source, r, AllOf(source), n, k);
      if j < |target| {
        UpdatedPropAbsorbs(target[j], source[i], r[j]);
      } else {
        CopiedAbsorbs(source[i], r[j]);
      }
    }
  }

  lemma {:induction false} UpdatedPropAbsorbs(p: Prop, q: Prop, r: Prop)
    requires UpdatedProp(p, q, r)
    ensures AbsorbsProp(r, q)
    decreases q, 1
  {
    if q.Bag? {
      UpdatedAbsorbs(p.props, q.props, r.props);
    }
  }

  lemma {:induction false} CopiedAbsorbs(q: Prop, r: Prop)
    requires Copied(q, r)
    ensures AbsorbsProp(r, q)
    decreases q, 1
  {
    if q.Bag? {
      UpdatedAbsorbs([], q.props, r.props);
    }
  }

  /** An update succeeds only where the types agree. */
  lemma {:induction false} UpdatedCompatible(target: seq<Prop>, source: seq<Prop>, r: seq<Prop>)
    requires Updated(target, source, r, AllOf(source))
    ensures Compatible(target, source)
    decreases source, 0
  {
    forall n, k | 0 <= k < |Positions(source, n)| && k < |Positions(target, n)|
      ensures CompatibleProp(target[Positions(target, n)[k]], source[Positions(source, n)[k]])
    {
      var i := Positions(source, n)[k];
      assert i in AllOf(source);
      assert k < |Positions(r, n)|;
      PositionsExtend(target, r, n, k);
      var j := Positions(r, n)[k];
      assert UpdatedAt(target, source, r, AllOf(source), n, k);
      UpdatedPropCompatible(target[j], source[i], r[j]);
    }
  }

  lemma {:induction false} UpdatedPropCompatible(p: Prop, q: Prop, r: Prop)
    requires UpdatedProp(p, q, r)
    ensures CompatibleProp(p, q)
    decreases q, 1
  {
    if q.Bag? {
      UpdatedCompatible(p.props, q.props, r.props);
    }
  }

  // ---------------------------------------------------------------- one step

  /** Giving the k-th property of a name the k-th value, for the first time or again. */
  lemma UpdateStep(target: seq<Prop>, source: seq<Prop>, r: seq<Prop>, done: set<nat>, n: string, k: nat, x: Prop)
    requires Updated(target, source, r, done)
    requires k < |Positions(source, n)| && k < |Positions(r, n)|
    requires var i, j := Positions(source, n)[k], Positions(r, n)[k];
      x.name == n && if i in done then x == r[j] else j < |target| && UpdatedProp(target[j], source[i], x)
    ensures Updated(target, source, r[Positions(r, n)[k] := x], done + {Positions(source, n)[k]})
  {
    var i, j := Positions(source, n)[k], Positions(r, n)[k];
    var r', done' := r[j := x], done + {i};
    assert r[j].name == n;
    assert Extends(r', target);
    forall m, l | 0 <= l < |Positions(r', m)| ensures UpdatedAt(target, source, r', done', m, l) {
      PositionsSameNames(r', r, m);
      assert UpdatedAt(target, source, r, done, m, l);
      UpdateStepAt(target, source, r, done, n, k, x, m, l);
    }
    forall m, l | 0 <= l < |Positions(source, m)| && Positions(source, m)[l] in done' ensures l < |Positions(r', m)| {
      PositionsSameNames(r', r, m);
      if Positions(source, m)[l] == i {
        PositionsDisjoint(source, m, l, n, k);
      } else {
        assert Positions(source, m)[l] in done && Covers(source, r, done);
      }
    }
    assert Updated(target, source, r', done');
  }

  lemma UpdateStepAt(target: seq<Prop>, source: seq<Prop>, r: seq<Prop>, done: set<nat>, n: string, k: nat, x: Prop,
                     m: string, l: nat)
    requires k < |Positions(source, n)| && k < |Positions(r, n)|
    requires var i, j := Positions(source, n)[k], Positions(r, n)[k];
      x.name == n && if i in done then x == r[j] else j < |target| && UpdatedProp(target[j], source[i], x)
    requires l < |Positions(r, m)| && UpdatedAt(target, source, r, done, m, l)
    requires Positions(r[Positions(r, n)[k] := x], m) == Positions(r, m)
    ensures UpdatedAt(target, source, r[Positions(r, n)[k] := x], done + {Positions(source, n)[k]}, m, l)
  {
    if m == n && l == k {
    } else {
      if Positions(r, m)[l] == Positions(r, n)[k] {
        PositionsDisjoint(r, m, l, n, k);
      }
      if l < |Positions(source, m)| && Positions(source, m)[l] == Positions(source, n)[k] {
        PositionsDisjoint(source, m, l, n, k);
      }
    }
  }

  /** Adding a copy where there is no k-th property of the name. */
  lemma AppendStep(target: seq<Prop>, source: seq<Prop>, r: seq<Prop>, done: set<nat>, n: string, k: nat, x: Prop)
    requires Updated(target, source, r, done)
    requires k < |Positions(source, n)| && k == |Positions(r, n)|
    requires x.name == n && Copied(source[Positions(source, n)[k]], x)
    ensures Updated(target, source, r + [x], done + {Positions(source, n)[k]})
    ensures Positions(r + [x], n) == Positions(r, n) + [|r|]
  {
    var i := Positions(source, n)[k];
    var r', done' := r + [x], done + {i};
    PositionsSnoc(r, x, n);
    forall m, l | 0 <= l < |Positions(r', m)| ensures UpdatedAt(target, source, r', done', m, l) {
      PositionsSnoc(r, x, m);
      if l < |Positions(r, m)| {
        assert UpdatedAt(target, source, r, done, m, l);
      }
      AppendStepAt(target, source, r, done, n, k, x, m, l);
    }
    forall m, l | 0 <= l < |Positions(source, m)| && Positions(source, m)[l] in done' ensures l < |Positions(r', m)| {
      PositionsSnoc(r, x, m);
      if Positions(source, m)[l] == i {
        PositionsDisjoint(source, m, l, n, k);
      }
    }
  }

  lemma AppendStepAt(target: seq<Prop>, source: seq<Prop>, r: seq<Prop>, done: set<nat>, n: string, k: nat, x: Prop,
                     m: string, l: nat)
    requires |target| <= |r| && k < |Positions(source, n)| && k == |Positions(r, n)|
    requires Copied(source[Positions(source, n)[k]], x)
    requires Positions(r + [x], m) == Positions(r, m) + (if n == m then [|r|] else [])
    requires l < |Positions(r + [x], m)|
    requires l < |Positions(r, m)| ==> UpdatedAt(target, source, r, done, m, l)
    ensures UpdatedAt(target, source, r + [x], done + {Positions(source, n)[k]}, m, l)
  {
    if l < |Positions(r, m)| && l < |Positions(source, m)| && Positions(source, m)[l] == Positions(source, n)[k] {
      PositionsDisjoint(source, m, l, n, k);
    }
  }

  // ---------------------------------------------------------------- how far an update got

  /** The names in the order of the outer loop. */
  function AllNames(source: seq<Prop>): seq<string> {
    Unique(Names(source))
  }

  /** A place of the two loops: the k-th property of the name at `it`. */
  predicate AtPlace(source: seq<Prop>, it: nat, k: nat) {
    it <= |AllNames(source)| && (k > 0 ==> it < |AllNames(source)| && k <= |Positions(source, AllNames(source)[it])|)
  }

  /** What comes before that place. */
  ghost function DoneUpTo(source: seq<Prop>, it: nat, k: nat): set<nat>
    requires AtPlace(source, it, k)
    decreases it, k
  {
    if k > 0 then DoneUpTo(source, it, k - 1) + {Positions(source, AllNames(source)[it])[k - 1]}
    else if it > 0 then DoneUpTo(source, it - 1, |Positions(source, AllNames(source)[it - 1])|)
    else {}
  }

  function AddedUpTo(target: seq<Prop>, source: seq<Prop>, it: nat, k: nat): seq<string>
    requires it <= |AllNames(source)|
  {
    var names := AllNames(source);
    AddedFor(target, source, Firsts(names[..it]))
    + (if it < |names| && names[it] !in names[..it]
       then Repeat(names[it], Excess(k, |Positions(target, names[it])|)) else [])
  }

  ghost predicate Progress(target: seq<Prop>, source: seq<Prop>, it: nat, k: nat, r: seq<Prop>)
    requires AtPlace(source, it, k)
    decreases source, 2
  {
    && Updated(target, source, r, DoneUpTo(source, it, k))
    && Names(r) == Names(target) + AddedUpTo(target, source, it, k)
  }

  /** The update stopped: at some place the types disagree, everything before it is done, and nothing
      after it is. */
  ghost predicate Failed(target: seq<Prop>, source: seq<Prop>, r: seq<Prop>)
    decreases source, 4
  {
    exists it: nat, k: nat, bag :: FailedAt(target, source, r, it, k, bag)
  }

  ghost predicate FailedAt(target: seq<Prop>, source: seq<Prop>, r: seq<Prop>, it: nat, k: nat, bag: seq<Prop>)
    decreases source, 3
  {
    && it < |AllNames(source)| && AtPlace(source, it, k)
    && var n := AllNames(source)[it];
      && k < |Positions(source, n)| && k < |Positions(bag, n)|
      && Progress(target, source, it, k, bag)
      && var i, j := Positions(source, n)[k], Positions(bag, n)[k];
        && j < |target| && bag[j] == target[j] && !CompatibleProp(target[j], source[i])
        && |r| == |bag| && r == bag[j := r[j]] && FailedProp(target[j], source[i], r[j])
  }

  /** Where the types disagree a property is left alone, unless both are bags. */
  ghost predicate FailedProp(p: Prop, q: Prop, r: Prop)
    decreases q, 1
  {
    match q
    case Leaf(_, _, _, _) => r == p
    case Bag(_, _, props) =>
      if p.Bag? then r.Bag? && r == p.(props := r.props) && Failed(p.props, props, r.props) else r == p
  }

  /** In particular the l-th property of the name at m, if that place comes before. */
  lemma {:induction false} DoneBefore(source: seq<Prop>, it: nat, k: nat, m: nat, l: nat)
    requires AtPlace(source, it, k) && AtPlace(source, m, l + 1) && (m < it || (m == it && l < k))
    ensures Positions(source, AllNames(source)[m])[l] in DoneUpTo(source, it, k)
    decreases it, k
  {
    if k == 0 {
      DoneBefore(source, it - 1, |Positions(source, AllNames(source)[it - 1])|, m, l);
    } else if m < it || l < k - 1 {
      DoneBefore(source, it, k - 1, m, l);
    }
  }

  lemma {:induction false} DoneWithin(source: seq<Prop>, it: nat, k: nat)
    requires AtPlace(source, it, k)
    ensures DoneUpTo(source, it, k) <= AllOf(source)
    decreases it, k
  {
    if k > 0 {
      DoneWithin(source, it, k - 1);
    } else if it > 0 {
      DoneWithin(source, it - 1, |Positions(source, AllNames(source)[it - 1])|);
    }
  }

  lemma DoneAll(source: seq<Prop>)
    ensures DoneUpTo(source, |AllNames(source)|, 0) == AllOf(source)
  {
    var names := AllNames(source);
    DoneWithin(source, |names|, 0);
    forall i: nat | i < |source| ensures i in DoneUpTo(source, |names|, 0) {
      assert Names(source)[i] == source[i].name && source[i].name in names;
      var m :| 0 <= m < |names| && names[m] == source[i].name;
      var l := PositionsComplete(source, i);
      DoneBefore(source, |names|, 0, m, l);
    }
  }

  lemma AddedName(target: seq<Prop>, source: seq<Prop>, it: nat)
    requires it < |AllNames(source)|
    ensures AddedUpTo(target, source, it, |Positions(source, AllNames(source)[it])|)
         == AddedUpTo(target, source, it + 1, 0)
  {
    var names := AllNames(source);
    assert names[..it + 1] == names[..it] + [names[it]];
    FirstsSnoc(names[..it], names[it]);
    var firsts := Firsts(names[..it]);
    if names[it] !in names[..it] {
      assert (firsts + [names[it]])[..|firsts|] == firsts;
    } else {
      assert firsts + [] == firsts;
    }
  }

  lemma AddedAll(target: seq<Prop>, source: seq<Prop>)
    ensures AddedUpTo(target, source, |AllNames(source)|, 0) == AddedFor(target, source, Firsts(Names(source)))
  {
    var names := AllNames(source);
    assert names[..|names|] == names;
    FirstsOfUnique(Names(source));
  }

  lemma {:induction false} AddedOthers(target: seq<Prop>, source: seq<Prop>, names: seq<string>, n: string)
    requires n !in names
    ensures Count(AddedFor(target, source, names), n) == 0
    decreases |names|
  {
    if names != [] {
      var last := |names| - 1;
      AddedOthers(target, source, names[..last], n);
      var more := Repeat(names[last], Excess(|Positions(source, names[last])|, |Positions(target, names[last])|));
      RepeatCount(names[last], |more|, n);
      CountJoin(AddedFor(target, source, names[..last]), more, n);
    }
  }

  /** How many properties there are of the name at `it`, when its turn comes. */
  lemma CountAtTurn(target: seq<Prop>, source: seq<Prop>, it: nat, r: seq<Prop>)
    requires it < |AllNames(source)| && AtPlace(source, it, 0) && Progress(target, source, it, 0, r)
    ensures CountOk(target, source, it, 0, r)
  {
    var names := AllNames(source);
    var n, all := names[it], |Positions(source, names[it])|;
    if n in names[..it] {
      if all > 0 {
        var m :| 0 <= m < it && names[m] == n;
        DoneBefore(source, it, 0, m, all - 1);
        assert Positions(source, n)[all - 1] in DoneUpTo(source, it, 0) && Covers(source, r, DoneUpTo(source, it, 0));
      }
    } else {
      var firsts := Firsts(names[..it]);
      FirstsWithin(names[..it], n);
      AddedOthers(target, source, firsts, n);
      assert AddedUpTo(target, source, it, 0) == AddedFor(target, source, firsts);
      CountJoin(Names(target), AddedFor(target, source, firsts), n);
      PositionsCount(r, n);
      PositionsCount(target, n);
    }
  }

  /** How many there are in between: those of the target, and the ones added. */
  ghost predicate CountOk(target: seq<Prop>, source: seq<Prop>, it: nat, k: nat, r: seq<Prop>)
    requires it < |AllNames(source)|
  {
    var names := AllNames(source); var n := names[it];
    if n in names[..it] then |Positions(source, n)| <= |Positions(r, n)|
    else |Positions(r, n)| == |Positions(target, n)| + Excess(k, |Positions(target, n)|)
  }

  lemma ProgressUpdate(target: seq<Prop>, source: seq<Prop>, it: nat, k: nat, r: seq<Prop>, x: Prop)
    requires it < |AllNames(source)| && AtPlace(source, it, k)
    requires Progress(target, source, it, k, r) && CountOk(target, source, it, k, r)
    requires var n := AllNames(source)[it]; k < |Positions(source, n)| && k < |Positions(r, n)|
    requires var n := AllNames(source)[it]; var i, j := Positions(source, n)[k], Positions(r, n)[k];
      x.name == n
      && if i in DoneUpTo(source, it, k) then x == r[j] else j < |target| && UpdatedProp(target[j], source[i], x)
    ensures AtPlace(source, it, k + 1)
    ensures var n := AllNames(source)[it]; var t := r[Positions(r, n)[k] := x];
      && Progress(target, source, it, k + 1, t) && CountOk(target, source, it, k + 1, t)
      && Positions(t, n) == Positions(r, n)
  {
    var n := AllNames(source)[it];
    var j := Positions(r, n)[k];
    UpdateStep(target, source, r, DoneUpTo(source, it, k), n, k, x);
    PositionsSameNames(r[j := x], r, n);
    AddedSame(target, source, it, k);
    SameNames(r, j, x);
  }

  lemma SameNames(r: seq<Prop>, j: nat, x: Prop)
    requires j < |r| && r[j].name == x.name
    ensures Names(r[j := x]) == Names(r)
  {
  }

  lemma AddedSame(target: seq<Prop>, source: seq<Prop>, it: nat, k: nat)
    requires it < |AllNames(source)|
    requires var names := AllNames(source); names[it] in names[..it] || k < |Positions(target, names[it])|
    ensures AddedUpTo(target, source, it, k + 1) == AddedUpTo(target, source, it, k)
  {
  }

  lemma ProgressAppend(target: seq<Prop>, source: seq<Prop>, it: nat, k: nat, r: seq<Prop>, x: Prop)
    requires it < |AllNames(source)| && AtPlace(source, it, k)
    requires Progress(target, source, it, k, r) && CountOk(target, source, it, k, r)
    requires var n := AllNames(source)[it];
      && k < |Positions(source, n)| && k == |Positions(r, n)|
      && x.name == n && Copied(source[Positions(source, n)[k]], x)
    ensures AtPlace(source, it, k + 1)
    ensures var n := AllNames(source)[it]; var t := r + [x];
      && Progress(target, source, it, k + 1, t) && CountOk(target, source, it, k + 1, t)
      && Positions(t, n) == Positions(r, n) + [|r|]
  {
    var n := AllNames(source)[it];
    AppendStep(target, source, r, DoneUpTo(source, it, k), n, k, x);
    AddedOneMore(target, source, it, k);
    assert Names(r + [x]) == Names(r) + [n];
  }

  lemma AddedOneMore(target: seq<Prop>, source: seq<Prop>, it: nat, k: nat)
    requires it < |AllNames(source)|
    requires var names := AllNames(source); names[it] !in names[..it] && k >= |Positions(target, names[it])|
    ensures AddedUpTo(target, source, it, k + 1) == AddedUpTo(target, source, it, k) + [AllNames(source)[it]]
  {
    var n := AllNames(source)[it];
    var had := |Positions(target, n)|;
    assert Repeat(n, Excess(k + 1, had)) == Repeat(n, Excess(k, had)) + [n];
  }

  lemma ProgressName(target: seq<Prop>, source: seq<Prop>, it: nat, r: seq<Prop>)
    requires it < |AllNames(source)|
    requires AtPlace(source, it, |Positions(source, AllNames(source)[it])|)
    requires Progress(target, source, it, |Positions(source, AllNames(source)[it])|, r)
    ensures AtPlace(source, it + 1, 0) && Progress(target, source, it + 1, 0, r)
  {
    AddedName(target, source, it);
  }

  lemma ProgressStart(target: seq<Prop>, source: seq<Prop>)
    ensures AtPlace(source, 0, 0) && Progress(target, source, 0, 0, target)
  {
    assert AddedUpTo(target, source, 0, 0) == [];
    assert Names(target) + [] == Names(target);
    forall n, k | 0 <= k < |Positions(target, n)| ensures UpdatedAt(target, source, target, {}, n, k) {
    }
    assert Updated(target, source, target, {});
  }

  lemma ProgressEnd(target: seq<Prop>, source: seq<Prop>, r: seq<Prop>)
    requires AtPlace(source, |AllNames(source)|, 0) && Progress(target, source, |AllNames(source)|, 0, r)
    ensures Completed(target, source, r)
  {
    DoneAll(source);
    AddedAll(target, source);
  }

  /** What the update of the k-th property of a name comes to: one that is done already stays. */
  lemma StepOutcome(target: seq<Prop>, source: seq<Prop>, r: seq<Prop>, done: set<nat>, n: string, k: nat,
                    ok: bool, x: Prop)
    requires Updated(target, source, r, done)
    requires k < |Positions(source, n)| && k < |Positions(r, n)|
    requires var p, q := r[Positions(r, n)[k]], source[Positions(source, n)[k]];
      (ok <==> CompatibleProp(p, q)) && (ok ==> UpdatedProp(p, q, x))
    ensures var i, j := Positions(source, n)[k], Positions(r, n)[k];
      && (ok ==> x.name == n && if i in done then x == r[j] else j < |target| && UpdatedProp(target[j], source[i], x))
      && (!ok ==> i !in done && j < |target| && r[j] == target[j])
  {
    var i, j := Positions(source, n)[k], Positions(r, n)[k];
    PositionsExtend(target, r, n, k);
    assert UpdatedAt(target, source, r, done, n, k);
    if i in done {
      if j < |target| {
        UpdatedPropAbsorbs(target[j], source[i], r[j]);
      } else {
        CopiedAbsorbs(source[i], r[j]);
      }
      AbsorbedPropStays(r[j], source[i], if ok then x else r[j]);
    }
  }

  /** A property that has the value already is compatible with it, and is not changed by it. */
  lemma {:induction false} AbsorbedPropStays(p: Prop, q: Prop, r: Prop)
    requires AbsorbsProp(p, q)
    ensures CompatibleProp(p, q) && (UpdatedProp(p, q, r) ==> r == p)
    decreases q, 1
  {
    if q.Bag? {
      AbsorbedStays(p.props, q.props, if r.Bag? then r.props else []);
    }
  }

  lemma {:induction false} AbsorbedStays(target: seq<Prop>, source: seq<Prop>, r: seq<Prop>)
    requires Absorbs(target, source)
    ensures Compatible(target, source) && (Completed(target, source, r) ==> r == target)
    decreases source, 0
  {
    forall n, k | 0 <= k < |Positions(source, n)| && k < |Positions(target, n)|
      ensures CompatibleProp(target[Positions(target, n)[k]], source[Positions(source, n)[k]])
    {
      var p, q := target[Positions(target, n)[k]], source[Positions(source, n)[k]];
      AbsorbedPropStays(p, q, p);
    }
    if Completed(target, source, r) {
      forall n ensures |Positions(source, n)| <= |Positions(target, n)| {
        var all := |Positions(source, n)|;
        if all > 0 {
          assert Positions(source, n)[all - 1] < |source|;
          assert all - 1 < |Positions(target, n)|;
        }
      }
      NothingAdded(target, source, Firsts(Names(source)));
      assert |Names(r)| == |Names(target)|;
      forall j | 0 <= j < |target| ensures r[j] == target[j] {
        AbsorbedAt(target, source, r, j);
      }
    }
  }

  lemma AbsorbedAt(target: seq<Prop>, source: seq<Prop>, r: seq<Prop>, j: nat)
    requires Absorbs(target, source) && Updated(target, source, r, AllOf(source)) && |r| == |target| && j < |target|
    ensures r[j] == target[j]
    decreases source, 0, 0
  {
    var k := PositionsComplete(r, j);
    var n := r[j].name;
    PositionsSameNames(target, r, n);
    assert UpdatedAt(target, source, r, AllOf(source), n, k);
    if k < |Positions(source, n)| {
      assert Positions(source, n)[k] in AllOf(source);
      assert AbsorbsProp(target[Positions(target, n)[k]], source[Positions(source, n)[k]]);
      AbsorbedPropStays(target[j], source[Positions(source, n)[k]], r[j]);
    }
  }

  lemma {:induction false} NothingAdded(target: seq<Prop>, source: seq<Prop>, names: seq<string>)
    requires forall n :: |Positions(source, n)| <= |Positions(target, n)|
    ensures AddedFor(target, source, names) == []
    decreases |names|
  {
    if names != [] {
      NothingAdded(target, source, names[..|names| - 1]);
    }
  }

  /** A failed update shows that the types disagree, and one that went through that they agree. */
  lemma Outcome(target: seq<Prop>, source: seq<Prop>, ok: bool, r: seq<Prop>)
    requires if ok then Completed(target, source, r) else Failed(target, source, r)
    ensures ok <==> Compatible(target, source)
    ensures Absorbs(target, source) ==> ok && r == target
  {
    if ok {
      UpdatedCompatible(target, source, r);
    } else {
      var it: nat, k: nat, bag :| FailedAt(target, source, r, it, k, bag);
      PositionsExtend(target, bag, AllNames(source)[it], k);
    }
    if Absorbs(target, source) {
      AbsorbedStays(target, source, r);
    }
  }

  lemma CompatibleWithNothing(source: seq<Prop>)
    ensures Compatible([], source)
  {
  }

  lemma UpdateOutcome(target: seq<Prop>, source: seq<Prop>, it: nat, k: nat, bag: seq<Prop>, ok: bool, x: Prop,
                      next: nat, next': nat)
    requires it < |AllNames(source)| && AtPlace(source, it, k)
    requires Progress(target, source, it, k, bag) && CountOk(target, source, it, k, bag)
    requires var n := AllNames(source)[it]; k < |Positions(source, n)| && k < |Positions(bag, n)|
    requires var n := AllNames(source)[it]; var p, q := bag[Positions(bag, n)[k]], source[Positions(source, n)[k]];
      && (ok <==> CompatibleProp(p, q)) && (if ok then UpdatedProp(p, q, x) else FailedProp(p, q, x))
      && next <= next' && IdsOf(x) == IdsOf(p) + Range(next, next')
    ensures var n := AllNames(source)[it]; var r := bag[Positions(bag, n)[k] := x];
      && (ok ==> AtPlace(source, it, k + 1) && Progress(target, source, it, k + 1, r)
                 && CountOk(target, source, it, k + 1, r) && Positions(r, n) == Positions(bag, n))
      && (!ok ==> Failed(target, source, r))
      && NewIds(bag, r, next, next')
  {
    var n := AllNames(source)[it];
    var j := Positions(bag, n)[k];
    IdsReplace(bag, j, x, Range(next, next'));
    StepOutcome(target, source, bag, DoneUpTo(source, it, k), n, k, ok, x);
    if ok {
      ProgressUpdate(target, source, it, k, bag, x);
    } else {
      assert FailedAt(target, source, bag[j := x], it, k, bag);
    }
  }

  lemma CloneOutcome(target: seq<Prop>, source: seq<Prop>, it: nat, k: nat, bag: seq<Prop>, x: Prop,
                     next: nat, next': nat)
    requires it < |AllNames(source)| && AtPlace(source, it, k)
    requires Progress(target, source, it, k, bag) && CountOk(target, source, it, k, bag)
    requires var n := AllNames(source)[it];
      && k < |Positions(source, n)| && k == |Positions(bag, n)|
      && x.name == n && Copied(source[Positions(source, n)[k]], x)
      && next <= next' && IdsOf(x) == Range(next, next')
    ensures var n := AllNames(source)[it]; var r := bag + [x];
      && AtPlace(source, it, k + 1) && Progress(target, source, it, k + 1, r) && CountOk(target, source, it, k + 1, r)
      && Positions(r, n) == Positions(bag, n) + [|bag|]
      && NewIds(bag, r, next, next')
  {
    IdsAppend(bag, x);
    ProgressAppend(target, source, it, k, bag, x);
  }

  // ---------------------------------------------------------------- the code

  /** `updateProperties`; `next` is the first address free for new properties, and each new one gets
      an address of its own. */
  method UpdateProperties(target: seq<Prop>, source: seq<Prop>, next: nat) returns (ok: bool, r: seq<Prop>, next': nat)
    ensures ok <==> Compatible(target, source)
    ensures if ok then Completed(target, source, r) else Failed(target, source, r)
    ensures NewIds(target, r, next, next')
    ensures Absorbs(target, source) ==> ok && r == target
    decreases source, 3
  {
    ok, r, next' := UpdateNames(target, source, next);
    Outcome(target, source, ok, r);
  }

  /** The outer loop of `updateProperties`. */
  method UpdateNames(target: seq<Prop>, source: seq<Prop>, next: nat) returns (ok: bool, r: seq<Prop>, next': nat)
    ensures if ok then Completed(target, source, r) else Failed(target, source, r)
    ensures NewIds(target, r, next, next')
    decreases source, 2
  {
    hide *;
    var allnames := AllNames(source);
    ok, r, next' := true, target, next;
    ProgressStart(target, source);
    NoNewIds(target, next);
    var it := 0;
    while it != |allnames| && ok
      invariant it <= |allnames|
      invariant if ok then AtPlace(source, it, 0) && Progress(target, source, it, 0, r) else Failed(target, source, r)
      invariant NewIds(target, r, next, next')
      decreases |allnames| - it, ok
    {
      ghost var r0, next0 := r, next';
      ok, r, next' := UpdateNamed(target, source, r, it, allnames[it], next');
      NewIdsJoin(target, r0, r, next, next0, next');
      if ok {
        it := it + 1;
      }
    }
    if ok {
      ProgressEnd(target, source, r);
    }
  }

  /** One pass of the outer loop: the properties called `n`. */
  method UpdateNamed(ghost target: seq<Prop>, source: seq<Prop>, bag: seq<Prop>, ghost it: nat, n: string,
                     next: nat)
    returns (ok: bool, r: seq<Prop>, next': nat)
    requires it < |AllNames(source)| && n == AllNames(source)[it]
    requires AtPlace(source, it, 0) && Progress(target, source, it, 0, bag)
    ensures if ok then AtPlace(source, it + 1, 0) && Progress(target, source, it + 1, 0, r)
            else Failed(target, source, r)
    ensures NewIds(bag, r, next, next')
    decreases source, 1
  {
    hide *;
    var sources, mines := Positions(source, n), Positions(bag, n);
    CountAtTurn(target, source, it, bag);
    ok, r, next' := true, bag, next;
    NoNewIds(bag, next);
    var sit := 0;
    while sit != |sources| && ok
      invariant sit <= |sources|
      invariant if ok then
                  && AtPlace(source, it, sit) && Progress(target, source, it, sit, r)
                  && CountOk(target, source, it, sit, r)
                else Failed(target, source, r)
      invariant ok ==> mines <= Positions(r, n) && |Positions(r, n)| == if sit <= |mines| then |mines| else sit
      invariant NewIds(bag, r, next, next')
      decreases |sources| - sit, ok
    {
      ghost var r0, next0 := r, next';
      var mine := if sit < |mines| then Some(mines[sit]) else None;
      ok, r, next' := UpdateNext(target, source, r, it, n, sit, mine, next');
      NewIdsJoin(bag, r0, r, next, next0, next');
      if ok {
        sit := sit + 1;
      }
    }
    if ok {
      ProgressName(target, source, it, r);
    }
  }

  /** One pass of the inner loop: the k-th property called `n`, with `mine` its counterpart. */
  method UpdateNext(ghost target: seq<Prop>, source: seq<Prop>, bag: seq<Prop>, ghost it: nat, n: string, k: nat,
                    mine: Option<nat>, next: nat)
    returns (ok: bool, r: seq<Prop>, next': nat)
    requires it < |AllNames(source)| && n == AllNames(source)[it]
    requires AtPlace(source, it, k) && Progress(target, source, it, k, bag) && CountOk(target, source, it, k, bag)
    requires k < |Positions(source, n)| && k <= |Positions(bag, n)|
    requires mine == if k < |Positions(bag, n)| then Some(Positions(bag, n)[k]) else None
    ensures ok ==>
      && AtPlace(source, it, k + 1) && Progress(target, source, it, k + 1, r) && CountOk(target, source, it, k + 1, r)
    ensures ok ==> Positions(r, n) == Positions(bag, n) + (if mine.None? then [|bag|] else [])
    ensures !ok ==> Failed(target, source, r)
    ensures NewIds(bag, r, next, next')
    decreases source, 0
  {
    hide *;
    var sit := Positions(source, n)[k];
    if mine.Some? {
      var mit, x := mine.value, bag[mine.value];
      ok, x, next' := UpdateProperty(bag[mit], source[sit], next);
      r := bag[mit := x];
      UpdateOutcome(target, source, it, k, bag, ok, x, next, next');
    } else {
      var temp;
      temp, next' := Clone(source[sit], next);
      ok, r := true, bag + [temp];
      CloneOutcome(target, source, it, k, bag, temp, next, next');
    }
  }

  /** `updateOrRefreshProperty` with `update` set, for types without conversions. */
  method UpdateProperty(target: Prop, source: Prop, next: nat) returns (ok: bool, r: Prop, next': nat)
    ensures ok <==> CompatibleProp(target, source)
    ensures if ok then UpdatedProp(target, source, r) else FailedProp(target, source, r)
    ensures next <= next' && IdsOf(r) == IdsOf(target) + Range(next, next')
    decreases source, 4
  {
    ok, r, next' := false, target, next;
    match source {
      case Leaf(_, _, tag, value) =>
        if target.Leaf? && target.tag == tag {
          ok, r := true, target.(value := value);
        }
      case Bag(_, _, props) =>
        if target.Bag? {
          var bag;
          ok, bag, next' := UpdateProperties(target.props, props, next');
          r := target.(props := bag);
        }
    }
  }

  /** `create()` followed by `update`, which never fails: a deep copy at new addresses. */
  method Clone(source: Prop, next: nat) returns (r: Prop, next': nat)
    ensures r.name == source.name && Copied(source, r)
    ensures next < next' && IdsOf(r) == Range(next, next')
    decreases source, 4
  {
    next' := next + 1;
    match source {
      case Leaf(_, name, tag, value) => r := Leaf(next, name, tag, value);
      case Bag(_, name, props) =>
        var ok, bag;
        ok, bag, next' := UpdateProperties([], props, next');
        CompatibleWithNothing(props);
        r := Bag(next, name, bag);
    }
    OneMoreId(next, next');
  }
}
