/** Properties by name and by address: the helpers of the recursive update in rtt/PropertyBag.cpp. */
module PropertyNames {
  import opened Options
  import opened PropertyTree
  import opened Sequences

  /** `bag.getProperties(name)`: where the properties of that name are. */
  function Positions(bag: seq<Prop>, name: string): (ps: seq<nat>)
    ensures forall k | 0 <= k < |ps| :: ps[k] < |bag| && bag[ps[k]].name == name
  {
    if bag == [] then []
    else
      var n := |bag| - 1;
      Positions(bag[..n], name) + (if bag[n].name == name then [n] else [])
  }

  lemma {:induction false} PositionsOrdered(bag: seq<Prop>, name: string, k: nat, l: nat)
    requires k < l < |Positions(bag, name)|
    ensures Positions(bag, name)[k] < Positions(bag, name)[l]
    decreases |bag|
  {
    var n := |bag| - 1;
    if l < |Positions(bag[..n], name)| {
      PositionsOrdered(bag[..n], name, k, l);
    }
  }

  lemma {:induction false} PositionsComplete(bag: seq<Prop>, i: nat) returns (k: nat)
    requires i < |bag|
    ensures k < |Positions(bag, bag[i].name)| && Positions(bag, bag[i].name)[k] == i
    decreases |bag|
  {
    var n := |bag| - 1;
    if i < n {
      k := PositionsComplete(bag[..n], i);
    } else {
      k := |Positions(bag[..n], bag[i].name)|;
    }
  }

  function Names(bag: seq<Prop>): seq<string> {
    seq(|bag|, i requires 0 <= i < |bag| => bag[i].name)
  }

  /** `std::unique`: drops a name equal to the one before it, and only that. */
  function Unique(names: seq<string>): (u: seq<string>)
    ensures forall n :: n in u <==> n in names
  {
    if |names| <= 1 then names
    else if names[0] == names[1] then Unique(names[1..])
    else [names[0]] + Unique(names[1..])
  }

  /** No name is left next to its like, and nothing is dropped where there is none. */
  lemma {:induction false} UniqueIs(names: seq<string>)
    ensures var u := Unique(names);
      && (forall i | 0 <= i < |u| - 1 :: u[i] != u[i + 1]) && (names != [] ==> u != [] && u[0] == names[0])
      && ((forall i | 0 <= i < |names| - 1 :: names[i] != names[i + 1]) ==> u == names)
    decreases |names|
  {
    if |names| > 1 {
      var rest := names[1..];
      UniqueIs(rest);
      assert forall i | 0 <= i < |rest| :: rest[i] == names[i + 1];
    }
  }

  /** `r` starts with the properties of `target`, by name. */
  ghost predicate Extends(r: seq<Prop>, target: seq<Prop>) {
    |target| <= |r| && forall j | 0 <= j < |target| :: r[j].name == target[j].name
  }

  lemma PositionsSnoc(bag: seq<Prop>, p: Prop, n: string)
    ensures Positions(bag + [p], n) == Positions(bag, n) + (if p.name == n then [|bag|] else [])
  {
    assert (bag + [p])[..|bag|] == bag;
  }

  lemma {:induction false} PositionsSameNames(a: seq<Prop>, b: seq<Prop>, n: string)
    requires |a| == |b| && forall i | 0 <= i < |a| :: a[i].name == b[i].name
    ensures Positions(a, n) == Positions(b, n)
    decreases |a|
  {
    if a != [] {
      PositionsSameNames(a[..|a| - 1], b[..|b| - 1], n);
    }
  }

  /** The properties that were there first keep their rank among those of their name. */
  lemma {:induction false} PositionsExtend(a: seq<Prop>, b: seq<Prop>, n: string, k: nat)
    requires |a| <= |b| && forall i | 0 <= i < |a| :: a[i].name == b[i].name
    requires k < |Positions(b, n)|
    ensures k < |Positions(a, n)| <==> Positions(b, n)[k] < |a|
    ensures k < |Positions(a, n)| ==> Positions(a, n)[k] == Positions(b, n)[k]
    decreases |b|
  {
    if |a| == |b| {
      PositionsSameNames(a, b, n);
    } else {
      var c := b[..|b| - 1];
      if k < |Positions(c, n)| {
        PositionsExtend(a, c, n, k);
      } else {
        PositionsFewer(a, c, n);
      }
    }
  }

  lemma {:induction false} PositionsFewer(a: seq<Prop>, b: seq<Prop>, n: string)
    requires |a| <= |b| && forall i | 0 <= i < |a| :: a[i].name == b[i].name
    ensures |Positions(a, n)| <= |Positions(b, n)|
    decreases |b|
  {
    if |a| == |b| {
      PositionsSameNames(a, b, n);
    } else {
      PositionsFewer(a, b[..|b| - 1], n);
    }
  }

  lemma PositionsDisjoint(bag: seq<Prop>, m: string, l: nat, n: string, k: nat)
    requires l < |Positions(bag, m)| && k < |Positions(bag, n)| && Positions(bag, m)[l] == Positions(bag, n)[k]
    ensures m == n && l == k
  {
    assert bag[Positions(bag, m)[l]].name == m && bag[Positions(bag, n)[k]].name == n;
    if l < k {
      PositionsOrdered(bag, n, l, k);
    } else if k < l {
      PositionsOrdered(bag, n, k, l);
    }
  }

  // ---------------------------------------------------------------- names in order

  lemma {:induction false} FirstsOfUnique(names: seq<string>)
    ensures Firsts(Unique(names)) == Firsts(names)
    decreases |names|
  {
    if |names| > 1 {
      FirstsOfUnique(names[1..]);
      if names[0] == names[1] {
        WithoutTwice(Firsts(names[2..]), names[0], names[0]);
        assert names[1..][1..] == names[2..];
      }
    }
  }

  lemma {:induction false} PositionsCount(bag: seq<Prop>, n: string)
    ensures |Positions(bag, n)| == Count(Names(bag), n)
    decreases |bag|
  {
    if bag != [] {
      var last := |bag| - 1;
      PositionsCount(bag[..last], n);
      assert Names(bag) == Names(bag[..last]) + [bag[last].name];
      CountJoin(Names(bag[..last]), [bag[last].name], n);
    }
  }

  // ---------------------------------------------------------------- addresses

  /** The addresses of a property and of all in it. */
  function IdsOf(p: Prop): multiset<nat>
    decreases p, 0
  {
    match p
    case Leaf(id, _, _, _) => multiset{id}
    case Bag(id, _, props) => multiset{id} + Ids(props)
  }

  function Ids(bag: seq<Prop>): multiset<nat>
    decreases bag, 0
  {
    if bag == [] then multiset{} else IdsOf(bag[0]) + Ids(bag[1..])
  }

  /** The addresses from `first` to before `end`, each once. */
  function Range(first: nat, end: nat): (r: multiset<nat>)
    ensures forall id: nat :: r[id] == (if first <= id < end then 1 else 0)
    decreases end
  {
    if end <= first then multiset{} else Range(first, end - 1) + multiset{end - 1}
  }

  /** `after` has the addresses of `before` and those from `first` to before `end`. */
  predicate NewIds(before: seq<Prop>, after: seq<Prop>, first: nat, end: nat) {
    first <= end && Ids(after) == Ids(before) + Range(first, end)
  }

  lemma NoNewIds(bag: seq<Prop>, next: nat)
    ensures NewIds(bag, bag, next, next)
  {
  }

  lemma NewIdsJoin(a: seq<Prop>, b: seq<Prop>, c: seq<Prop>, first: nat, mid: nat, end: nat)
    requires NewIds(a, b, first, mid) && NewIds(b, c, mid, end)
    ensures NewIds(a, c, first, end)
  {
    RangeJoin(first, mid, end);
    Regroup(Ids(a), Range(first, mid), Range(mid, end));
  }

  lemma RangeJoin(first: nat, mid: nat, end: nat)
    requires first <= mid <= end
    ensures Range(first, mid) + Range(mid, end) == Range(first, end)
  {
  }

  lemma Regroup(a: multiset<nat>, b: multiset<nat>, c: multiset<nat>)
    ensures a + b + c == a + (b + c)
  {
  }

  lemma OneMoreId(first: nat, end: nat)
    requires first < end
    ensures Range(first, end) == multiset{first} + Range(first + 1, end)
  {
  }

  lemma {:induction false} IdsAppend(bag: seq<Prop>, p: Prop)
    ensures Ids(bag + [p]) == Ids(bag) + IdsOf(p)
    decreases |bag|
  {
    if bag == [] {
      assert ([] + [p])[1..] == [];
    } else {
      IdsAppend(bag[1..], p);
      assert (bag + [p])[1..] == bag[1..] + [p];
    }
  }

  lemma {:induction false} IdsReplace(bag: seq<Prop>, j: nat, p: Prop, extra: multiset<nat>)
    requires j < |bag| && IdsOf(p) == IdsOf(bag[j]) + extra
    ensures Ids(bag[j := p]) == Ids(bag) + extra
    decreases j
  {
    if j == 0 {
      assert bag[0 := p][1..] == bag[1..];
    } else {
      IdsReplace(bag[1..], j - 1, p, extra);
      assert bag[j := p][1..] == bag[1..][j - 1 := p];
    }
  }
}
