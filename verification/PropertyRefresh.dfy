/** `refreshProperties` of rtt/PropertyBag.cpp: the properties of a fixed bag take the values of
    those of the same name, and none is added, removed or renamed. */
module PropertyRefresh {
  import opened Options
  import opened PropertyTree

  /** The source property for the one at `i`: by place if it has no name, by name otherwise. */
  function Counterpart(target: seq<Prop>, source: seq<Prop>, i: nat): (r: Option<Prop>)
    requires i < |target|
    ensures r.Some? ==> r.value in source
  {
    if target[i].name == "" then (if i < |source| then Some(source[i]) else None)
    else Find(source, target[i].name)
  }

  /** Only values differ. */
  ghost predicate SameShape(p: Prop, r: Prop)
    decreases p
  {
    match p
    case Leaf(id, name, tag, _) => r.Leaf? && r.id == id && r.name == name && r.tag == tag
    case Bag(id, name, props) => r.Bag? && r.id == id && r.name == name && SameShapes(props, r.props)
  }

  ghost predicate SameShapes(bag: seq<Prop>, r: seq<Prop>)
    decreases bag
  {
    |bag| == |r| && forall i | 0 <= i < |bag| :: SameShape(bag[i], r[i])
  }

  lemma {:induction false} ShapeOfSame(p: Prop)
    ensures SameShape(p, p)
    decreases p
  {
    if p.Bag? {
      forall i | 0 <= i < |p.props| ensures SameShape(p.props[i], p.props[i]) {
        ShapeOfSame(p.props[i]);
      }
    }
  }

  /** Bags of the same shape are listed the same. */
  lemma {:induction false} SameListing(bag: seq<Prop>, r: seq<Prop>, sep: string, prefix: string)
    requires SameShapes(bag, r)
    ensures Paths(Listing(bag, sep, prefix)) == Paths(Listing(r, sep, prefix))
    decreases bag
  {
    if bag != [] {
      assert SameShape(bag[0], r[0]);
      var itemname := ItemName(prefix, sep, bag[0].name);
      assert SameShapes(bag[1..], r[1..]);
      SameListing(bag[1..], r[1..], sep, prefix);
      if bag[0].Bag? {
        SameListing(bag[0].props, r[0].props, sep, itemname);
      }
      PathsOfListing(bag, sep, prefix);
      PathsOfListing(r, sep, prefix);
    }
  }

  lemma PathsOfListing(bag: seq<Prop>, sep: string, prefix: string)
    requires bag != []
    ensures var itemname := ItemName(prefix, sep, bag[0].name);
      Paths(Listing(bag, sep, prefix))
      == [itemname] + (if bag[0].Bag? then Paths(Listing(bag[0].props, sep, itemname)) else [])
         + Paths(Listing(bag[1..], sep, prefix))
  {
    var itemname := ItemName(prefix, sep, bag[0].name);
    var inner := if bag[0].Bag? then Listing(bag[0].props, sep, itemname) else [];
    PathsJoin([Entry(itemname, bag[0])] + inner, Listing(bag[1..], sep, prefix));
    PathsJoin([Entry(itemname, bag[0])], inner);
    assert Paths([Entry(itemname, bag[0])]) == [itemname];
    assert !bag[0].Bag? ==> Paths(inner) == [];
  }

  lemma PathsJoin(a: seq<Entry>, b: seq<Entry>)
    ensures Paths(a + b) == Paths(a) + Paths(b)
  {
  }

  // ---------------------------------------------------------------- what a refresh promises

  /** The refresh succeeds: the types agree at every counterpart and, if `allprops`, there is one
      for every property.  Nested bags are refreshed without `allprops`. */
  ghost predicate CanRefresh(target: seq<Prop>, source: seq<Prop>, allprops: bool)
    decreases target
  {
    forall i | 0 <= i < |target| ::
      match Counterpart(target, source, i)
      case None => !allprops
      case Some(q) => CanRefreshProp(target[i], q)
  }

  ghost predicate CanRefreshProp(p: Prop, q: Prop)
    decreases p
  {
    match p
    case Leaf(_, _, tag, _) => q.Leaf? && q.tag == tag
    case Bag(_, _, props) => q.Bag? && CanRefresh(props, q.props, false)
  }

  ghost predicate Refreshed(target: seq<Prop>, source: seq<Prop>, r: seq<Prop>)
    decreases target
  {
    && |r| == |target|
    && forall i | 0 <= i < |target| ::
         match Counterpart(target, source, i)
         case None => r[i] == target[i]
         case Some(q) => RefreshedProp(target[i], q, r[i])
  }

  ghost predicate RefreshedProp(p: Prop, q: Prop, r: Prop)
    decreases p
  {
    match p
    case Leaf(_, _, tag, _) => q.Leaf? && q.tag == tag && r == p.(value := q.value)
    case Bag(_, _, props) => q.Bag? && r.Bag? && r == p.(props := r.props) && Refreshed(props, q.props, r.props)
  }

  /** The types agree at every counterpart. */
  ghost predicate Matches(target: seq<Prop>, source: seq<Prop>) {
    CanRefresh(target, source, false)
  }

  /** The types disagree at `m`, and at no place before it: what comes before has its new value, what
      comes after is untouched, and at `m` a bag was refreshed in the same way up to where it stopped. */
  ghost predicate StoppedAt(target: seq<Prop>, source: seq<Prop>, r: seq<Prop>, m: nat)
    decreases target, 0
  {
    && m < |target| == |r|
    && (forall i | 0 <= i < m :: RefreshedAt(target, source, r, i))
    && (forall i | m < i < |target| :: r[i] == target[i])
    && match Counterpart(target, source, m)
       case None => false
       case Some(q) => !CanRefreshProp(target[m], q) && StoppedProp(target[m], q, r[m])
  }

  ghost predicate RefreshedAt(target: seq<Prop>, source: seq<Prop>, r: seq<Prop>, i: nat)
    requires i < |target| == |r|
  {
    match Counterpart(target, source, i)
    case None => r[i] == target[i]
    case Some(q) => CanRefreshProp(target[i], q) && RefreshedProp(target[i], q, r[i])
  }

  ghost predicate Stopped(target: seq<Prop>, source: seq<Prop>, r: seq<Prop>)
    decreases target, 1
  {
    exists m: nat :: StoppedAt(target, source, r, m)
  }

  ghost predicate StoppedProp(p: Prop, q: Prop, r: Prop)
    decreases p, 2
  {
    match p
    case Leaf(_, _, _, _) => r == p
    case Bag(_, _, props) =>
      if q.Bag? then r.Bag? && r == p.(props := r.props) && Stopped(props, q.props, r.props) else r == p
  }

  lemma StrictMeans(target: seq<Prop>, source: seq<Prop>, allprops: bool)
    ensures CanRefresh(target, source, allprops) <==>
      Matches(target, source) && (allprops ==> forall i | 0 <= i < |target| :: Counterpart(target, source, i).Some?)
  {
  }

  lemma MismatchMeans(target: seq<Prop>, source: seq<Prop>, r: seq<Prop>, m: nat)
    requires StoppedAt(target, source, r, m)
    ensures !Matches(target, source) && Stopped(target, source, r)
  {
    assert Counterpart(target, source, m).Some?;
  }

  lemma NoMismatchMeans(target: seq<Prop>, source: seq<Prop>, r: seq<Prop>)
    requires |r| == |target| && forall i | 0 <= i < |target| :: RefreshedAt(target, source, r, i)
    ensures Matches(target, source) && Refreshed(target, source, r)
  {
    forall i | 0 <= i < |target|
      ensures match Counterpart(target, source, i)
        case None => r[i] == target[i]
        case Some(q) => CanRefreshProp(target[i], q) && RefreshedProp(target[i], q, r[i])
    {
      assert RefreshedAt(target, source, r, i);
    }
  }

  // ---------------------------------------------------------------- who takes whose value

  /** The k-th source property is the one for the target property at `i`: the first of the same name
      or, if it has no name, the one at the same place. */
  predicate Partner(target: seq<Prop>, source: seq<Prop>, i: nat, k: nat) {
    && i < |target| && k < |source|
    && if target[i].name == "" then k == i
       else source[k].name == target[i].name && forall j | 0 <= j < k :: source[j].name != target[i].name
  }

  ghost predicate HasPartner(target: seq<Prop>, source: seq<Prop>, i: nat) {
    exists k: nat :: Partner(target, source, i, k)
  }

  /** Each property that has a partner took its value, the others are untouched; and so in bags. */
  ghost predicate Took(target: seq<Prop>, source: seq<Prop>, r: seq<Prop>)
    decreases target
  {
    && |r| == |target|
    && (forall i: nat, k: nat | Partner(target, source, i, k) :: TookProp(target[i], source[k], r[i]))
    && (forall i | 0 <= i < |target| && !HasPartner(target, source, i) :: r[i] == target[i])
  }

  ghost predicate TookProp(p: Prop, q: Prop, r: Prop)
    decreases p
  {
    match p
    case Leaf(_, _, tag, _) => q.Leaf? && q.tag == tag && r == p.(value := q.value)
    case Bag(_, _, props) => q.Bag? && r.Bag? && r == p.(props := r.props) && Took(props, q.props, r.props)
  }

  /** The types of all partners agree, at every depth, and at the top, if `allprops`, all have one. */
  ghost predicate Fits(target: seq<Prop>, source: seq<Prop>, allprops: bool)
    decreases target
  {
    && (forall i: nat, k: nat | Partner(target, source, i, k) :: FitsProp(target[i], source[k]))
    && (allprops ==> forall i | 0 <= i < |target| :: HasPartner(target, source, i))
  }

  ghost predicate FitsProp(p: Prop, q: Prop)
    decreases p
  {
    match p
    case Leaf(_, _, tag, _) => q.Leaf? && q.tag == tag
    case Bag(_, _, props) => q.Bag? && Fits(props, q.props, false)
  }

  lemma CounterpartIsPartner(target: seq<Prop>, source: seq<Prop>, i: nat)
    requires i < |target|
    ensures var c := Counterpart(target, source, i);
      && (c.Some? <==> HasPartner(target, source, i))
      && (forall k: nat | Partner(target, source, i, k) :: c == Some(source[k]))
  {
    var c := Counterpart(target, source, i);
    if c.Some? {
      var k := if target[i].name == "" then i else IndexOf(source, target[i].name).value;
      assert Partner(target, source, i, k);
    }
  }

  lemma {:induction false} FitsIffCanRefresh(target: seq<Prop>, source: seq<Prop>, allprops: bool)
    ensures Fits(target, source, allprops) <==> CanRefresh(target, source, allprops)
    decreases target
  {
    forall i | 0 <= i < |target|
      ensures HasPartner(target, source, i) <==> Counterpart(target, source, i).Some?
    {
      CounterpartIsPartner(target, source, i);
    }
    forall i: nat, k: nat | Partner(target, source, i, k)
      ensures Counterpart(target, source, i) == Some(source[k])
      ensures FitsProp(target[i], source[k]) <==> CanRefreshProp(target[i], source[k])
    {
      CounterpartIsPartner(target, source, i);
      if target[i].Bag? && source[k].Bag? {
        FitsIffCanRefresh(target[i].props, source[k].props, false);
      }
    }
  }

  lemma {:induction false} TookIffRefreshed(target: seq<Prop>, source: seq<Prop>, r: seq<Prop>)
    ensures Took(target, source, r) <==> Refreshed(target, source, r)
    decreases target
  {
    if |r| == |target| {
      forall i | 0 <= i < |target|
        ensures HasPartner(target, source, i) <==> Counterpart(target, source, i).Some?
      {
        CounterpartIsPartner(target, source, i);
      }
      forall i: nat, k: nat | Partner(target, source, i, k)
        ensures Counterpart(target, source, i) == Some(source[k])
        ensures TookProp(target[i], source[k], r[i]) <==> RefreshedProp(target[i], source[k], r[i])
      {
        CounterpartIsPartner(target, source, i);
        if target[i].Bag? && source[k].Bag? && r[i].Bag? {
          TookIffRefreshed(target[i].props, source[k].props, r[i].props);
        }
      }
    }
  }

  /** A refresh that stopped: partners before the place took their values, nothing after it did, and
      there the types disagree. */
  lemma StoppedByName(target: seq<Prop>, source: seq<Prop>, r: seq<Prop>) returns (m: nat, l: nat)
    requires Stopped(target, source, r)
    ensures |r| == |target| && Partner(target, source, m, l) && !FitsProp(target[m], source[l])
    ensures forall i: nat, k: nat | i < m && Partner(target, source, i, k) :: TookProp(target[i], source[k], r[i])
    ensures forall i | 0 <= i < m && !HasPartner(target, source, i) :: r[i] == target[i]
    ensures forall i | m < i < |target| :: r[i] == target[i]
  {
    m :| StoppedAt(target, source, r, m);
    CounterpartIsPartner(target, source, m);
    l :| Partner(target, source, m, l);
    FitsSame(target[m], source[l]);
    forall i | 0 <= i < m
      ensures !HasPartner(target, source, i) ==> r[i] == target[i]
      ensures forall k: nat | Partner(target, source, i, k) :: TookProp(target[i], source[k], r[i])
    {
      assert RefreshedAt(target, source, r, i);
      CounterpartIsPartner(target, source, i);
      forall k: nat | Partner(target, source, i, k) ensures TookProp(target[i], source[k], r[i]) {
        TookSame(target[i], source[k], r[i]);
      }
    }
  }

  lemma FitsSame(p: Prop, q: Prop)
    ensures FitsProp(p, q) <==> CanRefreshProp(p, q)
  {
    if p.Bag? && q.Bag? {
      FitsIffCanRefresh(p.props, q.props, false);
    }
  }

  lemma TookSame(p: Prop, q: Prop, r: Prop)
    ensures TookProp(p, q, r) <==> RefreshedProp(p, q, r)
  {
    if p.Bag? && q.Bag? && r.Bag? {
      TookIffRefreshed(p.props, q.props, r.props);
    }
  }

  // ---------------------------------------------------------------- the code

  method RefreshProperties(target: seq<Prop>, source: seq<Prop>, allprops: bool) returns (ok: bool, r: seq<Prop>)
    ensures ok <==> Fits(target, source, allprops)
    ensures Fits(target, source, false) ==> Took(target, source, r)
    ensures ok <==> CanRefresh(target, source, allprops)
    ensures if Matches(target, source) then Refreshed(target, source, r) else Stopped(target, source, r)
    ensures SameShapes(target, r)
    decreases target
  {
    r := target;
    var failure, mismatch := false, false;
    var it := 0;
    forall i | 0 <= i < |target| ensures SameShape(target[i], target[i]) {
      ShapeOfSame(target[i]);
    }
    while it != |target| && !mismatch
      invariant it <= |target| == |r|
      invariant forall i | 0 <= i < |target| :: SameShape(target[i], r[i])
      invariant !mismatch ==> forall i | it <= i < |target| :: r[i] == target[i]
      invariant !mismatch ==> forall i | 0 <= i < it :: RefreshedAt(target, source, r, i)
      invariant !mismatch ==> (failure <==> allprops && exists i | 0 <= i < it :: Counterpart(target, source, i).None?)
      invariant mismatch ==> StoppedAt(target, source, r, it)
      decreases |target| - it, !mismatch
    {
      var srcprop := Counterpart(target, source, it);
      if srcprop.Some? {
        var ok', x := RefreshProperty(r[it], srcprop.value);
        ghost var before := r;
        r := r[it := x];
        forall i | 0 <= i < it ensures RefreshedAt(target, source, r, i) {
          assert RefreshedAt(target, source, before, i);
        }
        mismatch := !ok';
      } else if allprops {
        failure := true;
      }
      if !mismatch {
        it := it + 1;
      }
    }
    ok := !failure && !mismatch;
    StrictMeans(target, source, allprops);
    FitsIffCanRefresh(target, source, allprops);
    FitsIffCanRefresh(target, source, false);
    TookIffRefreshed(target, source, r);
    if mismatch {
      MismatchMeans(target, source, r, it);
    } else {
      NoMismatchMeans(target, source, r);
    }
  }

  /** `updateOrRefreshProperty` with `update` not set, for types without conversions. */
  method RefreshProperty(target: Prop, source: Prop) returns (ok: bool, r: Prop)
    ensures ok <==> CanRefreshProp(target, source)
    ensures if ok then RefreshedProp(target, source, r) else StoppedProp(target, source, r)
    ensures SameShape(target, r)
    decreases target
  {
    ok, r := false, target;
    ShapeOfSame(target);
    match target {
      case Leaf(_, _, tag, _) =>
        if source.Leaf? && source.tag == tag {
          ok, r := true, target.(value := source.value);
        }
      case Bag(_, _, props) =>
        if source.Bag? {
          var bag;
          ok, bag := RefreshProperties(props, source.props, false);
          r := target.(props := bag);
        }
    }
  }
}
