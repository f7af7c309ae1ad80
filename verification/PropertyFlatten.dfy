/** `flattenPropertyBag` of rtt/PropertyBag.cpp on a tree of properties that no bag owns. */
module PropertyFlatten {
  import opened Options
  import opened PropertyTree

  function Emptied(p: Prop): Prop {
    match p
    case Leaf(_, _, _, _) => p
    case Bag(id, name, props) => Bag(id, name, [])
  }

  function Tops(bag: seq<Prop>): seq<Prop> {
    seq(|bag|, i requires 0 <= i < |bag| => Emptied(bag[i]))
  }

  function Renamed(props: seq<Prop>, name: string, sep: string): seq<Prop> {
    seq(|props|, i requires 0 <= i < |props| => props[i].(name := name + sep + props[i].name))
  }

  /** The top level with its bags emptied, then what was in each bag, flattened and renamed. */
  function Flat(bag: seq<Prop>, sep: string): seq<Prop>
    decreases bag, 1
  {
    Tops(bag) + Moved(bag, sep)
  }

  function MovedFrom(p: Prop, sep: string): seq<Prop>
    decreases p
  {
    if p.Bag? then Renamed(Flat(p.props, sep), p.name, sep) else []
  }

  function Moved(bag: seq<Prop>, sep: string): seq<Prop>
    decreases bag, 0
  {
    if bag == [] then [] else MovedFrom(bag[0], sep) + Moved(bag[1..], sep)
  }

  predicate AllEmpty(bag: seq<Prop>) {
    forall i | 0 <= i < |bag| && bag[i].Bag? :: bag[i].props == []
  }

  /** No bag that is left has anything in it. */
  lemma {:induction false} FlatLeavesBagsEmpty(bag: seq<Prop>, sep: string)
    ensures AllEmpty(Flat(bag, sep)) && AllEmpty(Moved(bag, sep))
    decreases bag
  {
    if bag != [] {
      FlatLeavesBagsEmpty(bag[1..], sep);
      if bag[0].Bag? {
        FlatLeavesBagsEmpty(bag[0].props, sep);
        assert AllEmpty(Renamed(Flat(bag[0].props, sep), bag[0].name, sep));
      }
      assert AllEmpty(MovedFrom(bag[0], sep));
    }
    assert AllEmpty(Moved(bag, sep));
    assert AllEmpty(Tops(bag));
  }

  lemma {:induction false} MovedSnoc(bag: seq<Prop>, sep: string, k: nat)
    requires k < |bag|
    ensures Moved(bag[..k + 1], sep) == Moved(bag[..k], sep) + MovedFrom(bag[k], sep)
    decreases k
  {
    if k == 0 {
      assert bag[..1] == [bag[0]];
    } else {
      assert bag[..k + 1][1..] == bag[1..][..k] && bag[..k][1..] == bag[1..][..k - 1];
      MovedSnoc(bag[1..], sep, k - 1);
    }
  }

  /** The loop with its resetting iterator: after the first `k` properties are done. */
  function Done(bag: seq<Prop>, sep: string, k: nat): seq<Prop>
    requires k <= |bag|
  {
    Tops(bag[..k]) + bag[k..] + Moved(bag[..k], sep)
  }

  lemma DoneNext(bag: seq<Prop>, sep: string, k: nat)
    requires k < |bag|
    ensures Done(bag, sep, k)[k] == bag[k]
    ensures Done(bag, sep, k + 1) == Done(bag, sep, k)[k := Emptied(bag[k])] + MovedFrom(bag[k], sep)
  {
    MovedSnoc(bag, sep, k);
    assert Tops(bag[..k + 1]) == Tops(bag[..k]) + [Emptied(bag[k])];
    assert bag[k..] == [bag[k]] + bag[k + 1..];
  }

  /** The iterator passes a property that is no bag or an empty one. */
  lemma DonePassed(bag: seq<Prop>, sep: string, k: nat)
    requires k < |bag| && (bag[k].Bag? ==> Flat(bag[k].props, sep) == [])
    ensures Done(bag, sep, k + 1) == Done(bag, sep, k)
  {
    DoneNext(bag, sep, k);
    assert bag[k].Bag? ==> |Tops(bag[k].props)| == 0;
    assert MovedFrom(bag[k], sep) == [];
  }

  /** The iterator has moved the contents of a bag to the end of the target. */
  lemma DoneMoved(bag: seq<Prop>, sep: string, k: nat)
    requires k < |bag| && bag[k].Bag? && k < |Done(bag, sep, k)|
    ensures Done(bag, sep, k + 1)
         == (Done(bag, sep, k) + Renamed(Flat(bag[k].props, sep), bag[k].name, sep))[k := Emptied(bag[k])]
  {
    DoneNext(bag, sep, k);
  }

  /** At the iterator's turn a property is as it was. */
  lemma DoneAt(bag: seq<Prop>, sep: string, k: nat)
    requires k <= |bag|
    ensures |bag| <= |Done(bag, sep, k)| && (k < |bag| ==> Done(bag, sep, k)[k] == bag[k])
  {
  }

  lemma EmptyIsFlat(sep: string)
    ensures Flat([], sep) == []
  {
  }

  lemma AllDone(bag: seq<Prop>, sep: string)
    ensures Done(bag, sep, 0) == bag && Done(bag, sep, |bag|) == Flat(bag, sep)
  {
    assert bag[..|bag|] == bag && bag[..0] == [];
  }

  /** Everything done before the iterator's turn is a leaf or an empty bag. */
  lemma DoneAreEmpty(bag: seq<Prop>, sep: string, k: nat, it: nat)
    requires k <= |bag| && it < |Done(bag, sep, k)| && (it < k || k == |bag|)
    ensures var p := Done(bag, sep, k)[it]; p.Bag? ==> p.props == []
  {
    FlatLeavesBagsEmpty(bag[..k], sep);
    if it >= k {
      assert Done(bag, sep, k)[it] == Moved(bag[..k], sep)[it - k];
    }
  }

  /** Move everything from the bag called `name` to the end of the target. */
  method MoveAll(before: seq<Prop>, props: seq<Prop>, name: string, sep: string) returns (target: seq<Prop>)
    ensures target == before + Renamed(props, name, sep)
  {
    target := before;
    var rest := props;
    ghost var n := 0;
    while rest != []
      invariant n <= |props| && rest == props[n..] && target == before + Renamed(props[..n], name, sep)
      decreases |rest|
    {
      assert Renamed(props[..n + 1], name, sep)
          == Renamed(props[..n], name, sep) + [rest[0].(name := name + sep + rest[0].name)];
      target := target + [rest[0].(name := name + sep + rest[0].name)];
      rest := rest[1..];
      n := n + 1;
    }
    assert props[..n] == props;
  }

  /** The loop stops, although its iterator starts over after each bag, and computes `Flat`. */
  method FlattenPropertyBag(bag: seq<Prop>, sep: string) returns (target: seq<Prop>)
    ensures target == Flat(bag, sep)
    decreases bag
  {
    hide Done, Flat, Renamed, Emptied;
    AllDone(bag, sep);
    EmptyIsFlat(sep);
    target := bag;
    var it := 0;
    ghost var k := 0;
    DoneAt(bag, sep, 0);
    while it != |target|
      invariant 0 <= k <= |bag| <= |target| && target == Done(bag, sep, k)
      invariant 0 <= it <= |target| && (it <= k || k == |bag|)
      decreases |bag| - k, |target| - it
    {
      DoneAt(bag, sep, k);
      if it != k || k == |bag| {
        DoneAreEmpty(bag, sep, k, it);
        assert target[it].Bag? ==> target[it].props == bag[..0];
      } else {
        assert target[it] == bag[k];
      }
      if target[it].Bag? {
        var result := FlattenPropertyBag(target[it].props, sep);
        if result != [] {
          DoneMoved(bag, sep, k);
          target := MoveAll(target, result, target[it].name, sep);
          target := target[it := Emptied(target[it])];
          k := k + 1;
          it := 0;
          continue;
        }
      }
      if it == k < |bag| {
        DonePassed(bag, sep, k);
        k := k + 1;
      }
      it := it + 1;
    }
  }

  // ---------------------------------------------------------------- the order of what is flattened

  /** How many properties a tree has. */
  function Size(bag: seq<Prop>): nat
    decreases bag
  {
    if bag == [] then 0 else 1 + (if bag[0].Bag? then Size(bag[0].props) else 0) + Size(bag[1..])
  }

  lemma {:induction false} FlatSize(bag: seq<Prop>, sep: string)
    ensures |Flat(bag, sep)| == Size(bag) && |Moved(bag, sep)| == Size(bag) - |bag|
    decreases bag
  {
    if bag != [] {
      FlatSize(bag[1..], sep);
      var inner := if bag[0].Bag? then Size(bag[0].props) else 0;
      if bag[0].Bag? {
        FlatSize(bag[0].props, sep);
      }
      assert |MovedFrom(bag[0], sep)| == inner;
      assert Moved(bag, sep) == MovedFrom(bag[0], sep) + Moved(bag[1..], sep);
    }
    assert |Moved(bag, sep)| == Size(bag) - |bag|;
  }

  lemma {:induction false} MovedJoin(a: seq<Prop>, b: seq<Prop>, sep: string)
    ensures Moved(a + b, sep) == Moved(a, sep) + Moved(b, sep)
    decreases |a|
  {
    hide MovedFrom;
    if a == [] {
      assert a + b == b;
    } else {
      assert (a + b)[1..] == a[1..] + b;
      MovedJoin(a[1..], b, sep);
    }
  }

  /** The top level keeps its places, its bags emptied. */
  lemma FlatTop(bag: seq<Prop>, sep: string, k: nat)
    requires k < |bag|
    ensures var flat := Flat(bag, sep); var p := bag[k];
      && |flat| == Size(bag) >= |bag|
      && (p.Leaf? ==> flat[k] == p) && (p.Bag? ==> flat[k] == Bag(p.id, p.name, []))
  {
    FlatSize(bag, sep);
  }

  /** The contents of each bag follow, bag after bag, each in the order of its own flattening and under
      names that begin with that of the bag. */
  lemma FlatInner(bag: seq<Prop>, sep: string, k: nat, i: nat)
    requires k < |bag| && bag[k].Bag? && i < Size(bag[k].props)
    ensures var flat, inner := Flat(bag, sep), Flat(bag[k].props, sep);
      var at := |bag| + Size(bag[..k]) - k;
      && |inner| == Size(bag[k].props) && 0 <= at && at + i < |flat|
      && flat[at + i].name == bag[k].name + sep + inner[i].name
      && flat[at + i].(name := inner[i].name) == inner[i]
  {
    FlatSize(bag[..k], sep);
    FlatSize(bag[k].props, sep);
    MovedAround(bag, sep, k);
    var head, middle, tail := Moved(bag[..k], sep), MovedFrom(bag[k], sep), Moved(bag[k + 1..], sep);
    MiddleAt(Tops(bag), head, middle, tail, i);
    hide Moved, Tops;
  }

  lemma MiddleAt<T>(a: seq<T>, b: seq<T>, c: seq<T>, d: seq<T>, i: nat)
    requires i < |c|
    ensures |a| + |b| + i < |a + (b + (c + d))| && (a + (b + (c + d)))[|a| + |b| + i] == c[i]
  {
  }

  lemma MovedAround(bag: seq<Prop>, sep: string, k: nat)
    requires k < |bag|
    ensures Moved(bag, sep) == Moved(bag[..k], sep) + (MovedFrom(bag[k], sep) + Moved(bag[k + 1..], sep))
  {
    hide MovedFrom;
    assert bag == bag[..k] + ([bag[k]] + bag[k + 1..]);
    MovedJoin(bag[..k], [bag[k]] + bag[k + 1..], sep);
    MovedJoin([bag[k]], bag[k + 1..], sep);
    OneMoved(bag[k], sep);
  }

  lemma OneMoved(p: Prop, sep: string)
    ensures Moved([p], sep) == MovedFrom(p, sep)
  {
    assert [p][1..] == [];
  }

  // ---------------------------------------------------------------- what flattening keeps

  /** A property without its name and without what is in it. */
  function Bare(p: Prop): Prop { Emptied(p).(name := "") }

  /** Which properties are listed, each under its path. */
  function BareEntries(entries: seq<Entry>): seq<Entry> {
    seq(|entries|, i requires 0 <= i < |entries| => Entry(entries[i].path, Bare(entries[i].prop)))
  }

  /** The same for properties that stand next to each other. */
  function BareNames(props: seq<Prop>): seq<Entry> {
    seq(|props|, i requires 0 <= i < |props| => Entry(props[i].name, Bare(props[i])))
  }

  function Map<A, B>(f: A -> B, s: seq<A>): seq<B> {
    seq(|s|, i requires 0 <= i < |s| => f(s[i]))
  }

  function Erased<A>(s: seq<A>, k: nat): seq<A>
    requires k < |s|
  {
    s[..k] + s[k + 1..]
  }

  lemma ErasedOne<A>(s: seq<A>, k: nat)
    requires k < |s|
    ensures multiset(s) == multiset(Erased(s, k)) + multiset{s[k]}
  {
    assert s == s[..k] + [s[k]] + s[k + 1..];
  }

  lemma SamePlace<A>(a: seq<A>, b: seq<A>) returns (k: nat)
    requires a != [] && multiset(a) == multiset(b)
    ensures k < |b| && b[k] == a[0] && multiset(a[1..]) == multiset(Erased(b, k))
  {
    assert a[0] in multiset(b);
    k :| 0 <= k < |b| && b[k] == a[0];
    ErasedOne(a, 0);
    ErasedOne(b, k);
    assert Erased(a, 0) == a[1..];
    assert multiset(a[1..]) == multiset(a) - multiset{a[0]};
    assert multiset(Erased(b, k)) == multiset(b) - multiset{a[0]};
  }

  /** What is done to each element does not tell permutations apart. */
  lemma {:induction false} MapPermutes<A, B>(f: A -> B, a: seq<A>, b: seq<A>)
    requires multiset(a) == multiset(b)
    ensures multiset(Map(f, a)) == multiset(Map(f, b))
    decreases |a|
  {
    if a == [] {
      assert |multiset(b)| == |b| == 0;
    } else {
      var k := SamePlace(a, b);
      MapPermutes(f, a[1..], Erased(b, k));
      ErasedOne(Map(f, a), 0);
      ErasedOne(Map(f, b), k);
      assert Erased(Map(f, a), 0) == Map(f, a[1..]);
      assert Erased(Map(f, b), k) == Map(f, Erased(b, k));
    }
  }

  lemma PrefixPermutes(a: seq<Entry>, b: seq<Entry>, sep: string, name: string)
    requires multiset(a) == multiset(b)
    ensures multiset(Prefixed(a, sep, name)) == multiset(Prefixed(b, sep, name))
  {
    var f := (e: Entry) => Entry(name + sep + e.path, e.prop);
    MapPermutes(f, a, b);
    assert Map(f, a) == Prefixed(a, sep, name) && Map(f, b) == Prefixed(b, sep, name);
  }

  lemma BareNamesJoin(a: seq<Prop>, b: seq<Prop>)
    ensures BareNames(a + b) == BareNames(a) + BareNames(b)
  {
  }

  lemma BareEntriesJoin(a: seq<Entry>, b: seq<Entry>)
    ensures BareEntries(a + b) == BareEntries(a) + BareEntries(b)
  {
  }

  /** The flattened bag in terms of its first property and the rest, up to order. */
  lemma FlatParts(bag: seq<Prop>, sep: string)
    requires bag != []
    ensures multiset(BareNames(Flat(bag, sep)))
         == multiset{Entry(bag[0].name, Bare(bag[0]))} + multiset(BareNames(MovedFrom(bag[0], sep)))
            + multiset(BareNames(Flat(bag[1..], sep)))
  {
    var first, rest := Emptied(bag[0]), bag[1..];
    assert Tops(bag) == [first] + Tops(rest);
    BareNamesJoin(Tops(bag), Moved(bag, sep));
    BareNamesJoin([first], Tops(rest));
    BareNamesJoin(MovedFrom(bag[0], sep), Moved(rest, sep));
    BareNamesJoin(Tops(rest), Moved(rest, sep));
    assert BareNames([first]) == [Entry(bag[0].name, Bare(bag[0]))];
  }

  lemma ListingParts(bag: seq<Prop>, sep: string)
    requires bag != []
    ensures var inner := if bag[0].Bag? then Listing(bag[0].props, sep, bag[0].name) else [];
      multiset(BareEntries(Listing(bag, sep, "")))
      == multiset{Entry(bag[0].name, Bare(bag[0]))} + multiset(BareEntries(inner))
         + multiset(BareEntries(Listing(bag[1..], sep, "")))
  {
    var first := [Entry(bag[0].name, bag[0])];
    var inner := if bag[0].Bag? then Listing(bag[0].props, sep, bag[0].name) else [];
    BareEntriesJoin(first + inner, Listing(bag[1..], sep, ""));
    BareEntriesJoin(first, inner);
    assert BareEntries(first) == [Entry(bag[0].name, Bare(bag[0]))];
  }

  /** What comes out of one bag is what was listed below it. */
  lemma MovedIsListed(p: Prop, sep: string)
    requires p.Bag? && p.name != "" && Named(p.props)
    requires multiset(BareNames(Flat(p.props, sep))) == multiset(BareEntries(Listing(p.props, sep, "")))
    ensures multiset(BareNames(MovedFrom(p, sep))) == multiset(BareEntries(Listing(p.props, sep, p.name)))
  {
    ListingPrefix(p.props, sep, p.name);
    var inner := Listing(p.props, sep, "");
    assert BareEntries(Prefixed(inner, sep, p.name)) == Prefixed(BareEntries(inner), sep, p.name);
    assert BareNames(Renamed(Flat(p.props, sep), p.name, sep)) == Prefixed(BareNames(Flat(p.props, sep)), sep, p.name);
    PrefixPermutes(BareNames(Flat(p.props, sep)), BareEntries(inner), sep, p.name);
  }

  /** The properties left after flattening are those listed before, each named by its path. */
  lemma {:induction false} FlatIsListing(bag: seq<Prop>, sep: string)
    requires Named(bag)
    ensures multiset(BareNames(Flat(bag, sep))) == multiset(BareEntries(Listing(bag, sep, "")))
    decreases bag
  {
    if bag == [] {
      EmptyIsFlat(sep);
    } else {
      FlatParts(bag, sep);
      ListingParts(bag, sep);
      FlatIsListing(bag[1..], sep);
      if bag[0].Bag? {
        FlatIsListing(bag[0].props, sep);
        MovedIsListed(bag[0], sep);
      } else {
        assert BareNames(MovedFrom(bag[0], sep)) == [];
      }
    }
  }

  /** A tree whose bags are empty lists its own names. */
  lemma {:induction false} EmptyBagsList(bag: seq<Prop>, sep: string)
    requires AllEmpty(bag)
    ensures |Listing(bag, sep, "")| == |bag|
    ensures forall i | 0 <= i < |bag| :: Listing(bag, sep, "")[i] == Entry(bag[i].name, bag[i])
    decreases |bag|
  {
    if bag != [] {
      EmptyBagsList(bag[1..], sep);
    }
  }

  /** Flattening only permutes the listing. */
  lemma FlatteningKeepsListing(bag: seq<Prop>, sep: string)
    requires Named(bag)
    ensures multiset(ListProperties(Flat(bag, sep), sep)) == multiset(ListProperties(bag, sep))
  {
    FlatIsListing(bag, sep);
    FlatLeavesBagsEmpty(bag, sep);
    EmptyBagsList(Flat(bag, sep), sep);
    assert Paths(BareEntries(Listing(bag, sep, ""))) == ListProperties(bag, sep);
    assert Paths(BareNames(Flat(bag, sep))) == ListProperties(Flat(bag, sep), sep);
    var f := (e: Entry) => e.path;
    var a, b := BareNames(Flat(bag, sep)), BareEntries(Listing(bag, sep, ""));
    MapPermutes(f, a, b);
    assert Map(f, a) == Paths(a) && Map(f, b) == Paths(b);
  }

  /** After flattening, looking up a listed path directly finds what `findProperty` found before. */
  lemma FlatteningKeepsLookups(bag: seq<Prop>, sep: string, path: string)
    requires Proper(bag, sep) && path in ListProperties(bag, sep)
    ensures FindProperty(bag, path, sep).Some? && Find(Flat(bag, sep), path).Some?
    ensures Bare(Find(Flat(bag, sep), path).value) == Bare(FindProperty(bag, path, sep).value)
  {
    ProperNamed(bag, sep);
    FlatIsListing(bag, sep);
    var entries, flat := Listing(bag, sep, ""), Flat(bag, sep);
    var k :| 0 <= k < |entries| && entries[k].path == path;
    ListedIsFound(bag, sep, entries[k]);
    var e := BareEntries(entries)[k];
    assert e in multiset(BareEntries(entries));
    assert e in BareNames(flat);
    var j :| 0 <= j < |flat| && BareNames(flat)[j] == e;
    var i := IndexOf(flat, path).value;
    var found := BareNames(flat)[i];
    assert found in multiset(BareNames(flat));
    assert found in BareEntries(entries);
    var m :| 0 <= m < |entries| && BareEntries(entries)[m] == found;
    ListedIsFound(bag, sep, entries[m]);
  }
}
