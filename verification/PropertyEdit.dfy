/** Storing and removing properties by path (rtt/PropertyBag.cpp). */
module PropertyEdit {
  import opened Options
  import opened PropertyNames
  import opened PropertyTree

  datatype Stored = Stored(ok: bool, bag: seq<Prop>, next: nat)

  /** `bag.removeProperty(p)`: erase the first occurrence of that very property. */
  function RemoveId(bag: seq<Prop>, id: nat): seq<Prop> {
    if bag == [] then []
    else if bag[0].id == id then bag[1..]
    else [bag[0]] + RemoveId(bag[1..], id)
  }

  /** `bag.ownProperty(item)`. */
  function Own(bag: seq<Prop>, item: Prop): seq<Prop> { RemoveId(bag, item.id) + [item] }

  /** The first component of a path and what follows the separator after it. */
  function Head(path: string, sep: string): (h: (string, string))
    requires sep != ""
    ensures path != "" ==> |h.1| < |path|
  {
    var k := FindSub(path, sep, 0);
    if k.Some? then (path[..k.value], path[k.value + |sep|..]) else (path, "")
  }

  /** `storeProperty`; `next` is the address the next new bag gets. */
  function StoreProperty(bag: seq<Prop>, path: string, item: Prop, sep: string, next: nat): Stored
    requires sep != ""
    decreases |path|
  {
    if path == "" || path == sep then Stored(true, Own(bag, item), next)
    else
      var (pname, rest) := Head(path, sep);
      if pname == "" && rest != "" then StoreProperty(bag, rest, item, sep, next)
      else
        var i := IndexOf(bag, pname);
        if i.None? then
          var sub := StoreProperty([], rest, item, sep, next + 1);
          Stored(sub.ok, bag + [Bag(next, pname, sub.bag)], sub.next)
        else if bag[i.value].Leaf? then Stored(false, bag, next)
        else
          var sub := StoreProperty(bag[i.value].props, rest, item, sep, next);
          Stored(sub.ok, bag[i.value := bag[i.value].(props := sub.bag)], sub.next)
  }

  // ---------------------------------------------------------------- short paths

  /** A separator before the first name makes no difference to a store. */
  lemma StoreLeadingSeparator(bag: seq<Prop>, path: string, item: Prop, sep: string, next: nat)
    requires sep != "" && path != ""
    ensures StoreProperty(bag, sep + path, item, sep, next) == StoreProperty(bag, path, item, sep, next)
  {
    assert OccursAt(sep + path, sep, 0);
    assert (sep + path)[|sep|..] == path && (sep + path)[..0] == "";
  }

  /** An item stored with an empty path, or a separator alone, ends up at the end of the bag, once; the
      other properties stay as they are, in order. */
  lemma StoreHere(bag: seq<Prop>, item: Prop, sep: string, next: nat, i: nat)
    requires sep != ""
    requires i <= |bag| && (i < |bag| ==> bag[i].id == item.id)
    requires forall j | 0 <= j < |bag| && j != i :: bag[j].id != item.id
    ensures var rest := if i < |bag| then bag[..i] + bag[i + 1..] else bag;
      StoreProperty(bag, "", item, sep, next) == StoreProperty(bag, sep, item, sep, next)
      == Stored(true, rest + [item], next)
  {
    if i < |bag| {
      RemoveIdAt(bag, i);
    } else {
      RemoveAbsent(bag, item.id);
    }
  }

  /** A removal with a separator before the name is one of the name. */
  lemma RemoveLeadingSeparator(bag: seq<Prop>, name: string, sep: string)
    requires GoodName(name, sep) && LastSepFree(name, sep)
    ensures RemoveProperty(bag, sep + name, sep) == RemoveProperty(bag, name, sep) == RemoveNamed(bag, name)
  {
    FirstSeparator(name, sep, "");
    var path := sep + name;
    assert OccursAt(path, sep, 0) && OccursAt(sep, sep, 0);
    assert path[..0] == "" && path[|sep|..] == name;
  }

  /** The empty path and the separator alone name nothing that could be removed. */
  lemma NothingToRemove(bag: seq<Prop>, sep: string)
    ensures RemoveProperty(bag, "", sep) == RemoveProperty(bag, sep, sep) == Removed(false, bag)
  {
  }

  /** The first property of a name is removed, and only that, if addresses tell properties apart. */
  lemma RemoveNamedIs(bag: seq<Prop>, name: string, i: nat)
    requires i < |bag| && bag[i].name == name && forall j | 0 <= j < i :: bag[j].name != name
    requires OneEach(bag)
    ensures RemoveNamed(bag, name) == Removed(true, bag[..i] + bag[i + 1..])
  {
    assert IndexOf(bag, name) == Some(i);
    RemoveIdAt(bag, i);
  }

  // ---------------------------------------------------------------- addresses

  /** A store that succeeds adds the item's addresses, and one new address for each bag it creates. */
  lemma {:induction false} StoreNewIds(bag: seq<Prop>, path: string, item: Prop, sep: string, next: nat)
    requires sep != "" && Absent(bag, item.id)
    ensures var r := StoreProperty(bag, path, item, sep, next);
      && next <= r.next && (!r.ok ==> r.next == next)
      && (r.ok ==> Ids(r.bag) == Ids(bag) + (IdsOf(item) + Range(next, r.next)))
    decreases |path|
  {
    if path == "" || path == sep {
      RemoveAbsent(bag, item.id);
      IdsAppend(bag, item);
    } else {
      var (pname, rest) := Head(path, sep);
      if pname == "" && rest != "" {
        StoreNewIds(bag, rest, item, sep, next);
      } else {
        var i := IndexOf(bag, pname);
        if i.None? {
          StoreIntoEmpty(rest, item, sep, next + 1);
          StoreNewIds([], rest, item, sep, next + 1);
          var sub := StoreProperty([], rest, item, sep, next + 1);
          IdsAppend(bag, Bag(next, pname, sub.bag));
          OneMoreId(next, sub.next);
          CreatedIds(next, pname, sub.bag, IdsOf(item), sub.next);
        } else if bag[i.value].Bag? {
          var b := bag[i.value];
          StoreNewIds(b.props, rest, item, sep, next);
          var sub := StoreProperty(b.props, rest, item, sep, next);
          if sub.ok {
            var added := IdsOf(item) + Range(next, sub.next);
            Regroup(multiset{b.id}, Ids(b.props), added);
            IdsReplace(bag, i.value, b.(props := sub.bag), added);
          }
        }
      }
    }
  }

  lemma CreatedIds(next: nat, name: string, props: seq<Prop>, item: multiset<nat>, end: nat)
    requires next < end && Ids(props) == Ids([]) + (item + Range(next + 1, end))
    ensures IdsOf(Bag(next, name, props)) == item + Range(next, end)
  {
    OneMoreId(next, end);
    assert Ids(props) == item + Range(next + 1, end);
    assert multiset{next} + (item + Range(next + 1, end)) == item + (multiset{next} + Range(next + 1, end));
  }

  // ---------------------------------------------------------------- failure and growth

  lemma {:induction false} StoreIntoEmpty(path: string, item: Prop, sep: string, next: nat)
    requires sep != ""
    ensures StoreProperty([], path, item, sep, next).ok
    decreases |path|
  {
    if path != "" && path != sep {
      var (pname, rest) := Head(path, sep);
      StoreIntoEmpty(rest, item, sep, next);
      StoreIntoEmpty(rest, item, sep, next + 1);
    }
  }

  /** A failed store leaves the whole tree as it was, whatever the path. */
  lemma {:induction false} FailedStoreChangesNothing(bag: seq<Prop>, path: string, item: Prop, sep: string, next: nat)
    requires sep != "" && !StoreProperty(bag, path, item, sep, next).ok
    ensures StoreProperty(bag, path, item, sep, next).bag == bag
    decreases |path|
  {
    var (pname, rest) := Head(path, sep);
    if pname == "" && rest != "" {
      FailedStoreChangesNothing(bag, rest, item, sep, next);
    } else {
      var i := IndexOf(bag, pname);
      StoreIntoEmpty(rest, item, sep, next + 1);
      if bag[i.value].Bag? {
        FailedStoreChangesNothing(bag[i.value].props, rest, item, sep, next);
      }
    }
  }

  /** The property is still there; if it is a bag, so is everything in it. */
  predicate Grown(p: Prop, q: Prop)
    decreases p
  {
    match p
    case Leaf(_, _, _, _) => q == p
    case Bag(id, name, props) => q.Bag? && q.id == id && q.name == name && GrownBag(props, q.props)
  }

  predicate GrownBag(a: seq<Prop>, b: seq<Prop>)
    decreases a
  {
    |a| <= |b| && forall i | 0 <= i < |a| :: Grown(a[i], b[i])
  }

  lemma {:induction false} GrownRefl(p: Prop)
    ensures Grown(p, p)
    decreases p
  {
    if p.Bag? {
      forall i | 0 <= i < |p.props| ensures Grown(p.props[i], p.props[i]) {
        GrownRefl(p.props[i]);
      }
    }
  }

  /** The item is not in the tree yet. */
  predicate Absent(bag: seq<Prop>, id: nat)
    decreases bag
  {
    forall i | 0 <= i < |bag| :: bag[i].id != id && (bag[i].Bag? ==> Absent(bag[i].props, id))
  }

  lemma {:induction false} RemoveAbsent(bag: seq<Prop>, id: nat)
    requires forall i | 0 <= i < |bag| :: bag[i].id != id
    ensures RemoveId(bag, id) == bag
    decreases |bag|
  {
    if bag != [] {
      RemoveAbsent(bag[1..], id);
    }
  }

  /** Storing only adds, whatever the path. */
  lemma {:induction false} StoreGrows(bag: seq<Prop>, path: string, item: Prop, sep: string, next: nat)
    requires sep != "" && Absent(bag, item.id)
    ensures GrownBag(bag, StoreProperty(bag, path, item, sep, next).bag)
    decreases |path|
  {
    forall i | 0 <= i < |bag| ensures Grown(bag[i], bag[i]) {
      GrownRefl(bag[i]);
    }
    if path == "" || path == sep {
      RemoveAbsent(bag, item.id);
    } else {
      var (pname, rest) := Head(path, sep);
      if pname == "" && rest != "" {
        StoreGrows(bag, rest, item, sep, next);
      } else {
        var i := IndexOf(bag, pname);
        if i.Some? && bag[i.value].Bag? {
          StoreGrows(bag[i.value].props, rest, item, sep, next);
        }
      }
    }
  }

  /** A first match stays the first match when properties are appended. */
  lemma {:induction false} FirstMatchStays(a: seq<Prop>, b: seq<Prop>, name: string)
    requires |a| <= |b| && forall j | 0 <= j < |a| :: b[j].name == a[j].name
    requires IndexOf(a, name).Some?
    ensures IndexOf(b, name) == IndexOf(a, name)
    decreases |a|
  {
    if a[0].name != name {
      FirstMatchStays(a[1..], b[1..], name);
    }
  }

  /** What was found before, under whatever path, is still found there. */
  lemma {:induction false} GrownLookup(a: seq<Prop>, b: seq<Prop>, path: string, sep: string)
    requires GrownBag(a, b) && FindProperty(a, path, sep).Some?
    ensures FindProperty(b, path, sep).Some?
    ensures Grown(FindProperty(a, path, sep).value, FindProperty(b, path, sep).value)
    decreases a
  {
    var split := SplitPath(path, sep);
    var i := IndexOf(a, split.token).value;
    forall j | 0 <= j < |a| ensures b[j].name == a[j].name {
      assert Grown(a[j], b[j]);
    }
    FirstMatchStays(a, b, split.token);
    assert Grown(a[i], b[i]);
    if a[i].Bag? && split.rest.Some? {
      GrownLookup(a[i].props, b[i].props, split.rest.value, sep);
    }
  }

  /** Storing leaves every existing lookup as it was. */
  lemma StoreKeepsLookups(bag: seq<Prop>, path: string, item: Prop, sep: string, next: nat, other: string)
    requires sep != "" && Absent(bag, item.id) && FindProperty(bag, other, sep).Some?
    ensures var after := FindProperty(StoreProperty(bag, path, item, sep, next).bag, other, sep);
      after.Some? && Grown(FindProperty(bag, other, sep).value, after.value)
  {
    StoreGrows(bag, path, item, sep, next);
    GrownLookup(bag, StoreProperty(bag, path, item, sep, next).bag, other, sep);
  }

  // ---------------------------------------------------------------- store, find, remove

  predicate GoodName(name: string, sep: string) { name != "" && SepFree(name, sep) }

  predicate GoodNames(comps: seq<string>, sep: string) {
    forall i | 0 <= i < |comps| :: GoodName(comps[i], sep)
  }

  /** `comps[0] + sep + comps[1] + ...` */
  function Join(comps: seq<string>, sep: string): string {
    if comps == [] then ""
    else if |comps| == 1 then comps[0]
    else comps[0] + sep + Join(comps[1..], sep)
  }

  /** The bag that the components lead to, empty if it is yet to be created; none when a
      component leads to a property that is no bag. */
  function Target(bag: seq<Prop>, comps: seq<string>): Option<seq<Prop>>
    decreases |comps|
  {
    if comps == [] then Some(bag)
    else
      var i := IndexOf(bag, comps[0]);
      if i.None? then Some([])
      else if bag[i.value].Leaf? then None
      else Target(bag[i.value].props, comps[1..])
  }

  /** The tree with `f` applied to the bag the components lead to, missing bags created. */
  function Edit(bag: seq<Prop>, comps: seq<string>, content: seq<Prop>, next: nat): seq<Prop>
    decreases |comps|
  {
    if comps == [] then content
    else
      var i := IndexOf(bag, comps[0]);
      if i.None? then bag + [Bag(next, comps[0], Edit([], comps[1..], content, next + 1))]
      else if bag[i.value].Leaf? then bag
      else bag[i.value := bag[i.value].(props := Edit(bag[i.value].props, comps[1..], content, next))]
  }

  lemma JoinSplits(comps: seq<string>, sep: string)
    requires comps != [] && GoodNames(comps, sep)
    ensures sep != "" && Join(comps, sep) != "" && Join(comps, sep) != sep
    ensures Head(Join(comps, sep), sep) == (comps[0], Join(comps[1..], sep))
    ensures |comps| > 1 ==> FindSub(Join(comps, sep), sep, 0).Some?
  {
    assert GoodName(comps[0], sep);
    FirstSeparator(comps[0], sep, if |comps| > 1 then Join(comps[1..], sep) else "");
    assert OccursAt(sep, sep, 0);
    var path := Join(comps, sep);
    assert |comps| > 1 ==> path[..|comps[0]|] == comps[0] && path[|comps[0]| + |sep|..] == Join(comps[1..], sep);
  }

  /** Storing under a path of good names edits the bag it leads to, and succeeds exactly when no
      component leads to a property that is no bag. */
  lemma {:induction false} StoreEdits(bag: seq<Prop>, comps: seq<string>, item: Prop, sep: string, next: nat)
    requires sep != "" && GoodNames(comps, sep)
    ensures var r := StoreProperty(bag, Join(comps, sep), item, sep, next);
      && (r.ok <==> Target(bag, comps).Some?)
      && (r.ok ==> r.bag == Edit(bag, comps, Own(Target(bag, comps).value, item), next))
    decreases |comps|
  {
    if comps != [] {
      JoinSplits(comps, sep);
      var i := IndexOf(bag, comps[0]);
      if i.None? {
        StoreEdits([], comps[1..], item, sep, next + 1);
        TargetOfEmpty(comps[1..]);
      } else if bag[i.value].Bag? {
        StoreEdits(bag[i.value].props, comps[1..], item, sep, next);
      }
    }
  }

  lemma TargetOfEmpty(comps: seq<string>)
    ensures Target([], comps) == Some([])
  {
  }

  lemma IndexOfAppended(bag: seq<Prop>, item: Prop)
    requires IndexOf(bag, item.name).None?
    ensures IndexOf(bag + [item], item.name) == Some(|bag|)
  {
    assert (bag + [item])[|bag|] == item;
    forall i | 0 <= i < |bag| ensures (bag + [item])[i].name != item.name {
    }
  }

  lemma {:induction false} IndexOfSameNames(a: seq<Prop>, b: seq<Prop>, name: string)
    requires |a| == |b| && forall i | 0 <= i < |a| :: a[i].name == b[i].name
    ensures IndexOf(a, name) == IndexOf(b, name)
    decreases |a|
  {
    if a != [] {
      IndexOfSameNames(a[1..], b[1..], name);
    }
  }

  lemma IndexInEdit(bag: seq<Prop>, comps: seq<string>, content: seq<Prop>, next: nat)
    requires comps != [] && Target(bag, comps).Some?
    ensures var e := Edit(bag, comps, content, next);
      var i := IndexOf(e, comps[0]);
      && i.Some? && e[i.value].Bag?
      && e[i.value].props == (if IndexOf(bag, comps[0]).None? then Edit([], comps[1..], content, next + 1)
                              else Edit(bag[i.value].props, comps[1..], content, next))
      && (IndexOf(bag, comps[0]).Some? ==> i == IndexOf(bag, comps[0]) && bag[i.value].Bag?)
      && (IndexOf(bag, comps[0]).None? ==> i.value == |bag|)
  {
    if IndexOf(bag, comps[0]).None? {
      IndexOfAppended(bag, Bag(next, comps[0], Edit([], comps[1..], content, next + 1)));
    } else {
      IndexOfSameNames(bag, Edit(bag, comps, content, next), comps[0]);
    }
  }

  /** One level of looking up a path of good names. */
  lemma FindOneLevel(e: seq<Prop>, comps: seq<string>, sep: string)
    requires |comps| > 1 && GoodNames(comps, sep) && IndexOf(e, comps[0]).Some? && e[IndexOf(e, comps[0]).value].Bag?
    ensures FindProperty(e, Join(comps, sep), sep)
         == FindProperty(e[IndexOf(e, comps[0]).value].props, Join(comps[1..], sep), sep)
  {
    JoinSplits(comps[1..], sep);
    SplitNested(comps[0], sep, Join(comps[1..], sep));
  }

  /** Looking up a path of good names, after an edit of the bag it leads to, looks in that bag. */
  lemma {:induction false} FindInEdit(bag: seq<Prop>, comps: seq<string>, content: seq<Prop>, next: nat,
                                      name: string, sep: string)
    requires GoodNames(comps, sep) && GoodName(name, sep) && Target(bag, comps).Some?
    ensures FindProperty(Edit(bag, comps, content, next), Join(comps + [name], sep), sep) == Find(content, name)
    decreases |comps|
  {
    if comps == [] {
      SplitName(name, sep);
    } else {
      var path := comps + [name];
      assert path[1..] == comps[1..] + [name];
      IndexInEdit(bag, comps, content, next);
      FindOneLevel(Edit(bag, comps, content, next), path, sep);
      var i := IndexOf(bag, comps[0]);
      var (props, deeper) := if i.None? then ([], next + 1) else (bag[i.value].props, next);
      TargetOfEmpty(comps[1..]);
      FindInEdit(props, comps[1..], content, deeper, name, sep);
    }
  }

  lemma FindAppended(bag: seq<Prop>, item: Prop)
    ensures Find(bag + [item], item.name) == if IndexOf(bag, item.name).None? then Some(item) else Find(bag, item.name)
  {
    if IndexOf(bag, item.name).None? {
      IndexOfAppended(bag, item);
    } else {
      IndexOfPrefix(bag, [item], item.name);
    }
  }

  lemma {:induction false} IndexOfPrefix(a: seq<Prop>, b: seq<Prop>, name: string)
    requires IndexOf(a, name).Some?
    ensures IndexOf(a + b, name) == IndexOf(a, name)
    decreases |a|
  {
    assert (a + b)[1..] == a[1..] + b;
    if a[0].name != name {
      IndexOfPrefix(a[1..], b, name);
    }
  }

  /** A stored item is found under its path exactly when its name was still free in that bag. */
  lemma StoreThenFind(bag: seq<Prop>, comps: seq<string>, item: Prop, sep: string, next: nat)
    requires GoodNames(comps, sep) && GoodName(item.name, sep) && Target(bag, comps).Some?
    requires forall i | 0 <= i < |Target(bag, comps).value| :: Target(bag, comps).value[i].id != item.id
    ensures sep != ""
    ensures var r := StoreProperty(bag, Join(comps, sep), item, sep, next);
      && r.ok
      && (FindProperty(r.bag, Join(comps + [item.name], sep), sep) == Some(item)
          <==> IndexOf(Target(bag, comps).value, item.name).None?)
  {
    FirstSeparator(item.name, sep, "");
    var d := Target(bag, comps).value;
    StoreEdits(bag, comps, item, sep, next);
    RemoveAbsent(d, item.id);
    FindInEdit(bag, comps, d + [item], next, item.name, sep);
    FindAppended(d, item);
  }

  // ---------------------------------------------------------------- remove

  datatype Removed = Removed(ok: bool, bag: seq<Prop>)

  /** `bag.removeProperty(bag.find(name))`. */
  function RemoveNamed(bag: seq<Prop>, name: string): Removed {
    var i := IndexOf(bag, name);
    if i.None? then Removed(false, bag) else Removed(true, RemoveId(bag, bag[i.value].id))
  }

  /** Remove a name from the bag that `findProperty(bag, prefix)` finds. */
  function RemoveBelow(bag: seq<Prop>, prefix: string, sep: string, name: string): Removed
    decreases bag
  {
    var split := SplitPath(prefix, sep);
    var i := IndexOf(bag, split.token);
    if i.None? || bag[i.value].Leaf? then Removed(false, bag)
    else
      var r := if split.rest.Some? then RemoveBelow(bag[i.value].props, split.rest.value, sep, name)
               else RemoveNamed(bag[i.value].props, name);
      Removed(r.ok, bag[i.value := bag[i.value].(props := r.bag)])
  }

  /** `removeProperty`; the parent is looked up with the default separator. */
  function RemoveProperty(bag: seq<Prop>, path: string, sep: string): Removed {
    if path == "" || path == sep then Removed(false, bag)
    else if FindSub(path, sep, 0).None? then RemoveNamed(bag, path)
    else
      var k := FindLast(path, sep, |path|);
      if k.None? then Removed(false, bag)
      else
        var prefix, pname := path[..k.value], path[k.value + |sep|..];
        if prefix == "" then RemoveNamed(bag, pname) else RemoveBelow(bag, prefix, ".", pname)
  }

  lemma {:induction false} RemoveIdAt(bag: seq<Prop>, i: nat)
    requires i < |bag| && forall j | 0 <= j < i :: bag[j].id != bag[i].id
    ensures RemoveId(bag, bag[i].id) == bag[..i] + bag[i + 1..]
    decreases |bag|
  {
    if i > 0 {
      RemoveIdAt(bag[1..], i - 1);
      assert bag[1..][..i - 1] == bag[1..i] && bag[1..][i..] == bag[i + 1..];
    }
  }

  lemma RemoveAppended(bag: seq<Prop>, item: Prop)
    requires IndexOf(bag, item.name).None? && forall i | 0 <= i < |bag| :: bag[i].id != item.id
    ensures RemoveNamed(bag + [item], item.name) == Removed(true, bag)
  {
    IndexOfAppended(bag, item);
    RemoveIdAt(bag + [item], |bag|);
  }

  lemma DotAt(s: string, i: nat)
    ensures OccursAt(s, ".", i) <==> i < |s| && s[i] == '.'
  {
    if i < |s| {
      assert s[i..i + 1] == [s[i]];
    }
  }

  lemma LastDotAt(prefix: string, name: string)
    requires GoodName(name, ".")
    ensures var path := prefix + "." + name; FindLast(path, ".", |path|) == Some(|prefix|)
  {
    var path, k := prefix + "." + name, |prefix|;
    FirstSeparator(name, ".", "");
    DotAt(path, k);
    forall i | k < i <= |path| ensures !OccursAt(path, ".", i) {
      DotAt(path, i);
      DotAt(name, i - k - 1);
    }
  }

  lemma RemoveByPath(bag: seq<Prop>, comps: seq<string>, name: string)
    requires GoodNames(comps, ".") && GoodName(name, ".")
    ensures RemoveProperty(bag, Join(comps + [name], "."), ".")
         == if comps == [] then RemoveNamed(bag, name) else RemoveBelow(bag, Join(comps, "."), ".", name)
  {
    var path := Join(comps + [name], ".");
    JoinSplits(comps + [name], ".");
    if comps == [] {
      FirstSeparator(name, ".", "");
    } else {
      JoinSplits(comps, ".");
      JoinEnd(comps, name, ".");
      var prefix := Join(comps, ".");
      LastDotAt(prefix, name);
      assert path[..|prefix|] == prefix && path[|prefix| + 1..] == name;
    }
  }

  lemma {:induction false} JoinEnd(comps: seq<string>, name: string, sep: string)
    requires comps != []
    ensures Join(comps + [name], sep) == Join(comps, sep) + sep + name
    decreases |comps|
  {
    if |comps| > 1 {
      assert (comps + [name])[1..] == comps[1..] + [name];
      JoinEnd(comps[1..], name, sep);
      var (first, rest) := (comps[0], Join(comps[1..], sep));
      assert first + sep + (rest + sep + name) == (first + sep + rest) + sep + name;
    }
  }

  /** One level of removing below an edited bag. */
  lemma RemoveOneLevel(bag: seq<Prop>, comps: seq<string>, content: seq<Prop>, next: nat, name: string, inner: Removed)
    requires comps != [] && GoodNames(comps, ".") && Target(bag, comps).Some?
    requires var e := Edit(bag, comps, content, next);
      IndexOf(e, comps[0]).Some? && e[IndexOf(e, comps[0]).value].Bag? &&
      inner == if |comps| == 1 then RemoveNamed(e[IndexOf(e, comps[0]).value].props, name)
               else RemoveBelow(e[IndexOf(e, comps[0]).value].props, Join(comps[1..], "."), ".", name)
    ensures var e := Edit(bag, comps, content, next);
      var i := IndexOf(e, comps[0]).value;
      RemoveBelow(e, Join(comps, "."), ".", name) == Removed(inner.ok, e[i := e[i].(props := inner.bag)])
  {
    if |comps| == 1 {
      SplitName(comps[0], ".");
    } else {
      JoinSplits(comps[1..], ".");
      SplitNested(comps[0], ".", Join(comps[1..], "."));
    }
  }

  lemma {:induction false} RemoveInEdit(bag: seq<Prop>, comps: seq<string>, content: seq<Prop>, next: nat, name: string)
    requires comps != [] && GoodNames(comps, ".") && Target(bag, comps).Some?
    ensures var r := RemoveNamed(content, name);
      RemoveBelow(Edit(bag, comps, content, next), Join(comps, "."), ".", name)
      == Removed(r.ok, Edit(bag, comps, r.bag, next))
    decreases |comps|
  {
    hide RemoveNamed, RemoveBelow, Join, GoodName;
    IndexInEdit(bag, comps, content, next);
    var i := IndexOf(bag, comps[0]);
    var r := RemoveNamed(content, name);
    var (props, deeper) := if i.None? then ([], next + 1) else (bag[i.value].props, next);
    TargetOfEmpty(comps[1..]);
    if |comps| > 1 {
      RemoveInEdit(props, comps[1..], content, deeper, name);
    }
    RemoveOneLevel(bag, comps, content, next, name, Removed(r.ok, Edit(props, comps[1..], r.bag, deeper)));
  }

  /** Every component leads to an existing bag. */
  predicate Exists(bag: seq<Prop>, comps: seq<string>)
    decreases |comps|
  {
    comps == [] ||
    (IndexOf(bag, comps[0]).Some? && bag[IndexOf(bag, comps[0]).value].Bag?
     && Exists(bag[IndexOf(bag, comps[0]).value].props, comps[1..]))
  }

  lemma {:induction false} EditNothing(bag: seq<Prop>, comps: seq<string>, next: nat)
    requires Exists(bag, comps)
    ensures Target(bag, comps).Some? && Edit(bag, comps, Target(bag, comps).value, next) == bag
    decreases |comps|
  {
    if comps != [] {
      EditNothing(bag[IndexOf(bag, comps[0]).value].props, comps[1..], next);
    }
  }

  /** Removing the item just appended to the bag a path leads to leaves that bag as it was. */
  lemma RemoveFromEdit(bag: seq<Prop>, comps: seq<string>, item: Prop, next: nat)
    requires GoodNames(comps, ".") && GoodName(item.name, ".") && Target(bag, comps).Some?
    requires IndexOf(Target(bag, comps).value, item.name).None?
    requires forall i | 0 <= i < |Target(bag, comps).value| :: Target(bag, comps).value[i].id != item.id
    ensures var d := Target(bag, comps).value;
      RemoveProperty(Edit(bag, comps, d + [item], next), Join(comps + [item.name], "."), ".")
      == Removed(true, Edit(bag, comps, d, next))
  {
    var d := Target(bag, comps).value;
    RemoveAppended(d, item);
    RemoveByPath(Edit(bag, comps, d + [item], next), comps, item.name);
    if comps != [] {
      RemoveInEdit(bag, comps, d + [item], next, item.name);
    }
  }

  /** Removing undoes storing: the item cannot be found any more, and where the path's bags
      existed before, the tree is the one from before. */
  lemma RemoveUndoesStore(bag: seq<Prop>, comps: seq<string>, item: Prop, next: nat)
    requires GoodNames(comps, ".") && GoodName(item.name, ".") && Target(bag, comps).Some?
    requires IndexOf(Target(bag, comps).value, item.name).None?
    requires forall i | 0 <= i < |Target(bag, comps).value| :: Target(bag, comps).value[i].id != item.id
    ensures var stored := StoreProperty(bag, Join(comps, "."), item, ".", next).bag;
      var path := Join(comps + [item.name], ".");
      var r := RemoveProperty(stored, path, ".");
      && r.ok && FindProperty(r.bag, path, ".").None?
      && (Exists(bag, comps) ==> r.bag == bag)
  {
    var d := Target(bag, comps).value;
    StoreEdits(bag, comps, item, ".", next);
    RemoveAbsent(d, item.id);
    RemoveFromEdit(bag, comps, item, next);
    FindInEdit(bag, comps, d, next, item.name, ".");
    if Exists(bag, comps) {
      EditNothing(bag, comps, next);
    }
  }

  // ---------------------------------------------------------------- what a removal leaves alone

  lemma {:induction false} FailedRemoveBelow(bag: seq<Prop>, prefix: string, sep: string, name: string)
    requires !RemoveBelow(bag, prefix, sep, name).ok
    ensures RemoveBelow(bag, prefix, sep, name).bag == bag
    decreases bag
  {
    var split := SplitPath(prefix, sep);
    var i := IndexOf(bag, split.token);
    if i.Some? && bag[i.value].Bag? && split.rest.Some? {
      FailedRemoveBelow(bag[i.value].props, split.rest.value, sep, name);
    }
  }

  /** A failed removal leaves the whole tree as it was, whatever the path and the separator. */
  lemma FailedRemoveChangesNothing(bag: seq<Prop>, path: string, sep: string)
    requires !RemoveProperty(bag, path, sep).ok
    ensures RemoveProperty(bag, path, sep).bag == bag
  {
    var k := FindLast(path, sep, |path|);
    if k.Some? && !RemoveBelow(bag, path[..k.value], ".", path[k.value + |sep|..]).ok {
      FailedRemoveBelow(bag, path[..k.value], ".", path[k.value + |sep|..]);
    }
  }

  /** The property that is removed. */
  function VictimBelow(bag: seq<Prop>, prefix: string, sep: string, name: string): (v: Option<Prop>)
    ensures v.Some? <==> RemoveBelow(bag, prefix, sep, name).ok
    decreases bag
  {
    var split := SplitPath(prefix, sep);
    var i := IndexOf(bag, split.token);
    if i.None? || bag[i.value].Leaf? then None
    else if split.rest.Some? then VictimBelow(bag[i.value].props, split.rest.value, sep, name)
    else Find(bag[i.value].props, name)
  }

  function Victim(bag: seq<Prop>, path: string, sep: string): (v: Option<Prop>)
    ensures v.Some? <==> RemoveProperty(bag, path, sep).ok
  {
    if path == "" || path == sep then None
    else if FindSub(path, sep, 0).None? then Find(bag, path)
    else
      var k := FindLast(path, sep, |path|);
      if k.None? then None
      else
        var prefix, pname := path[..k.value], path[k.value + |sep|..];
        if prefix == "" then Find(bag, pname) else VictimBelow(bag, prefix, ".", pname)
  }

  /** The lookup of a path comes by the property with address `id`, or ends there. */
  predicate Meets(bag: seq<Prop>, path: string, sep: string, id: nat)
    decreases bag
  {
    var split := SplitPath(path, sep);
    var i := IndexOf(bag, split.token);
    i.Some? && (bag[i.value].id == id
                || (bag[i.value].Bag? && split.rest.Some? && Meets(bag[i.value].props, split.rest.value, sep, id)))
  }

  /** The same property was found, or none both times; what is in a bag may differ. */
  predicate Alike(a: Option<Prop>, b: Option<Prop>) {
    match (a, b)
    case (None, None) => true
    case (Some(p), Some(q)) =>
      p == q || (p.Bag? && q.Bag? && p.id == q.id && p.name == q.name)
    case _ => false
  }

  lemma FindStep(bag: seq<Prop>, name: string)
    requires bag != []
    ensures Find(bag, name) == if bag[0].name == name then Some(bag[0]) else Find(bag[1..], name)
  {
  }

  lemma {:induction false} RemoveIdKeepsFind(bag: seq<Prop>, id: nat, name: string)
    requires Find(bag, name).Some? ==> Find(bag, name).value.id != id
    ensures Find(RemoveId(bag, id), name) == Find(bag, name)
    decreases |bag|
  {
    hide Find;
    if bag != [] {
      FindStep(bag, name);
      if bag[0].id != id {
        var r := RemoveId(bag, id);
        FindStep(r, name);
        assert r[1..] == RemoveId(bag[1..], id);
        if bag[0].name != name {
          RemoveIdKeepsFind(bag[1..], id, name);
        }
      }
    }
  }

  lemma RemoveIdKeepsLookup(bag: seq<Prop>, id: nat, path: string, sep: string)
    requires !Meets(bag, path, sep, id)
    ensures FindProperty(RemoveId(bag, id), path, sep) == FindProperty(bag, path, sep)
  {
    RemoveIdKeepsFind(bag, id, SplitPath(path, sep).token);
  }

  lemma {:induction false} RemoveBelowKeepsLookup(bag: seq<Prop>, prefix: string, dot: string, name: string,
                                                  path: string, sep: string)
    requires VictimBelow(bag, prefix, dot, name).Some?
    requires !Meets(bag, path, sep, VictimBelow(bag, prefix, dot, name).value.id)
    ensures Alike(FindProperty(RemoveBelow(bag, prefix, dot, name).bag, path, sep), FindProperty(bag, path, sep))
    decreases bag
  {
    var split, other := SplitPath(prefix, dot), SplitPath(path, sep);
    var i := IndexOf(bag, split.token).value;
    var after := RemoveBelow(bag, prefix, dot, name).bag;
    IndexOfSameNames(bag, after, other.token);
    if IndexOf(bag, other.token) == Some(i) && other.rest.Some? {
      if split.rest.Some? {
        RemoveBelowKeepsLookup(bag[i].props, split.rest.value, dot, name, other.rest.value, sep);
      } else {
        RemoveIdKeepsLookup(bag[i].props, Find(bag[i].props, name).value.id, other.rest.value, sep);
      }
    }
  }

  /** A removal changes no lookup, under any path and separator, that does not come by the property
      removed: it finds the same property as before, or nothing as before. */
  lemma RemoveKeepsLookups(bag: seq<Prop>, path: string, sep: string, other: string, osep: string)
    requires var v := Victim(bag, path, sep); v.Some? ==> !Meets(bag, other, osep, v.value.id)
    ensures Alike(FindProperty(RemoveProperty(bag, path, sep).bag, other, osep), FindProperty(bag, other, osep))
  {
    hide Meets, Alike, VictimBelow, RemoveBelow, FindProperty;
    AlikeSame(FindProperty(bag, other, osep));
    if Victim(bag, path, sep).None? {
      FailedRemoveChangesNothing(bag, path, sep);
    } else {
      var v := Victim(bag, path, sep).value;
      var k := FindLast(path, sep, |path|);
      if FindSub(path, sep, 0).None? || path[..k.value] == "" {
        RemoveIdKeepsLookup(bag, v.id, other, osep);
      } else {
        RemoveBelowKeepsLookup(bag, path[..k.value], ".", path[k.value + |sep|..], other, osep);
      }
    }
  }

  lemma AlikeSame(a: Option<Prop>)
    ensures Alike(a, a)
  {
  }

  // ---------------------------------------------------------------- separators other than "."

  /** A separator put before `name` is found there and nowhere later. */
  predicate LastSepFree(name: string, sep: string) {
    FindLast(sep + name, sep, |sep + name|) == Some(0)
  }

  lemma LastSeparatorAt(prefix: string, sep: string, name: string)
    requires LastSepFree(name, sep)
    ensures var path := prefix + sep + name; FindLast(path, sep, |path|) == Some(|prefix|)
  {
    var path, last := prefix + sep + name, sep + name;
    forall i | 0 <= i <= |last| ensures OccursAt(path, sep, |prefix| + i) <==> OccursAt(last, sep, i) {
      if i + |sep| <= |last| {
        assert path[|prefix| + i..|prefix| + i + |sep|] == last[i..i + |sep|];
      }
    }
    forall j | |prefix| < j <= |path| ensures !OccursAt(path, sep, j) {
      assert !OccursAt(last, sep, j - |prefix|);
    }
    assert OccursAt(last, sep, 0);
  }

  /** The parent of the property is looked up with "." although the path was split with `sep`: its path
      becomes one name. */
  lemma ParentIsOneName(bag: seq<Prop>, comps: seq<string>, name: string, sep: string)
    requires comps != [] && GoodNames(comps, sep) && GoodName(name, sep) && LastSepFree(name, sep)
    requires FindSub(Join(comps, sep), ".", 0).None?
    ensures var parent := Join(comps, sep); var i := IndexOf(bag, parent);
      RemoveProperty(bag, Join(comps + [name], sep), sep).ok
      <==> i.Some? && bag[i.value].Bag? && IndexOf(bag[i.value].props, name).Some?
  {
    hide Join, LastSepFree, GoodName, IndexOf;
    var prefix, path := Join(comps, sep), Join(comps + [name], sep);
    assert GoodNames(comps + [name], sep);
    JoinSplits(comps, sep);
    JoinSplits(comps + [name], sep);
    JoinEnd(comps, name, sep);
    LastSeparatorAt(prefix, sep, name);
    assert path[..|prefix|] == prefix && path[|prefix| + |sep|..] == name;
    SplitPlain(prefix, ".");
  }

  /** Where no name contains the separator or a ".": what `findProperty` finds under a path can be
      removed under that path and separator if and only if it is at the top level or in a bag there. */
  lemma SeparatorNotPassedOn(bag: seq<Prop>, comps: seq<string>, name: string, sep: string)
    requires GoodNames(comps, sep) && GoodName(name, sep) && LastSepFree(name, sep)
    requires comps != [] ==> FindSub(Join(comps, sep), ".", 0).None?
    requires forall i | 0 <= i < |bag| :: FindSub(bag[i].name, sep, 0).None?
    requires Exists(bag, comps) && Target(bag, comps).Some? && IndexOf(Target(bag, comps).value, name).Some?
    ensures FindProperty(bag, Join(comps + [name], sep), sep) == Find(Target(bag, comps).value, name)
    ensures RemoveProperty(bag, Join(comps + [name], sep), sep).ok <==> |comps| <= 1
  {
    hide FindProperty, RemoveProperty, Edit, Join, GoodName, LastSepFree;
    EditNothing(bag, comps, 0);
    FindInEdit(bag, comps, Target(bag, comps).value, 0, name, sep);
    if comps == [] {
      TopLevelIsRemoved(bag, name, sep);
    } else {
      ParentIsOneName(bag, comps, name, sep);
      ParentAtTopLevel(bag, comps, sep);
    }
  }

  lemma TopLevelIsRemoved(bag: seq<Prop>, name: string, sep: string)
    requires GoodName(name, sep) && IndexOf(bag, name).Some?
    ensures RemoveProperty(bag, Join([] + [name], sep), sep).ok
  {
    FirstSeparator(name, sep, "");
    assert OccursAt(sep, sep, 0);
    assert [] + [name] == [name];
  }

  lemma ParentAtTopLevel(bag: seq<Prop>, comps: seq<string>, sep: string)
    requires comps != [] && GoodNames(comps, sep) && forall i | 0 <= i < |bag| :: FindSub(bag[i].name, sep, 0).None?
    ensures |comps| > 1 ==> IndexOf(bag, Join(comps, sep)).None?
    ensures |comps| == 1 ==> Join(comps, sep) == comps[0] && comps[1..] == []
  {
    JoinSplits(comps, sep);
    hide GoodName;
  }

  /** For instance "a/b/x": it is found and cannot be removed. */
  lemma SlashNotPassedOn(x: Prop)
    requires x.name == "x"
    ensures var bag := [Bag(0, "a", [Bag(1, "b", [x])])];
      FindProperty(bag, Join(["a", "b", "x"], "/"), "/") == Some(x)
      && !RemoveProperty(bag, Join(["a", "b", "x"], "/"), "/").ok
  {
    var bag := [Bag(0, "a", [Bag(1, "b", [x])])];
    var comps := ["a", "b"];
    TwoLevels(x, "a", "b");
    SlashNames();
    OneLetter('x');
    OneLetter('a');
    hide *;
    assert ["a", "b"] + ["x"] == ["a", "b", "x"];
    SeparatorNotPassedOn(bag, comps, "x", "/");
  }

  lemma TwoLevels(x: Prop, a: string, b: string)
    ensures var bag := [Bag(0, a, [Bag(1, b, [x])])];
      && Exists(bag, [a, b]) && Target(bag, [a, b]) == Some([x])
      && IndexOf([x], x.name).Some? && Find([x], x.name) == Some(x)
  {
    var comps, inner := [a, b], [Bag(1, b, [x])];
    assert comps[1..] == [b];
    OneLevel([x], 1, b);
    assert IndexOf([Bag(0, a, inner)], a) == Some(0);
  }

  lemma OneLevel(props: seq<Prop>, id: nat, name: string)
    ensures var bag := [Bag(id, name, props)]; Exists(bag, [name]) && Target(bag, [name]) == Some(props)
  {
    var bag, comps := [Bag(id, name, props)], [name];
    assert comps[0] == name && comps[1..] == [];
    assert IndexOf(bag, name) == Some(0) && bag[0].props == props;
    assert Exists(props, []) && Target(props, []) == Some(props);
  }

  lemma SlashNames()
    ensures GoodNames(["a", "b"], "/") && Join(["a", "b"], "/") == "a/b" && FindSub("a/b", ".", 0).None?
  {
    OneLetter('a');
    OneLetter('b');
    hide GoodName, LastSepFree;
    assert ["a", "b"][1..] == ["b"];
    forall i: nat ensures !OccursAt("a/b", ".", i) {
      DotAt("a/b", i);
    }
  }

  lemma OneLetter(c: char)
    requires c != '/'
    ensures GoodName([c], "/") && LastSepFree([c], "/") && FindSub([c], "/", 0).None?
  {
    SlashAt([c] + "/");
    SlashAt([c]);
    SlashFirst(c);
  }

  lemma SlashFirst(c: char)
    requires c != '/'
    ensures LastSepFree([c], "/")
  {
    var s := "/" + [c];
    SlashAt(s);
    assert s[0] == '/' && s[1] == c && |s| == 2;
    assert OccursAt(s, "/", 0) && !OccursAt(s, "/", 1) && !OccursAt(s, "/", 2);
  }

  lemma SlashAt(s: string)
    ensures forall i: nat :: OccursAt(s, "/", i) <==> i < |s| && s[i] == '/'
  {
    forall i: nat | i < |s| ensures s[i..i + 1] == [s[i]] {
    }
  }

  // ---------------------------------------------------------------- what edits do to the listing

  /** The paths listed for a bag whose own path is `prefix`. */
  function Names(bag: seq<Prop>, sep: string, prefix: string): seq<string> { Paths(Listing(bag, sep, prefix)) }

  /** The paths listed for one property. */
  function NamesOf(p: Prop, sep: string, prefix: string): seq<string> {
    var itemname := ItemName(prefix, sep, p.name);
    [itemname] + (if p.Bag? then Names(p.props, sep, itemname) else [])
  }

  lemma PathsOfFirst(bag: seq<Prop>, sep: string, prefix: string)
    requires bag != []
    ensures Paths(EntriesAt(bag, sep, prefix, 0)) == NamesOf(bag[0], sep, prefix)
  {
    hide Listing;
  }

  lemma NamesHead(bag: seq<Prop>, sep: string, prefix: string)
    requires bag != []
    ensures Names(bag, sep, prefix) == NamesOf(bag[0], sep, prefix) + Names(bag[1..], sep, prefix)
  {
    assert bag[0..] == bag;
    PathsOfFirst(bag, sep, prefix);
    hide Listing, EntriesAt, NamesOf;
    ListingStep(bag, sep, prefix, 0);
  }

  lemma NamesNothing(sep: string, prefix: string)
    ensures Names([], sep, prefix) == []
  {
  }

  lemma {:induction false} NamesJoin(a: seq<Prop>, b: seq<Prop>, sep: string, prefix: string)
    ensures Names(a + b, sep, prefix) == Names(a, sep, prefix) + Names(b, sep, prefix)
    decreases |a|
  {
    hide Names, NamesOf;
    if a == [] {
      assert a + b == b;
      NamesNothing(sep, prefix);
    } else {
      assert (a + b)[1..] == a[1..] + b;
      NamesHead(a + b, sep, prefix);
      NamesHead(a, sep, prefix);
      NamesJoin(a[1..], b, sep, prefix);
    }
  }

  lemma NamesOfOne(p: Prop, sep: string, prefix: string)
    ensures Names([p], sep, prefix) == NamesOf(p, sep, prefix)
  {
    NamesHead([p], sep, prefix);
    assert [p][1..] == [];
    NamesNothing(sep, prefix);
  }

  /** Erasing one property of a bag removes what was listed for it. */
  lemma NamesWithout(bag: seq<Prop>, i: nat, sep: string, prefix: string)
    requires i < |bag|
    ensures multiset(Names(bag, sep, prefix))
         == multiset(Names(bag[..i] + bag[i + 1..], sep, prefix)) + multiset(NamesOf(bag[i], sep, prefix))
  {
    hide Names, NamesOf;
    assert bag == (bag[..i] + [bag[i]]) + bag[i + 1..];
    NamesOfOne(bag[i], sep, prefix);
    NamesJoin(bag[..i] + [bag[i]], bag[i + 1..], sep, prefix);
    NamesJoin(bag[..i], [bag[i]], sep, prefix);
    NamesJoin(bag[..i], bag[i + 1..], sep, prefix);
  }

  /** Replacing one property of a bag. */
  lemma NamesReplaced(bag: seq<Prop>, i: nat, p: Prop, sep: string, prefix: string)
    requires i < |bag|
    ensures multiset(Names(bag[i := p], sep, prefix)) + multiset(NamesOf(bag[i], sep, prefix))
         == multiset(Names(bag, sep, prefix)) + multiset(NamesOf(p, sep, prefix))
  {
    hide Names, NamesOf;
    NamesWithout(bag, i, sep, prefix);
    NamesWithout(bag[i := p], i, sep, prefix);
    assert bag[i := p][..i] == bag[..i] && bag[i := p][i + 1..] == bag[i + 1..];
  }

  /** The path of the bag that the components lead to. */
  function PathOf(comps: seq<string>, sep: string, prefix: string): string
    decreases |comps|
  {
    if comps == [] then prefix else PathOf(comps[1..], sep, ItemName(prefix, sep, comps[0]))
  }

  lemma {:induction false} PathIsJoin(comps: seq<string>, sep: string, prefix: string)
    requires forall i | 0 <= i < |comps| :: comps[i] != ""
    ensures PathOf(comps, sep, prefix) == if comps == [] then prefix else ItemName(prefix, sep, Join(comps, sep))
    decreases |comps|
  {
    if |comps| > 1 {
      var (first, rest) := (comps[0], Join(comps[1..], sep));
      PathIsJoin(comps[1..], sep, ItemName(prefix, sep, first));
      assert prefix + sep + first + sep + rest == prefix + sep + (first + sep + rest);
    }
  }

  /** The paths of the bags that an edit has to create on its way. */
  function Created(bag: seq<Prop>, comps: seq<string>, sep: string, prefix: string): seq<string>
    decreases |comps|
  {
    if comps == [] then []
    else
      var itemname := ItemName(prefix, sep, comps[0]);
      var i := IndexOf(bag, comps[0]);
      if i.None? then [itemname] + Created([], comps[1..], sep, itemname)
      else if bag[i.value].Leaf? then []
      else Created(bag[i.value].props, comps[1..], sep, itemname)
  }

  /** An edit lists the new contents in place of the old ones, and the bags it created. */
  lemma {:induction false} EditListing(bag: seq<Prop>, comps: seq<string>, content: seq<Prop>, next: nat,
                                       sep: string, prefix: string)
    requires Target(bag, comps).Some?
    ensures var path := PathOf(comps, sep, prefix);
      multiset(Names(Edit(bag, comps, content, next), sep, prefix))
        + multiset(Names(Target(bag, comps).value, sep, path))
      == multiset(Names(bag, sep, prefix)) + multiset(Created(bag, comps, sep, prefix))
         + multiset(Names(content, sep, path))
    decreases |comps|
  {
    hide Names;
    if comps != [] {
      var i := IndexOf(bag, comps[0]);
      var itemname := ItemName(prefix, sep, comps[0]);
      TargetOfEmpty(comps[1..]);
      if i.None? {
        var p := Bag(next, comps[0], Edit([], comps[1..], content, next + 1));
        EditListing([], comps[1..], content, next + 1, sep, itemname);
        NamesNothing(sep, itemname);
        NamesNothing(sep, PathOf(comps, sep, prefix));
        NamesJoin(bag, [p], sep, prefix);
        NamesOfOne(p, sep, prefix);
        assert Names(bag + [p], sep, prefix) == Names(bag, sep, prefix) + ([itemname] + Names(p.props, sep, itemname));
        var path := PathOf(comps, sep, prefix);
        Cancel(multiset(Names(p.props, sep, itemname)),
               multiset(Created([], comps[1..], sep, itemname)) + multiset(Names(content, sep, path)),
               multiset(Names([], sep, path)));
      } else {
        var b := bag[i.value];
        var p := b.(props := Edit(b.props, comps[1..], content, next));
        EditListing(b.props, comps[1..], content, next, sep, itemname);
        NamesReplaced(bag, i.value, p, sep, prefix);
        var path := PathOf(comps, sep, prefix);
        assert multiset(NamesOf(b, sep, prefix)) == multiset{itemname} + multiset(Names(b.props, sep, itemname));
        assert multiset(NamesOf(p, sep, prefix)) == multiset{itemname} + multiset(Names(p.props, sep, itemname));
        Exchange(multiset(Names(bag[i.value := p], sep, prefix)), multiset(Names(bag, sep, prefix)), multiset{itemname},
                 multiset(Names(b.props, sep, itemname)), multiset(Names(p.props, sep, itemname)),
                 multiset(Names(Target(bag, comps).value, sep, path)),
                 multiset(Created(bag, comps, sep, prefix)) + multiset(Names(content, sep, path)));
      }
    }
  }

  /** When `u` gives way to `v` beside the same `n`, the whole loses and gains what `v` does. */
  lemma Exchange(after: multiset<string>, before: multiset<string>, n: multiset<string>, u: multiset<string>,
                 v: multiset<string>, lost: multiset<string>, gained: multiset<string>)
    requires after + (n + u) == before + (n + v) && v + lost == u + gained
    ensures after + lost == before + gained
  {
    forall x ensures (after + lost)[x] == (before + gained)[x] {
      assert (after + (n + u))[x] == (before + (n + v))[x];
      assert (v + lost)[x] == (u + gained)[x];
    }
  }

  lemma Cancel(a: multiset<string>, b: multiset<string>, c: multiset<string>)
    requires a + c == b + c
    ensures a == b
  {
    assert a == (a + c) - c && b == (b + c) - c;
  }

  lemma JoinIsPath(comps: seq<string>, sep: string)
    requires GoodNames(comps, sep)
    ensures PathOf(comps, sep, "") == Join(comps, sep)
  {
    forall i | 0 <= i < |comps| ensures comps[i] != "" {
      assert GoodName(comps[i], sep);
    }
    PathIsJoin(comps, sep, "");
  }

  /** A store lists nothing new but the bags it created and the item with what is in it. */
  lemma StoreListing(bag: seq<Prop>, comps: seq<string>, item: Prop, sep: string, next: nat)
    requires sep != "" && GoodNames(comps, sep) && Target(bag, comps).Some?
    requires forall i | 0 <= i < |Target(bag, comps).value| :: Target(bag, comps).value[i].id != item.id
    ensures multiset(ListProperties(StoreProperty(bag, Join(comps, sep), item, sep, next).bag, sep))
         == multiset(ListProperties(bag, sep)) + multiset(Created(bag, comps, sep, ""))
            + multiset(NamesOf(item, sep, Join(comps, sep)))
  {
    hide Names, NamesOf, Created, Edit, Target, GoodNames, Join, PathOf, StoreProperty;
    var d, path := Target(bag, comps).value, Join(comps, sep);
    StoreEdits(bag, comps, item, sep, next);
    RemoveAbsent(d, item.id);
    EditListing(bag, comps, d + [item], next, sep, "");
    JoinIsPath(comps, sep);
    NamesJoin(d, [item], sep, path);
    NamesOfOne(item, sep, path);
    ListedNames(bag, sep);
    ListedNames(Edit(bag, comps, d + [item], next), sep);
    Cancel(multiset(Names(Edit(bag, comps, d + [item], next), sep, "")),
           multiset(Names(bag, sep, "")) + multiset(Created(bag, comps, sep, "")) + multiset(NamesOf(item, sep, path)),
           multiset(Names(d, sep, path)));
  }

  lemma ListedNames(bag: seq<Prop>, sep: string)
    ensures ListProperties(bag, sep) == Names(bag, sep, "")
  {
  }

  lemma {:induction false} NothingCreated(bag: seq<Prop>, comps: seq<string>, sep: string, prefix: string)
    requires Exists(bag, comps)
    ensures Created(bag, comps, sep, prefix) == []
    decreases |comps|
  {
    if comps != [] {
      NothingCreated(bag[IndexOf(bag, comps[0]).value].props, comps[1..], sep, ItemName(prefix, sep, comps[0]));
    }
  }

  /** An address is that of one property only. */
  predicate OneEach(bag: seq<Prop>) {
    forall i, j | 0 <= i < |bag| && 0 <= j < |bag| && bag[i].id == bag[j].id :: bag[i] == bag[j]
  }

  /** Removing a path removes exactly what was listed for the property of that path, and fails,
      changing nothing, exactly when the bag does not have it. */
  lemma RemoveListing(bag: seq<Prop>, comps: seq<string>, name: string)
    requires GoodNames(comps, ".") && GoodName(name, ".") && Exists(bag, comps)
    requires Target(bag, comps).Some? && OneEach(Target(bag, comps).value)
    ensures var d := Target(bag, comps).value;
      var r := RemoveProperty(bag, Join(comps + [name], "."), ".");
      && (r.ok <==> IndexOf(d, name).Some?)
      && (!r.ok ==> r.bag == bag)
      && (r.ok ==>
            multiset(ListProperties(bag, "."))
            == multiset(ListProperties(r.bag, "."))
               + multiset(NamesOf(d[IndexOf(d, name).value], ".", Join(comps, "."))))
  {
    hide Names, NamesOf, Created, Edit, Target, Exists, GoodNames, GoodName, Join, PathOf, RemoveProperty, RemoveBelow;
    var d, path := Target(bag, comps).value, Join(comps, ".");
    var r := RemoveNamed(d, name);
    var rest := Edit(bag, comps, r.bag, 0);
    RemoveFromExisting(bag, comps, name);
    EditListing(bag, comps, r.bag, 0, ".", "");
    NothingCreated(bag, comps, ".", "");
    JoinIsPath(comps, ".");
    ListedNames(bag, ".");
    ListedNames(rest, ".");
    if r.ok {
      var i := IndexOf(d, name).value;
      RemoveIdAt(d, i);
      NamesWithout(d, i, ".", path);
      assert r.bag == d[..i] + d[i + 1..];
      assert multiset(Names(rest, ".", "")) + multiset(Names(d, ".", path))
          == multiset(Names(bag, ".", "")) + multiset(Names(r.bag, ".", path));
      Cancel(multiset(Names(bag, ".", "")),
             multiset(Names(rest, ".", "")) + multiset(NamesOf(d[i], ".", path)),
             multiset(Names(r.bag, ".", path)));
    }
  }

  /** Removing a path whose bags exist edits the bag it leads to. */
  lemma RemoveFromExisting(bag: seq<Prop>, comps: seq<string>, name: string)
    requires GoodNames(comps, ".") && GoodName(name, ".") && Exists(bag, comps)
    ensures Target(bag, comps).Some?
    ensures var r := RemoveNamed(Target(bag, comps).value, name);
      && RemoveProperty(bag, Join(comps + [name], "."), ".") == Removed(r.ok, Edit(bag, comps, r.bag, 0))
      && (!r.ok ==> Edit(bag, comps, r.bag, 0) == bag)
  {
    EditNothing(bag, comps, 0);
    var d := Target(bag, comps).value;
    RemoveByPath(bag, comps, name);
    if comps != [] {
      RemoveInEdit(bag, comps, d, 0, name);
    }
  }
}
