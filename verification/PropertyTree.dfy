/** Property bags of rtt/PropertyBag.cpp as trees: looking up and listing paths. */
module PropertyTree {
  import opened Options

  /** A property; `id` stands for its address, `tag` for the type of a value that is no bag. */
  datatype Prop = Leaf(id: nat, name: string, tag: nat, value: int)
                | Bag(id: nat, name: string, props: seq<Prop>)

  // ---------------------------------------------------------------- strings

  predicate OccursAt(s: string, sub: string, i: nat) {
    i + |sub| <= |s| && s[i..i + |sub|] == sub
  }

  /** `s.find(sub, start)`: the first occurrence at or after `start`. */
  function FindSub(s: string, sub: string, start: nat): (r: Option<nat>)
    ensures r.Some? ==> start <= r.value && OccursAt(s, sub, r.value)
                        && forall i | start <= i < r.value :: !OccursAt(s, sub, i)
    ensures r.None? ==> forall i | start <= i :: !OccursAt(s, sub, i)
    decreases |s| - start
  {
    if start > |s| then None
    else if OccursAt(s, sub, start) then Some(start)
    else FindSub(s, sub, start + 1)
  }

  /** `s.rfind(sub)`: the last occurrence at or before `from`. */
  function FindLast(s: string, sub: string, from: nat): (r: Option<nat>)
    ensures r.Some? ==> r.value <= from && OccursAt(s, sub, r.value)
                        && forall i | r.value < i <= from :: !OccursAt(s, sub, i)
    ensures r.None? ==> forall i | 0 <= i <= from :: !OccursAt(s, sub, i)
  {
    if OccursAt(s, sub, from) then Some(from)
    else if from == 0 then None
    else FindLast(s, sub, from - 1)
  }

  /** A separator put after `name` is found there and nowhere earlier.  For a separator of one
      character: the name does not contain it. */
  predicate SepFree(name: string, sep: string) {
    FindSub(name + sep, sep, 0) == Some(|name|)
  }

  lemma OccursInPrefix(s: string, t: string, sub: string, i: nat)
    requires i + |sub| <= |s|
    ensures OccursAt(s + t, sub, i) <==> OccursAt(s, sub, i)
  {
    assert (s + t)[i..i + |sub|] == s[i..i + |sub|];
  }

  /** A path that starts with a separator-free name is split right after it. */
  lemma FirstSeparator(name: string, sep: string, rest: string)
    requires SepFree(name, sep) && name != ""
    ensures sep != "" && FindSub(name + sep + rest, sep, 0) == Some(|name|)
    ensures FindSub(name, sep, 0) == None
  {
    var s := name + sep;
    assert OccursAt(s, "", 0);
    forall i | 0 <= i < |name| ensures !OccursAt(s + rest, sep, i) {
      OccursInPrefix(s, rest, sep, i);
    }
    OccursInPrefix(s, rest, sep, |name|);
    forall i: nat ensures !OccursAt(name, sep, i) {
      if OccursAt(name, sep, i) {
        OccursInPrefix(name, sep, sep, i);
      }
    }
  }

  // ---------------------------------------------------------------- lookup

  /** `bag.find(name)`: the position of the first property of that name. */
  function IndexOf(bag: seq<Prop>, name: string): (r: Option<nat>)
    ensures r.Some? ==> r.value < |bag| && bag[r.value].name == name
                        && forall i | 0 <= i < r.value :: bag[i].name != name
    ensures r.None? ==> forall i | 0 <= i < |bag| :: bag[i].name != name
  {
    if bag == [] then None
    else if bag[0].name == name then Some(0)
    else
      var r := IndexOf(bag[1..], name);
      if r.Some? then Some(r.value + 1) else None
  }

  function Find(bag: seq<Prop>, name: string): Option<Prop> {
    var i := IndexOf(bag, name);
    if i.Some? then Some(bag[i.value]) else None
  }

  /** The first component of a path, a leading separator skipped, and what follows it. */
  datatype Split = Split(token: string, rest: Option<string>)

  function SplitPath(path: string, sep: string): Split {
    var start := if |sep| != 0 && FindSub(path, sep, 0) == Some(0) then |sep| else 0;
    Cut(path, sep, start, FindSub(path, sep, start))
  }

  /** What is before and after a separator found at `len`. */
  function Cut(path: string, sep: string, start: nat, len: Option<nat>): Split
    requires start <= |path| && (len.Some? ==> start <= len.value <= |path|)
  {
    if len.Some? then
      var next := len.value + |sep|;
      Split(path[start..len.value], if next >= |path| then None else Some(path[next..]))
    else
      Split(path[start..], None)
  }

  function FindProperty(bag: seq<Prop>, path: string, sep: string): Option<Prop>
    decreases bag
  {
    var split := SplitPath(path, sep);
    var i := IndexOf(bag, split.token);
    if i.None? then None
    else
      var result := bag[i.value];
      if result.Bag? && split.rest.Some? then FindProperty(result.props, split.rest.value, sep)
      else Some(result)
  }

  // ---------------------------------------------------------------- listing

  function ItemName(prefix: string, sep: string, name: string): string {
    if prefix == "" then name else prefix + sep + name
  }

  datatype Entry = Entry(path: string, prop: Prop)

  /** The names that `listPropertiesHelper` pushes, each with the property it is pushed for. */
  function Listing(bag: seq<Prop>, sep: string, prefix: string): seq<Entry>
    decreases bag
  {
    if bag == [] then []
    else
      var itemname := ItemName(prefix, sep, bag[0].name);
      [Entry(itemname, bag[0])]
      + (if bag[0].Bag? then Listing(bag[0].props, sep, itemname) else [])
      + Listing(bag[1..], sep, prefix)
  }

  function Paths(entries: seq<Entry>): seq<string> {
    seq(|entries|, i requires 0 <= i < |entries| => entries[i].path)
  }

  function ListProperties(bag: seq<Prop>, sep: string): seq<string> {
    Paths(Listing(bag, sep, ""))
  }

  /** What `listPropertiesHelper` pushes for the property at `it`. */
  function EntriesAt(bag: seq<Prop>, sep: string, prefix: string, it: nat): seq<Entry>
    requires it < |bag|
  {
    var itemname := ItemName(prefix, sep, bag[it].name);
    [Entry(itemname, bag[it])] + (if bag[it].Bag? then Listing(bag[it].props, sep, itemname) else [])
  }

  lemma ListingStep(bag: seq<Prop>, sep: string, prefix: string, it: nat)
    requires it < |bag|
    ensures Paths(Listing(bag[it..], sep, prefix))
         == Paths(EntriesAt(bag, sep, prefix, it)) + Paths(Listing(bag[it + 1..], sep, prefix))
  {
    assert bag[it..][1..] == bag[it + 1..];
    assert Listing(bag[it..], sep, prefix) == EntriesAt(bag, sep, prefix, it) + Listing(bag[it + 1..], sep, prefix);
  }

  lemma PathsAt(bag: seq<Prop>, sep: string, prefix: string, it: nat)
    requires it < |bag|
    ensures var itemname := ItemName(prefix, sep, bag[it].name);
      && (!bag[it].Bag? ==> Paths(EntriesAt(bag, sep, prefix, it)) == [itemname])
      && (bag[it].Bag? ==> forall r: seq<string> ::
            r + [itemname] + Paths(Listing(bag[it].props, sep, itemname)) == r + Paths(EntriesAt(bag, sep, prefix, it)))
  {
  }

  /** `listPropertiesHelper` as the loop that appends to `result`. */
  method ListPropertiesHelper(bag: seq<Prop>, sep: string, prefix: string, result: seq<string>) returns (r: seq<string>)
    ensures r == result + Paths(Listing(bag, sep, prefix))
    decreases bag
  {
    r := result;
    ghost var all, done := Paths(Listing(bag, sep, prefix)), [];
    var it := 0;
    while it != |bag|
      invariant it <= |bag| && r == result + done
      invariant all == done + Paths(Listing(bag[it..], sep, prefix))
    {
      ListingStep(bag, sep, prefix, it);
      PathsAt(bag, sep, prefix, it);
      ghost var here := Paths(EntriesAt(bag, sep, prefix, it));
      var itemname := if prefix == "" then bag[it].name else prefix + sep + bag[it].name;
      r := r + [itemname];
      if bag[it].Bag? {
        r := ListPropertiesHelper(bag[it].props, sep, itemname, r);
      }
      Reassociate(result, done, here, Paths(Listing(bag[it + 1..], sep, prefix)));
      done := done + here;
      it := it + 1;
    }
  }

  lemma Reassociate(a: seq<string>, b: seq<string>, c: seq<string>, d: seq<string>)
    ensures a + b + c == a + (b + c) && b + (c + d) == (b + c) + d
  {
  }

  // ---------------------------------------------------------------- listing and lookup agree

  /** Names are not empty, do not contain the separator and are unique among siblings, and the names of
      bags that have something in them are separator-free, at every level. */
  predicate Proper(bag: seq<Prop>, sep: string)
    decreases bag
  {
    && (forall i | 0 <= i < |bag| :: bag[i].name != "" && FindSub(bag[i].name, sep, 0).None?)
    && (forall i, j | 0 <= i < j < |bag| :: bag[i].name != bag[j].name)
    && (forall i | 0 <= i < |bag| && bag[i].Bag? && bag[i].props != [] ::
          SepFree(bag[i].name, sep) && Proper(bag[i].props, sep))
  }

  /** A path without separator is one component. */
  lemma SplitPlain(name: string, sep: string)
    requires FindSub(name, sep, 0).None?
    ensures SplitPath(name, sep) == Split(name, None)
  {
  }

  lemma SplitName(name: string, sep: string)
    requires name != "" && SepFree(name, sep)
    ensures SplitPath(name, sep) == Split(name, None)
  {
    FirstSeparator(name, sep, "");
  }

  lemma SplitNested(name: string, sep: string, rest: string)
    requires name != "" && SepFree(name, sep) && rest != ""
    ensures SplitPath(name + sep + rest, sep) == Split(name, Some(rest))
  {
    FirstSeparator(name, sep, rest);
    var path := name + sep + rest;
    assert path[..|name|] == name && path[|name| + |sep|..] == rest;
  }

  lemma IndexOfUnique(bag: seq<Prop>, i: nat)
    requires i < |bag| && forall j, k | 0 <= j < k < |bag| :: bag[j].name != bag[k].name
    ensures IndexOf(bag, bag[i].name) == Some(i)
  {
  }

  /** The entries of a bag called `name`, seen from the bag that contains it. */
  function Prefixed(entries: seq<Entry>, sep: string, name: string): seq<Entry> {
    seq(|entries|, i requires 0 <= i < |entries| => Entry(name + sep + entries[i].path, entries[i].prop))
  }

  lemma PrefixedJoin(a: seq<Entry>, b: seq<Entry>, sep: string, name: string)
    ensures Prefixed(a + b, sep, name) == Prefixed(a, sep, name) + Prefixed(b, sep, name)
  {
  }

  lemma PrefixedTwice(entries: seq<Entry>, sep: string, name: string, prefix: string)
    ensures Prefixed(Prefixed(entries, sep, name), sep, prefix) == Prefixed(entries, sep, prefix + sep + name)
  {
    forall i | 0 <= i < |entries| ensures
      prefix + sep + (name + sep + entries[i].path) == prefix + sep + name + sep + entries[i].path
    {
    }
  }

  predicate Named(bag: seq<Prop>)
    decreases bag
  {
    forall i | 0 <= i < |bag| :: bag[i].name != "" && (bag[i].Bag? ==> Named(bag[i].props))
  }

  lemma {:induction false} ProperNamed(bag: seq<Prop>, sep: string)
    requires Proper(bag, sep)
    ensures Named(bag)
    decreases bag
  {
    forall i | 0 <= i < |bag| && bag[i].Bag? ensures Named(bag[i].props) {
      ProperNamed(bag[i].props, sep);
    }
  }

  lemma {:induction false} ListingPrefix(bag: seq<Prop>, sep: string, prefix: string)
    requires prefix != "" && Named(bag)
    ensures Listing(bag, sep, prefix) == Prefixed(Listing(bag, sep, ""), sep, prefix)
    decreases bag
  {
    if bag != [] {
      var p := bag[0];
      ListingPrefix(bag[1..], sep, prefix);
      var inner := if p.Bag? then Listing(p.props, sep, p.name) else [];
      if p.Bag? {
        ListingPrefix(p.props, sep, prefix + sep + p.name);
        ListingPrefix(p.props, sep, p.name);
        PrefixedTwice(Listing(p.props, sep, ""), sep, p.name, prefix);
      }
      PrefixedJoin([Entry(p.name, p)] + inner, Listing(bag[1..], sep, ""), sep, prefix);
      PrefixedJoin([Entry(p.name, p)], inner, sep, prefix);
      assert Prefixed([Entry(p.name, p)], sep, prefix) == [Entry(prefix + sep + p.name, p)];
    }
  }

  /** Every entry is a property of the bag itself or comes from one of its bags. */
  lemma {:induction false} EntryOrigin(bag: seq<Prop>, sep: string, e: Entry) returns (i: nat, inner: Option<Entry>)
    requires Named(bag) && e in Listing(bag, sep, "")
    ensures i < |bag|
    ensures match inner
      case None => e == Entry(bag[i].name, bag[i])
      case Some(f) =>
        bag[i].Bag? && f in Listing(bag[i].props, sep, "") && e == Entry(bag[i].name + sep + f.path, f.prop)
    decreases |bag|
  {
    var p := bag[0];
    if e == Entry(p.name, p) {
      i, inner := 0, None;
    } else if p.Bag? && e in Listing(p.props, sep, p.name) {
      ListingPrefix(p.props, sep, p.name);
      var entries := Listing(p.props, sep, "");
      var k :| 0 <= k < |entries| && e == Prefixed(entries, sep, p.name)[k];
      i, inner := 0, Some(entries[k]);
    } else {
      i, inner := EntryOrigin(bag[1..], sep, e);
      i := i + 1;
    }
  }

  lemma ListedPathsNotEmpty(bag: seq<Prop>, sep: string, e: Entry)
    requires Named(bag) && e in Listing(bag, sep, "")
    ensures e.path != ""
  {
    var i, inner := EntryOrigin(bag, sep, e);
  }

  /** Looking up a listed path gives the property it was listed for. */
  lemma {:induction false} ListedIsFound(bag: seq<Prop>, sep: string, e: Entry)
    requires Proper(bag, sep) && e in Listing(bag, sep, "")
    ensures FindProperty(bag, e.path, sep) == Some(e.prop)
    decreases bag
  {
    ProperNamed(bag, sep);
    var i, inner := EntryOrigin(bag, sep, e);
    IndexOfUnique(bag, i);
    match inner {
      case None => SplitPlain(bag[i].name, sep);
      case Some(f) =>
        ListedPathsNotEmpty(bag[i].props, sep, f);
        SplitNested(bag[i].name, sep, f.path);
        ListedIsFound(bag[i].props, sep, f);
    }
  }

  /** Different properties are listed under different paths. */
  lemma ListedPathsDistinct(bag: seq<Prop>, sep: string)
    requires Proper(bag, sep)
    requires var l := Listing(bag, sep, ""); forall i, j | 0 <= i < j < |l| :: l[i].prop.id != l[j].prop.id
    ensures var l := ListProperties(bag, sep); forall i, j | 0 <= i < j < |l| :: l[i] != l[j]
  {
    var l := Listing(bag, sep, "");
    forall i, j | 0 <= i < j < |l| ensures l[i].path != l[j].path {
      ListedIsFound(bag, sep, l[i]);
      ListedIsFound(bag, sep, l[j]);
    }
  }

  /** Nothing else is found, whatever the names: what any lookup finds is listed. */
  lemma {:induction false} FoundIsListed(bag: seq<Prop>, sep: string, path: string, prefix: string)
    requires FindProperty(bag, path, sep).Some?
    ensures exists e :: e in Listing(bag, sep, prefix) && FindProperty(bag, path, sep) == Some(e.prop)
    decreases bag
  {
    var split := SplitPath(path, sep);
    var i := IndexOf(bag, split.token).value;
    var itemname := ItemName(prefix, sep, bag[i].name);
    if bag[i].Bag? && split.rest.Some? {
      FoundIsListed(bag[i].props, sep, split.rest.value, itemname);
      var f :| f in Listing(bag[i].props, sep, itemname) && FindProperty(bag, path, sep) == Some(f.prop);
      PartIsListed(bag, sep, prefix, i, f);
    } else {
      PartIsListed(bag, sep, prefix, i, Entry(itemname, bag[i]));
    }
  }

  /** What is listed for the i-th property is listed for the bag. */
  lemma {:induction false} PartIsListed(bag: seq<Prop>, sep: string, prefix: string, i: nat, e: Entry)
    requires i < |bag| && e in EntriesAt(bag, sep, prefix, i)
    ensures e in Listing(bag, sep, prefix)
    decreases |bag|
  {
    if i > 0 {
      PartIsListed(bag[1..], sep, prefix, i - 1, e);
    }
  }

  lemma {:induction false} OuterIsListed(bag: seq<Prop>, sep: string, i: nat)
    requires i < |bag|
    ensures Entry(bag[i].name, bag[i]) in Listing(bag, sep, "")
    decreases |bag|
  {
    if i > 0 {
      OuterIsListed(bag[1..], sep, i - 1);
    }
  }

  lemma {:induction false} InnerIsListed(bag: seq<Prop>, sep: string, i: nat, f: Entry)
    requires Named(bag) && i < |bag| && bag[i].Bag? && f in Listing(bag[i].props, sep, "")
    ensures Entry(bag[i].name + sep + f.path, f.prop) in Listing(bag, sep, "")
    decreases |bag|
  {
    if i > 0 {
      InnerIsListed(bag[1..], sep, i - 1, f);
    } else {
      ListingPrefix(bag[0].props, sep, bag[0].name);
      var entries := Listing(bag[0].props, sep, "");
      var k :| 0 <= k < |entries| && entries[k] == f;
      assert Prefixed(entries, sep, bag[0].name)[k] == Entry(bag[0].name + sep + f.path, f.prop);
    }
  }

  // ---------------------------------------------------------------- separators at the ends

  /** Finding in a string with something put in front. */
  lemma FindSubShifts(front: string, s: string, sub: string, start: nat)
    ensures var r := FindSub(s, sub, start);
      FindSub(front + s, sub, |front| + start) == if r.Some? then Some(|front| + r.value) else None
  {
    hide FindSub, OccursAt;
    var r, t := FindSub(s, sub, start), FindSub(front + s, sub, |front| + start);
    if r.Some? {
      OccursShifts(front, s, sub, r.value);
    }
    if t.Some? {
      OccursShifts(front, s, sub, t.value - |front|);
    }
  }

  lemma OccursShifts(front: string, s: string, sub: string, i: nat)
    ensures OccursAt(front + s, sub, |front| + i) <==> OccursAt(s, sub, i)
  {
    if i + |sub| <= |s| {
      assert (front + s)[|front| + i..|front| + i + |sub|] == s[i..i + |sub|];
    }
  }

  /** A separator before the first name makes no difference to a lookup. */
  lemma LeadingSeparator(bag: seq<Prop>, path: string, sep: string)
    requires sep != "" && FindSub(path, sep, 0) != Some(0)
    ensures FindProperty(bag, sep + path, sep) == FindProperty(bag, path, sep)
  {
    LeadingSplit(path, sep);
    hide SplitPath;
  }

  lemma StartsWith(sub: string, rest: string)
    ensures FindSub(sub + rest, sub, 0) == Some(0)
  {
    assert OccursAt(sub + rest, sub, 0);
  }

  lemma LeadingSplit(path: string, sep: string)
    requires sep != "" && FindSub(path, sep, 0) != Some(0)
    ensures SplitPath(sep + path, sep) == SplitPath(path, sep)
  {
    FindSubShifts(sep, path, sep, 0);
    StartsWith(sep, path);
    CutBehind(sep, path, sep, FindSub(path, sep, 0));
    hide Cut, OccursAt, FindSub;
  }

  lemma CutBehind(front: string, path: string, sep: string, len: Option<nat>)
    requires len.Some? ==> len.value <= |path|
    ensures Cut(front + path, sep, |front|, if len.Some? then Some(|front| + len.value) else None)
         == Cut(path, sep, 0, len)
  {
    var s := front + path;
    assert s[|front|..] == path;
    if len.Some? {
      assert s[|front|..|front| + len.value] == path[..len.value];
      if len.value + |sep| < |path| {
        assert s[|front| + len.value + |sep|..] == path[len.value + |sep|..];
      }
    }
  }

  /** A separator after a name makes none either. */
  lemma TrailingSeparator(bag: seq<Prop>, name: string, sep: string)
    requires name != "" && SepFree(name, sep)
    ensures FindProperty(bag, name + sep, sep) == FindProperty(bag, name, sep) == Find(bag, name)
  {
    SplitName(name, sep);
    FirstSeparator(name, sep, "");
    assert name + sep + "" == name + sep && (name + sep)[..|name|] == name;
    assert SplitPath(name + sep, sep) == Split(name, None);
    hide SplitPath;
  }

  // ---------------------------------------------------------------- the order of a listing

  lemma {:induction false} ListingJoin(a: seq<Prop>, b: seq<Prop>, sep: string, prefix: string)
    ensures Listing(a + b, sep, prefix) == Listing(a, sep, prefix) + Listing(b, sep, prefix)
    decreases |a|
  {
    if a == [] {
      assert a + b == b;
    } else {
      assert (a + b)[1..] == a[1..] + b;
      ListingJoin(a[1..], b, sep, prefix);
    }
  }

  /** A property is listed after all that stands before it with what is in that, and directly before what
      is in it. */
  lemma ListingOrder(bag: seq<Prop>, sep: string, prefix: string, k: nat)
    requires k < |bag|
    ensures var l, at := Listing(bag, sep, prefix), |Listing(bag[..k], sep, prefix)|;
      var itemname := ItemName(prefix, sep, bag[k].name);
      && at < |l| && l[at] == Entry(itemname, bag[k]) && l[..at] == Listing(bag[..k], sep, prefix)
      && (bag[k].Bag? ==>
            Listing(bag[k].props, sep, itemname) <= l[at + 1..])
  {
    assert bag == bag[..k] + bag[k..];
    ListingJoin(bag[..k], bag[k..], sep, prefix);
  }

  // ---------------------------------------------------------------- exactly when they agree

  predicate UniqueNames(bag: seq<Prop>)
    decreases bag
  {
    && (forall i, j | 0 <= i < j < |bag| :: bag[i].name != bag[j].name)
    && (forall i | 0 <= i < |bag| && bag[i].Bag? :: UniqueNames(bag[i].props))
  }

  predicate HasId(p: Prop, id: nat)
    decreases p
  {
    p.id == id || (p.Bag? && exists i | 0 <= i < |p.props| :: HasId(p.props[i], id))
  }

  /** No property stands at two places of the tree. */
  ghost predicate NoSharing(bag: seq<Prop>)
    decreases bag
  {
    && (forall i, j, id | 0 <= i < |bag| && 0 <= j < |bag| && HasId(bag[i], id) && HasId(bag[j], id) :: i == j)
    && (forall i | 0 <= i < |bag| && bag[i].Bag? :: NoSharing(bag[i].props))
  }

  ghost predicate ListedAreFound(bag: seq<Prop>, sep: string) {
    forall e | e in Listing(bag, sep, "") :: FindProperty(bag, e.path, sep) == Some(e.prop)
  }

  /** Where the first component of a path starts: after a leading separator. */
  function TokenStart(path: string, sep: string): nat {
    if |sep| != 0 && FindSub(path, sep, 0) == Some(0) then |sep| else 0
  }

  /** It ends at the next separator, or at the end. */
  lemma TokenEnd(path: string, sep: string)
    ensures var start, token := TokenStart(path, sep), SplitPath(path, sep).token; var end := start + |token|;
      && end <= |path| && token == path[start..end]
      && (FindSub(path, sep, start) == Some(end) || (FindSub(path, sep, start).None? && end == |path|))
  {
  }

  lemma TokenHasNoSep(path: string, sep: string)
    requires sep != ""
    ensures FindSub(SplitPath(path, sep).token, sep, 0).None?
  {
    TokenEnd(path, sep);
    var start := TokenStart(path, sep);
    NoneBefore(path, sep, start, start + |SplitPath(path, sep).token|);
  }

  lemma NoneBefore(s: string, sub: string, from: nat, to: nat)
    requires sub != "" && from <= to <= |s|
    requires FindSub(s, sub, from) == Some(to) || (FindSub(s, sub, from).None? && to == |s|)
    ensures FindSub(s[from..to], sub, 0).None?
  {
    var r := FindSub(s[from..to], sub, 0);
    if r.Some? {
      SliceOccurs(s, from, to, sub, r.value);
    }
  }

  lemma SliceOccurs(s: string, from: nat, to: nat, sub: string, i: nat)
    requires from <= to <= |s| && OccursAt(s[from..to], sub, i)
    ensures OccursAt(s, sub, from + i) && from + i + |sub| <= to
  {
    forall k | 0 <= k < |sub| ensures s[from + i + k] == sub[k] {
      assert s[from..to][i..i + |sub|][k] == sub[k];
    }
  }

  /** What is found has a component of the path as its name. */
  lemma {:induction false} FoundNameHasNoSep(bag: seq<Prop>, path: string, sep: string)
    requires Named(bag) && FindProperty(bag, path, sep).Some?
    ensures FindSub(FindProperty(bag, path, sep).value.name, sep, 0).None?
    decreases bag
  {
    var split := SplitPath(path, sep);
    var i := IndexOf(bag, split.token).value;
    assert sep == "" ==> OccursAt(path, sep, 0) && split.token == "";
    TokenHasNoSep(path, sep);
    if bag[i].Bag? && split.rest.Some? {
      FoundNameHasNoSep(bag[i].props, split.rest.value, sep);
    }
  }

  /** What is found lies in the property that the first component leads to. */
  lemma {:induction false} FoundHasId(bag: seq<Prop>, path: string, sep: string)
    requires FindProperty(bag, path, sep).Some?
    ensures var i := IndexOf(bag, SplitPath(path, sep).token);
      i.Some? && HasId(bag[i.value], FindProperty(bag, path, sep).value.id)
    decreases bag
  {
    var split := SplitPath(path, sep);
    var i := IndexOf(bag, split.token).value;
    if bag[i].Bag? && split.rest.Some? {
      FoundHasId(bag[i].props, split.rest.value, sep);
    }
  }

  lemma TailOccurs(s: string, t: string, sub: string)
    ensures OccursAt(s + t, sub, |s|) <==> OccursAt(t, sub, 0)
  {
    assert (s + t)[|s|..] == t;
    assert |sub| <= |t| ==> (s + t)[|s|..|s| + |sub|] == t[0..0 + |sub|];
  }

  /** A name that does not contain the separator, but is not separator-free, is split too early. */
  lemma TokenIsNotName(name: string, sep: string, child: string)
    requires FindSub(name, sep, 0).None? && !SepFree(name, sep)
    requires child != "" && FindSub(child, sep, 0).None?
    ensures SplitPath(name + sep + child, sep).token != name
  {
    var s, path := name + sep, name + sep + child;
    assert OccursAt(s, sep, |name|);
    var k := FindSub(s, sep, 0).value;
    FirstStays(s, child, sep);
    TailOccurs(s, child, sep);
    TokenEnd(path, sep);
  }

  lemma FirstStays(s: string, t: string, sub: string)
    requires FindSub(s, sub, 0).Some?
    ensures FindSub(s + t, sub, 0) == FindSub(s, sub, 0)
  {
    var k := FindSub(s, sub, 0).value;
    OccursInPrefix(s, t, sub, k);
    forall i | 0 <= i < k ensures !OccursAt(s + t, sub, i) {
      OccursInPrefix(s, t, sub, i);
    }
  }

  lemma {:induction false} FoundMeansProper(bag: seq<Prop>, sep: string)
    requires Named(bag) && UniqueNames(bag) && NoSharing(bag) && ListedAreFound(bag, sep)
    ensures Proper(bag, sep)
    decreases bag
  {
    forall i | 0 <= i < |bag| ensures FindSub(bag[i].name, sep, 0).None? {
      OuterIsListed(bag, sep, i);
      assert FindProperty(bag, Entry(bag[i].name, bag[i]).path, sep) == Some(bag[i]);
      FoundNameHasNoSep(bag, bag[i].name, sep);
    }
    forall i | 0 <= i < |bag| && bag[i].Bag? && bag[i].props != []
      ensures SepFree(bag[i].name, sep) && Proper(bag[i].props, sep)
    {
      BagNameIsSepFree(bag, sep, i);
      forall f | f in Listing(bag[i].props, sep, "")
        ensures FindProperty(bag[i].props, f.path, sep) == Some(f.prop)
      {
        InnerIsFound(bag, sep, i, f);
      }
      FoundMeansProper(bag[i].props, sep);
    }
  }

  lemma BagNameIsSepFree(bag: seq<Prop>, sep: string, i: nat)
    requires Named(bag) && NoSharing(bag) && ListedAreFound(bag, sep)
    requires i < |bag| && bag[i].Bag? && bag[i].props != [] && FindSub(bag[i].name, sep, 0).None?
    ensures SepFree(bag[i].name, sep)
  {
    var child := bag[i].props[0];
    OuterIsListed(bag[i].props, sep, 0);
    InnerIsListed(bag, sep, i, Entry(child.name, child));
    var path := bag[i].name + sep + child.name;
    assert FindProperty(bag, Entry(path, child).path, sep) == Some(child);
    FoundNameHasNoSep(bag, path, sep);
    FoundHasId(bag, path, sep);
    assert HasId(child, child.id) && HasId(bag[i], child.id);
    if !SepFree(bag[i].name, sep) {
      TokenIsNotName(bag[i].name, sep, child.name);
    }
  }

  lemma InnerIsFound(bag: seq<Prop>, sep: string, i: nat, f: Entry)
    requires Named(bag) && ListedAreFound(bag, sep)
    requires forall j, k | 0 <= j < k < |bag| :: bag[j].name != bag[k].name
    requires i < |bag| && bag[i].Bag? && SepFree(bag[i].name, sep) && f in Listing(bag[i].props, sep, "")
    ensures FindProperty(bag[i].props, f.path, sep) == Some(f.prop)
  {
    InnerIsListed(bag, sep, i, f);
    var path := bag[i].name + sep + f.path;
    assert FindProperty(bag, Entry(path, f.prop).path, sep) == Some(f.prop);
    ListedPathsNotEmpty(bag[i].props, sep, f);
    SplitNested(bag[i].name, sep, f.path);
    IndexOfUnique(bag, i);
  }

  /** In a tree with names that are not empty and unique among siblings, every listed path is found as
      listed if and only if no name contains the separator and the name of no bag that has something
      in it is split too early. */
  lemma ListedAreFoundIff(bag: seq<Prop>, sep: string)
    requires Named(bag) && UniqueNames(bag) && NoSharing(bag)
    ensures ListedAreFound(bag, sep) <==> Proper(bag, sep)
  {
    if Proper(bag, sep) {
      forall e | e in Listing(bag, sep, "") ensures FindProperty(bag, e.path, sep) == Some(e.prop) {
        ListedIsFound(bag, sep, e);
      }
    }
    if ListedAreFound(bag, sep) {
      FoundMeansProper(bag, sep);
    }
  }

  /** Such a bag: its content is listed under a path that is not found. */
  lemma SplitTooEarly(b: Prop)
    requires b.name == "b"
    ensures var bag := [Bag(0, "a:", [b])];
      Entry("a:::b", b) in Listing(bag, "::", "") && FindProperty(bag, "a:::b", "::") == None
  {
    var bag := [Bag(0, "a:", [b])];
    InnerIsHere(bag, b);
    var path := "a:::b";
    assert path[0..2] == "a:" && path[1..3] == "::";
    assert !OccursAt(path, "::", 0) && OccursAt(path, "::", 1);
    assert FindSub(path, "::", 0) == Some(1);
    assert SplitPath(path, "::").token == "a";
  }

  lemma InnerIsHere(bag: seq<Prop>, b: Prop)
    requires b.name == "b" && bag == [Bag(0, "a:", [b])]
    ensures Entry("a:::b", b) in Listing(bag, "::", "")
  {
    assert ItemName("a:", "::", "b") == "a:::b";
    assert Listing([b], "::", "a:")[0] == Entry("a:::b", b);
    assert Listing(bag, "::", "")[1] == Entry("a:::b", b);
  }

  /** A property that stands at two places may be found although a path to it is split too early. */
  lemma SharedIsFoundAnyway(p: Prop)
    requires p.Leaf? && p.name == "a"
    ensures var bag := [Bag(0, "a:", [p]), p];
      Named(bag) && UniqueNames(bag) && ListedAreFound(bag, "::") && !Proper(bag, "::")
  {
    var bag := [Bag(0, "a:", [p]), p];
    SharedShape(p);
    SharedIsImproper(bag);
    SharedListedAreFound(p);
  }

  lemma SharedShape(p: Prop)
    requires p.Leaf? && p.name == "a"
    ensures var bag := [Bag(0, "a:", [p]), p]; Named(bag) && UniqueNames(bag)
  {
    assert |"a:"| != |"a"|;
    assert Named([p]) && UniqueNames([p]);
  }

  lemma SharedListedAreFound(p: Prop)
    requires p.Leaf? && p.name == "a"
    ensures ListedAreFound([Bag(0, "a:", [p]), p], "::")
  {
    var bag := [Bag(0, "a:", [p]), p];
    hide *;
    SharedListing(p);
    SharedFound(p);
    ThreeFound(bag, "::", Entry("a:", bag[0]), Entry("a:::a", p), Entry("a", p));
  }

  lemma ThreeFound(bag: seq<Prop>, sep: string, a: Entry, b: Entry, c: Entry)
    requires Listing(bag, sep, "") == [a, b, c]
    requires FindProperty(bag, a.path, sep) == Some(a.prop) && FindProperty(bag, b.path, sep) == Some(b.prop)
    requires FindProperty(bag, c.path, sep) == Some(c.prop)
    ensures ListedAreFound(bag, sep)
  {
    hide FindProperty, Listing;
  }

  lemma SharedFound(p: Prop)
    requires p.Leaf? && p.name == "a"
    ensures var bag := [Bag(0, "a:", [p]), p];
      && FindProperty(bag, "a:", "::") == Some(bag[0])
      && FindProperty(bag, "a:::a", "::") == Some(p) && FindProperty(bag, "a", "::") == Some(p)
  {
    var bag := [Bag(0, "a:", [p]), p];
    SharedIndexes(bag);
    Colons();
    SplitAtColons();
    PlainLookup(bag, 0, "::");
    PlainLookup(bag, 1, "::");
    LeafEndsLookup(bag, "a:::a", "::", 1);
  }

  lemma SharedIndexes(bag: seq<Prop>)
    requires |bag| == 2 && bag[0].name == "a:" && bag[1].name == "a"
    ensures IndexOf(bag, "a:") == Some(0) && IndexOf(bag, "a") == Some(1)
  {
    assert bag[0].name[1..] == ":" && |bag[1].name| == 1;
  }

  lemma SharedIsImproper(bag: seq<Prop>)
    requires |bag| == 2 && bag[0].Bag? && bag[0].name == "a:" && |bag[0].props| == 1
    ensures !Proper(bag, "::")
  {
    Colons();
    assert "a:" + "::" == "a:::";
    assert !SepFree(bag[0].name, "::");
  }

  lemma PlainLookup(bag: seq<Prop>, i: nat, sep: string)
    requires i < |bag| && FindSub(bag[i].name, sep, 0).None? && IndexOf(bag, bag[i].name) == Some(i)
    ensures FindProperty(bag, bag[i].name, sep) == Some(bag[i])
  {
    SplitPlain(bag[i].name, sep);
  }

  lemma LeafEndsLookup(bag: seq<Prop>, path: string, sep: string, i: nat)
    requires i < |bag| && IndexOf(bag, SplitPath(path, sep).token) == Some(i) && bag[i].Leaf?
    ensures FindProperty(bag, path, sep) == Some(bag[i])
  {
  }

  lemma SplitAtColons()
    ensures SplitPath("a:::a", "::").token == "a"
  {
    Colons();
    assert "a:::a"[0..1] == "a";
  }

  lemma SharedListing(p: Prop)
    requires p.Leaf? && p.name == "a"
    ensures var bag := [Bag(0, "a:", [p]), p];
      Listing(bag, "::", "") == [Entry("a:", bag[0]), Entry("a:::a", p), Entry("a", p)]
  {
    var bag := [Bag(0, "a:", [p]), p];
    assert ItemName("a:", "::", "a") == "a:::a";
    assert Listing([p], "::", "a:") == [Entry("a:::a", p)];
    assert bag[1..] == [p] && Listing([p], "::", "") == [Entry("a", p)];
  }

  lemma Colons()
    ensures FindSub("a:", "::", 0) == None && FindSub("a", "::", 0) == None
    ensures FindSub("a:::a", "::", 0) == Some(1) && FindSub("a:::", "::", 0) == Some(1)
  {
    assert "a:"[0..2] == "a:";
    assert "a:::a"[0..2] == "a:" && "a:::a"[1..3] == "::" && OccursAt("a:::a", "::", 1);
    assert "a:::"[0..2] == "a:" && "a:::"[1..3] == "::" && OccursAt("a:::", "::", 1);
  }
}
