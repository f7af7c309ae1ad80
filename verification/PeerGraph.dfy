/** The peers of a set of components as a value: what the operations of rtt/TaskContext.cpp do to all
    the maps and user lists together, and what they keep. */
module PeerGraph {
  import opened Options
  import opened PeerMaps
  import opened Sequences

  /** A component: its name, its map of peers, and the components that have it as a peer. */
  datatype Node<T> = Node(name: string, peers: seq<Entry<T>>, users: seq<T>)

  type Graph<T(==)> = map<T, Node<T>>

  // ---------------------------------------------------------------- consistency

  predicate Inside<T>(g: Graph<T>, n: Node<T>) {
    && Sorted(n.peers)
    && (forall i | 0 <= i < |n.peers| :: n.peers[i].task in g)
    && (forall u | u in n.users :: u in g)
  }

  /** `b` has as many aliases in the map of `a` as `a` occurs among the users of `b`. */
  ghost predicate Symmetric<T>(g: Graph<T>) {
    forall a, b | a in g && b in g :: Agree(g, a, b)
  }

  predicate Agree<T>(g: Graph<T>, a: T, b: T)
    requires a in g && b in g
  {
    Count(Tasks(g[a].peers), b) == Count(g[b].users, a)
  }

  ghost predicate Consistent<T>(g: Graph<T>) {
    (forall a | a in g :: Inside(g, g[a])) && Symmetric(g)
  }

  // ---------------------------------------------------------------- the two elementary changes

  function SetPeers<T>(g: Graph<T>, a: T, peers: seq<Entry<T>>): Graph<T>
    requires a in g
  {
    g[a := g[a].(peers := peers)]
  }

  function SetUsers<T>(g: Graph<T>, b: T, users: seq<T>): Graph<T>
    requires b in g
  {
    g[b := g[b].(users := users)]
  }

  /** `a` gets the peer `b`, and `b` the user `a`. */
  function Link<T>(g: Graph<T>, a: T, alias: string, b: T): Graph<T>
    requires a in g && b in g
  {
    SetUsers(SetPeers(g, a, Insert(g[a].peers, alias, b)), b, g[b].users + [a])
  }

  /** `a` loses its i-th alias, and that peer the user `a`. */
  function Unlink<T>(g: Graph<T>, a: T, i: nat): Graph<T>
    requires a in g && i < |g[a].peers| && g[a].peers[i].task in g
  {
    var b := g[a].peers[i].task;
    SetUsers(SetPeers(g, a, RemoveAt(g[a].peers, i)), b, RemoveFirst(g[b].users, a))
  }

  lemma LinkAgrees<T>(g: Graph<T>, a: T, alias: string, b: T, c: T, d: T)
    requires a in g && b in g && c in g && d in g && Agree(g, c, d)
    ensures Agree(Link(g, a, alias, b), c, d)
  {
    InsertCount(g[a].peers, alias, b, d);
    CountJoin(g[b].users, [a], c);
  }

  lemma LinkInside<T>(g: Graph<T>, a: T, alias: string, b: T, c: T)
    requires a in g && b in g && Find(g[a].peers, alias).None? && Inside(g, g[a])
    requires c in g ==> Inside(g, g[c])
    ensures var r := Link(g, a, alias, b); r.Keys == g.Keys && (c in r ==> Inside(r, r[c]))
  {
    LinkNode(g, a, alias, b, c);
    InsertKeepsSorted(g[a].peers, alias, b);
    var i := InsertIs(g[a].peers, alias, b);
    hide Link, Insert, Sorted, Find;
    var m, n := g[a].peers, Insert(g[a].peers, alias, b);
    forall k | 0 <= k < |n| ensures n[k].task in g {
      assert k != i ==> n[k] == m[if k < i then k else k - 1];
    }
  }

  lemma LinkNode<T>(g: Graph<T>, a: T, alias: string, b: T, c: T)
    requires a in g && b in g
    ensures var r := Link(g, a, alias, b);
      && r.Keys == g.Keys
      && (c in g ==> r[c].name == g[c].name
                     && r[c].peers == (if c == a then Insert(g[a].peers, alias, b) else g[c].peers)
                     && r[c].users == (if c == b then g[b].users + [a] else g[c].users))
  {
    hide Insert;
  }

  lemma LinkKeeps<T>(g: Graph<T>, a: T, alias: string, b: T)
    requires Consistent(g) && a in g && b in g && Find(g[a].peers, alias).None?
    ensures Consistent(Link(g, a, alias, b))
  {
    var r := Link(g, a, alias, b);
    hide Agree, Link, Inside;
    forall c | c in r ensures Inside(r, r[c]) {
      LinkInside(g, a, alias, b, c);
    }
    forall c, d | c in r && d in r ensures Agree(r, c, d) {
      LinkAgrees(g, a, alias, b, c, d);
    }
  }

  lemma UnlinkAgrees<T>(g: Graph<T>, a: T, i: nat, c: T, d: T)
    requires a in g && i < |g[a].peers| && g[a].peers[i].task in g && c in g && d in g
    requires Agree(g, c, d) && a in g[g[a].peers[i].task].users
    ensures Agree(Unlink(g, a, i), c, d)
  {
    RemoveAtCount(g[a].peers, i, d);
    RemoveFirstCount(g[g[a].peers[i].task].users, a, c);
  }

  lemma UnlinkKeeps<T>(g: Graph<T>, a: T, i: nat)
    requires Consistent(g) && a in g && i < |g[a].peers| && g[a].peers[i].task in g
    ensures Consistent(Unlink(g, a, i)) && a in g[g[a].peers[i].task].users
  {
    PeerHasUser(g, a, i);
    var b := g[a].peers[i].task;
    var r := Unlink(g, a, i);
    forall c | c in r ensures Inside(r, r[c]) {
      assert Inside(g, g[c]) && Inside(g, g[a]) && Inside(g, g[b]);
      UnlinkInside(g, a, i, c);
    }
    forall c, d | c in r && d in r ensures Agree(r, c, d) {
      UnlinkAgrees(g, a, i, c, d);
    }
  }

  lemma UnlinkInside<T>(g: Graph<T>, a: T, i: nat, c: T)
    requires a in g && i < |g[a].peers| && g[a].peers[i].task in g && c in g
    requires Inside(g, g[a]) && Inside(g, g[g[a].peers[i].task]) && Inside(g, g[c])
    ensures Inside(Unlink(g, a, i), Unlink(g, a, i)[c])
  {
    var m := g[a].peers;
    var cut := RemoveAt(m, i);
    forall k | 0 <= k < |cut| ensures cut[k] == m[if k < i then k else k + 1] {
    }
    RemoveFirstWithin(g[m[i].task].users, a);
  }

  lemma PeerHasUser<T>(g: Graph<T>, a: T, i: nat)
    requires a in g && i < |g[a].peers| && g[a].peers[i].task in g && Agree(g, a, g[a].peers[i].task)
    ensures a in g[g[a].peers[i].task].users
  {
    RemoveAtCount(g[a].peers, i, g[a].peers[i].task);
    CountZero(g[g[a].peers[i].task].users, a);
  }

  lemma {:induction false} RemoveFirstWithin<T>(s: seq<T>, t: T)
    ensures forall u | u in RemoveFirst(s, t) :: u in s
    decreases |s|
  {
    if s != [] {
      RemoveFirstWithin(s[1..], t);
    }
  }

  // ---------------------------------------------------------------- the operations

  function AddPeer<T>(g: Graph<T>, a: T, b: T, alias: string): Graph<T>
    requires a in g && b in g
  {
    var key := if alias == "" then g[b].name else alias;
    if Find(g[a].peers, key).Some? then g else Link(g, a, key, b)
  }

  function RemovePeerNamed<T>(g: Graph<T>, a: T, name: string): Graph<T>
    requires a in g && Inside(g, g[a])
  {
    var i := Find(g[a].peers, name);
    if i.None? then g else Unlink(g, a, i.value)
  }

  /** The place of the first alias of `b`. */
  function FirstOf<T(==)>(m: seq<Entry<T>>, b: T): (r: Option<nat>)
    ensures r.Some? ==> r.value < |m| && m[r.value].task == b && forall i | 0 <= i < r.value :: m[i].task != b
    ensures r.None? ==> forall i | 0 <= i < |m| :: m[i].task != b
  {
    if m == [] then None
    else if m[0].task == b then Some(0)
    else
      var r := FirstOf(m[1..], b);
      if r.Some? then Some(r.value + 1) else None
  }

  lemma FirstOfIs<T>(m: seq<Entry<T>>, b: T, k: nat)
    requires k <= |m| && (forall i | 0 <= i < k :: m[i].task != b) && (k < |m| ==> m[k].task == b)
    ensures FirstOf(m, b) == if k < |m| then Some(k) else None
  {
  }

  function RemovePeer<T>(g: Graph<T>, a: T, b: T): Graph<T>
    requires a in g && b in g
  {
    var i := FirstOf(g[a].peers, b);
    if i.None? then g else Unlink(g, a, i.value)
  }

  /** `connectPeers`: each gets the other under its name, or nothing happens. */
  predicate CanConnect<T>(g: Graph<T>, a: T, b: T)
    requires a in g && b in g
  {
    Find(g[a].peers, g[b].name).None? && Find(g[b].peers, g[a].name).None?
  }

  function ConnectPeers<T>(g: Graph<T>, a: T, b: T): Graph<T>
    requires a in g && b in g
  {
    if CanConnect(g, a, b) then AddPeer(AddPeer(g, a, b, ""), b, a, "") else g
  }

  /** `disconnectPeers`: removes the first alias, on both sides. */
  function DisconnectPeers<T>(g: Graph<T>, a: T, name: string): Graph<T>
    requires a in g && Inside(g, g[a])
  {
    var i := Find(g[a].peers, name);
    if i.None? then g
    else
      var b := g[a].peers[i.value].task;
      RemovePeer(RemovePeer(g, a, b), b, a)
  }

  /** `disconnect`: the component is nobody's peer and nobody's user, and everybody else keeps the
      rest of its peers and users. */
  function Disconnect<T>(g: Graph<T>, a: T): Graph<T>
    requires a in g
  {
    map c | c in g :: g[c].(
      peers := if c == a then [] else WithoutTask(g[c].peers, a),
      users := if c == a then [] else Without(g[c].users, a))
  }

  lemma AddPeerKeeps<T>(g: Graph<T>, a: T, b: T, alias: string)
    requires Consistent(g) && a in g && b in g
    ensures Consistent(AddPeer(g, a, b, alias))
  {
    var key := if alias == "" then g[b].name else alias;
    if Find(g[a].peers, key).None? {
      LinkKeeps(g, a, key, b);
    }
  }

  lemma RemovePeerNamedKeeps<T>(g: Graph<T>, a: T, name: string)
    requires Consistent(g) && a in g
    ensures Inside(g, g[a]) && Consistent(RemovePeerNamed(g, a, name))
  {
    var i := Find(g[a].peers, name);
    if i.Some? {
      UnlinkKeeps(g, a, i.value);
    }
  }

  lemma RemovePeerKeeps<T>(g: Graph<T>, a: T, b: T)
    requires Consistent(g) && a in g && b in g
    ensures Consistent(RemovePeer(g, a, b))
  {
    var i := FirstOf(g[a].peers, b);
    if i.Some? {
      UnlinkKeeps(g, a, i.value);
    }
  }

  lemma ConnectPeersKeeps<T>(g: Graph<T>, a: T, b: T)
    requires Consistent(g) && a in g && b in g
    ensures Consistent(ConnectPeers(g, a, b))
  {
    if CanConnect(g, a, b) {
      AddPeerKeeps(g, a, b, "");
      AddPeerKeeps(AddPeer(g, a, b, ""), b, a, "");
    }
  }

  lemma DisconnectPeersKeeps<T>(g: Graph<T>, a: T, name: string)
    requires Consistent(g) && a in g
    ensures Inside(g, g[a]) && Consistent(DisconnectPeers(g, a, name))
  {
    var i := Find(g[a].peers, name);
    assert Inside(g, g[a]);
    if i.Some? {
      var b := g[a].peers[i.value].task;
      RemovePeerKeeps(g, a, b);
      RemovePeerKeeps(RemovePeer(g, a, b), b, a);
    }
  }

  lemma DisconnectKeeps<T>(g: Graph<T>, a: T)
    requires Consistent(g) && a in g
    ensures Consistent(Disconnect(g, a))
  {
    var r := Disconnect(g, a);
    forall c | c in r ensures Inside(r, r[c]) {
      assert Inside(g, g[c]);
      WithoutTaskSorted(g[c].peers, a);
      WithoutWithin(g[c].users, a);
      assert forall i | 0 <= i < |r[c].peers| :: r[c].peers[i] in g[c].peers || c == a;
    }
    forall c, d | c in r && d in r ensures Agree(r, c, d) {
      assert Agree(g, c, d);
      WithoutTaskCount(g[c].peers, a, d);
      WithoutCount(g[d].users, a, c);
    }
  }

  // ---------------------------------------------------------------- what one call does

  /** What an alias stands for. */
  function Standing<T>(m: seq<Entry<T>>, alias: string): Option<T> {
    var i := Find(m, alias);
    if i.None? then None else Some(m[i.value].task)
  }

  /** The map of `a` lost or got no alias but `alias`, only `b` lost or got a user, and nothing else. */
  predicate OnlyChanged<T>(g: Graph<T>, r: Graph<T>, a: T, alias: string, b: T) {
    && r.Keys == g.Keys
    && (forall c | c in g :: r[c].name == g[c].name)
    && (forall c | c in g && c != a :: r[c].peers == g[c].peers)
    && (a in g ==> OtherAliases(r[a].peers, alias) == OtherAliases(g[a].peers, alias))
    && (forall c | c in g && c != b :: r[c].users == g[c].users)
  }

  lemma UnlinkNode<T>(g: Graph<T>, a: T, i: nat)
    requires a in g && Sorted(g[a].peers) && i < |g[a].peers| && g[a].peers[i].task in g
    ensures var alias, b := g[a].peers[i].alias, g[a].peers[i].task; var r := Unlink(g, a, i);
      && OnlyChanged(g, r, a, alias, b) && r[a].peers == OtherAliases(g[a].peers, alias)
      && r[b].users == RemoveFirst(g[b].users, a) && Standing(r[a].peers, alias) == None
  {
    var m := g[a].peers;
    RemoveAtLeavesOthers(m, i);
    AliasIsGone(m, i);
    var r := Unlink(g, a, i);
    assert r[a].peers == RemoveAt(m, i);
    AllAreOthers(r[a].peers, m[i].alias);
  }

  lemma LinkNodes<T>(g: Graph<T>, a: T, alias: string, b: T)
    requires a in g && b in g && Sorted(g[a].peers) && Find(g[a].peers, alias).None?
    ensures var r := Link(g, a, alias, b);
      && OnlyChanged(g, r, a, alias, b) && OtherAliases(r[a].peers, alias) == g[a].peers
      && Standing(r[a].peers, alias) == Some(b) && r[b].users == g[b].users + [a]
  {
    hide Link, Insert, OtherAliases, Sorted;
    var r := Link(g, a, alias, b);
    LinkNode(g, a, alias, b, a);
    forall c | c in g
      ensures c in r && r[c].name == g[c].name && (c != a ==> r[c].peers == g[c].peers)
      ensures r[c].users == if c == b then g[b].users + [a] else g[c].users
    {
      LinkNode(g, a, alias, b, c);
    }
    InsertLeavesOthers(g[a].peers, alias, b);
    AllAreOthers(g[a].peers, alias);
    var i := FoundAfterInsert(g[a].peers, alias, b);
  }

  /** `removePeer(name)`: the alias goes and nothing else of the map, and the component it stood for loses
      one entry for this user; if there is no such alias nothing changes. */
  lemma RemovePeerNamedIs<T>(g: Graph<T>, a: T, name: string)
    requires Consistent(g) && a in g
    ensures Inside(g, g[a])
    ensures var r := RemovePeerNamed(g, a, name);
      match Standing(g[a].peers, name)
      case None => r == g
      case Some(b) =>
        && b in g && OnlyChanged(g, r, a, name, b)
        && r[a].peers == OtherAliases(g[a].peers, name) && Standing(r[a].peers, name) == None
        && a in g[b].users && r[b].users == RemoveFirst(g[b].users, a)
  {
    assert Inside(g, g[a]);
    var i := Find(g[a].peers, name);
    if i.Some? {
      UnlinkNode(g, a, i.value);
      UnlinkKeeps(g, a, i.value);
    }
  }

  /** `removePeer(peer)`: the same for the first alias, in key order, that stands for the peer. */
  lemma RemovePeerIs<T>(g: Graph<T>, a: T, b: T)
    requires Consistent(g) && a in g && b in g
    ensures var m, r := g[a].peers, RemovePeer(g, a, b);
      && ((forall k | 0 <= k < |m| :: m[k].task != b) ==> r == g)
      && forall k | 0 <= k < |m| && m[k].task == b && (forall j | 0 <= j < k :: m[j].task != b) ::
           && OnlyChanged(g, r, a, m[k].alias, b)
           && r[a].peers == OtherAliases(m, m[k].alias) && Standing(r[a].peers, m[k].alias) == None
           && a in g[b].users && r[b].users == RemoveFirst(g[b].users, a)
  {
    assert Inside(g, g[a]);
    hide RemoveFirst, OtherAliases, OnlyChanged, Unlink, Standing, Agree;
    var i := FirstOf(g[a].peers, b);
    if i.Some? {
      UnlinkNode(g, a, i.value);
      UnlinkKeeps(g, a, i.value);
    }
  }

  /** `addPeer(peer, alias)`: the alias, or the name of the peer if it is empty, stands for the peer, which
      has one more entry for this user; if it is taken nothing changes. */
  lemma AddPeerIs<T>(g: Graph<T>, a: T, b: T, alias: string)
    requires Consistent(g) && a in g && b in g
    ensures var key := if alias == "" then g[b].name else alias; var r := AddPeer(g, a, b, alias);
      if Standing(g[a].peers, key).Some? then r == g
      else
        && OnlyChanged(g, r, a, key, b) && Standing(r[a].peers, key) == Some(b)
        && OtherAliases(r[a].peers, key) == g[a].peers && r[b].users == g[b].users + [a]
  {
    assert Inside(g, g[a]);
    var key := if alias == "" then g[b].name else alias;
    if Find(g[a].peers, key).None? {
      LinkNodes(g, a, key, b);
    }
  }

  /** `connectPeers(peer)`: each has the other under its name and as one more user, or, if one of the names
      is taken, nothing changes. */
  lemma ConnectPeersIs<T>(g: Graph<T>, a: T, b: T)
    requires Consistent(g) && a in g && b in g && a != b
    ensures var r := ConnectPeers(g, a, b);
      if Standing(g[a].peers, g[b].name).Some? || Standing(g[b].peers, g[a].name).Some? then r == g
      else
        && r.Keys == g.Keys && (forall c | c in g && c != a && c != b :: r[c] == g[c])
        && r[a].name == g[a].name && r[b].name == g[b].name
        && Standing(r[a].peers, g[b].name) == Some(b) && OtherAliases(r[a].peers, g[b].name) == g[a].peers
        && Standing(r[b].peers, g[a].name) == Some(a) && OtherAliases(r[b].peers, g[a].name) == g[b].peers
        && r[a].users == g[a].users + [b] && r[b].users == g[b].users + [a]
  {
    assert Inside(g, g[a]) && Inside(g, g[b]);
    if CanConnect(g, a, b) {
      LinkNodes(g, a, g[b].name, b);
      var h := Link(g, a, g[b].name, b);
      LinkNodes(h, b, g[a].name, a);
    }
  }

  /** A component connected to itself gets itself as a peer once. */
  lemma ConnectSelfIs<T>(g: Graph<T>, a: T)
    requires Consistent(g) && a in g
    ensures ConnectPeers(g, a, a) == AddPeer(g, a, a, "")
  {
    assert Inside(g, g[a]);
    if CanConnect(g, a, a) {
      LinkNodes(g, a, g[a].name, a);
    }
  }

  /** `disconnectPeers(name)` of two components: each loses the first alias it has for the other, if any,
      and one entry for it among its users; if the name stands for nobody nothing changes. */
  lemma DisconnectPeersIs<T>(g: Graph<T>, a: T, name: string)
    requires Consistent(g) && a in g
    ensures Inside(g, g[a])
    ensures var r := DisconnectPeers(g, a, name);
      match Standing(g[a].peers, name)
      case None => r == g
      case Some(b) =>
        b in g && (a != b ==>
          && r.Keys == g.Keys && (forall c | c in g && c != a && c != b :: r[c] == g[c])
          && r[a].name == g[a].name && r[b].name == g[b].name
          && r[a].peers == RemoveTask(g[a].peers, b) && r[b].peers == RemoveTask(g[b].peers, a)
          && r[a].users == RemoveFirst(g[a].users, b) && r[b].users == RemoveFirst(g[b].users, a))
  {
    assert Inside(g, g[a]);
    var i := Find(g[a].peers, name);
    if i.Some? {
      var b := g[a].peers[i.value].task;
      if a != b {
        assert Inside(g, g[b]) && Agree(g, a, b) && Agree(g, b, a);
        RemovePeerNode(g, a, b);
        RemovePeerNode(RemovePeer(g, a, b), b, a);
        OtherSides(g, a, b);
      }
    }
  }

  /** Both kinds of entry go together, or there is none of either. */
  lemma RemovePeerNode<T>(g: Graph<T>, a: T, b: T)
    requires a in g && b in g && a != b && Agree(g, a, b)
    ensures RemovePeer(g, a, b)
         == SetUsers(SetPeers(g, a, RemoveTask(g[a].peers, b)), b, RemoveFirst(g[b].users, a))
  {
    var i := FirstOf(g[a].peers, b);
    if i.Some? {
      RemoveTaskAt(g[a].peers, i.value);
    } else {
      RemoveTaskAbsent(g[a].peers, b);
      forall k | 0 <= k < |Tasks(g[a].peers)| ensures Tasks(g[a].peers)[k] != b {
      }
      CountZero(Tasks(g[a].peers), b);
      CountZero(g[b].users, a);
      RemoveFirstAbsent(g[b].users, a);
    }
  }

  lemma OtherSides<T>(g: Graph<T>, a: T, b: T)
    requires a in g && b in g && a != b
    ensures var h := SetUsers(SetPeers(g, a, RemoveTask(g[a].peers, b)), b, RemoveFirst(g[b].users, a));
      h[b].peers == g[b].peers && h[a].users == g[a].users
  {
  }

  // ---------------------------------------------------------------- what one call undoes

  /** Removing the only alias of a new peer takes the link away again. */
  lemma RemoveUndoesLink<T>(g: Graph<T>, a: T, alias: string, b: T)
    requires Consistent(g) && a in g && b in g && b !in Tasks(g[a].peers)
    ensures RemovePeer(Link(g, a, alias, b), a, b) == g
  {
    assert Agree(g, a, b);
    CountZero(Tasks(g[a].peers), b);
    CountZero(g[b].users, a);
    RemoveNewLink(g, a, alias, b);
  }

  lemma RemoveNewLink<T>(g: Graph<T>, a: T, alias: string, b: T)
    requires a in g && b in g && b !in Tasks(g[a].peers) && a !in g[b].users
    ensures RemovePeer(Link(g, a, alias, b), a, b) == g
  {
    var r := Link(g, a, alias, b);
    assert r[a].peers == Insert(g[a].peers, alias, b) && r[b].users == g[b].users + [a];
    SetBack(g, a, b, r[a].peers, r[b].users);
    RemoveUndoesAppend(g[b].users, a);
    var i := OnlyAlias(g[a].peers, alias, b);
    hide Insert, RemoveAt, RemoveFirst, FirstOf;
    assert r[a].peers[i].task == b;
    assert RemovePeer(r, a, b) == Unlink(r, a, i);
  }

  lemma SetBack<T>(g: Graph<T>, a: T, b: T, peers: seq<Entry<T>>, users: seq<T>)
    requires a in g && b in g
    ensures SetUsers(SetPeers(SetUsers(SetPeers(g, a, peers), b, users), a, g[a].peers), b, g[b].users) == g
  {
  }

  /** The only entry of a peer is the one inserted, and removing it restores the map. */
  lemma OnlyAlias<T>(m: seq<Entry<T>>, alias: string, b: T) returns (i: nat)
    requires b !in Tasks(m)
    ensures var r := Insert(m, alias, b); FirstOf(r, b) == Some(i) && i < |r| && RemoveAt(r, i) == m
  {
    var r := Insert(m, alias, b);
    var at := InsertIs(m, alias, b);
    assert r[at].task == b;
    assert forall k | 0 <= k < |m| :: m[k].task == Tasks(m)[k];
    i := FirstOf(r, b).value;
    RemoveTaskAt(r, i);
    RemoveUndoesInsert(m, alias, b);
  }

  /** Components that are not peers yet are after `connectPeers` and `disconnectPeers` what they were
      before. */
  lemma DisconnectPeersUndoesConnectPeers<T>(g: Graph<T>, a: T, b: T)
    requires Consistent(g) && a in g && b in g && CanConnect(g, a, b)
    requires b !in Tasks(g[a].peers) && a !in Tasks(g[b].peers)
    ensures var r := ConnectPeers(g, a, b); Inside(r, r[a]) && DisconnectPeers(r, a, g[b].name) == g
  {
    if a == b {
      DisconnectSelfUndoesConnectSelf(g, a);
    } else {
      DisconnectOtherUndoesConnectOther(g, a, b);
    }
  }

  /** Connecting to itself adds one link only: the second `addPeer` finds the name taken. */
  lemma DisconnectSelfUndoesConnectSelf<T>(g: Graph<T>, a: T)
    requires Consistent(g) && a in g && CanConnect(g, a, a) && a !in Tasks(g[a].peers)
    ensures var r := ConnectPeers(g, a, a); Inside(r, r[a]) && DisconnectPeers(r, a, g[a].name) == g
  {
    ConnectPeersKeeps(g, a, a);
    var h := AddPeer(g, a, a, "");
    var r := ConnectPeers(g, a, a);
    assert Inside(g, g[a]) && Inside(r, r[a]);
    var i := FoundAfterInsert(g[a].peers, g[a].name, a);
    assert h == Link(g, a, g[a].name, a) && r == h;
    assert r[a].peers[i].task == a;
    RemoveUndoesLink(g, a, g[a].name, a);
    forall k | 0 <= k < |g[a].peers| ensures g[a].peers[k].task != a {
      assert g[a].peers[k].task == Tasks(g[a].peers)[k];
    }
  }

  lemma DisconnectOtherUndoesConnectOther<T>(g: Graph<T>, a: T, b: T)
    requires Consistent(g) && a in g && b in g && a != b && CanConnect(g, a, b)
    requires b !in Tasks(g[a].peers) && a !in Tasks(g[b].peers)
    ensures var r := ConnectPeers(g, a, b); Inside(r, r[a]) && DisconnectPeers(r, a, g[b].name) == g
  {
    ConnectPeersKeeps(g, a, b);
    var h := AddPeer(g, a, b, "");
    var r := ConnectPeers(g, a, b);
    assert h == Link(g, a, g[b].name, b) && r == Link(h, b, g[a].name, a);
    assert Inside(g, g[a]) && Inside(r, r[a]);
    var i := FoundAfterInsert(g[a].peers, g[b].name, b);
    assert r[a].peers[i].task == b;
    RemoveLinksSwap(g, a, b);
    AddPeerKeeps(g, b, a, "");
    RemoveUndoesLink(Link(g, b, g[a].name, a), a, g[b].name, b);
    RemoveUndoesLink(g, b, g[a].name, a);
  }

  /** The two links of a connection are independent. */
  lemma RemoveLinksSwap<T>(g: Graph<T>, a: T, b: T)
    requires a in g && b in g && a != b
    ensures Link(Link(g, a, g[b].name, b), b, g[a].name, a) == Link(Link(g, b, g[a].name, a), a, g[b].name, b)
  {
  }

  lemma RemovePeerRemoves<T>(g: Graph<T>, a: T, b: T, c: T)
    requires a in g && b in g && c in g
    ensures var r := RemovePeer(g, a, b);
      r.Keys == g.Keys && r[c].peers == if c == a then RemoveTask(g[a].peers, b) else g[c].peers
  {
    var i := FirstOf(g[a].peers, b);
    if i.Some? {
      RemoveTaskAt(g[a].peers, i.value);
    } else {
      RemoveTaskAbsent(g[a].peers, b);
    }
  }

  /** `disconnectPeers(name)` leaves the alias `name` in place if and only if a smaller alias stands
      for the same component, or two of them if that is the component itself. */
  lemma AliasSurvivesIff<T>(g: Graph<T>, a: T, k: nat)
    requires Consistent(g) && a in g && k < |g[a].peers|
    ensures Inside(g, g[a])
    ensures var m := g[a].peers; var r := DisconnectPeers(g, a, m[k].alias);
      a in r && (Find(r[a].peers, m[k].alias).Some? <==> Smaller(m, k) >= if m[k].task == a then 2 else 1)
  {
    assert Inside(g, g[a]);
    FindIs(g[a].peers, k);
    DisconnectPeersRemoves(g, a, k);
    if g[a].peers[k].task == a {
      AliasAfterTwo(g[a].peers, k);
    } else {
      AliasAfterOne(g[a].peers, k);
    }
  }

  lemma DisconnectPeersRemoves<T>(g: Graph<T>, a: T, k: nat)
    requires a in g && Inside(g, g[a]) && k < |g[a].peers| && Find(g[a].peers, g[a].peers[k].alias) == Some(k)
    ensures var m := g[a].peers; var r := DisconnectPeers(g, a, m[k].alias);
      a in r && r[a].peers == if m[k].task == a then RemoveTask(RemoveTask(m, a), a) else RemoveTask(m, m[k].task)
  {
    var b := g[a].peers[k].task;
    RemovePeerRemoves(g, a, b, a);
    RemovePeerRemoves(RemovePeer(g, a, b), b, a, a);
  }

  // ---------------------------------------------------------------- all runs

  datatype Operation<T> =
    | DoAddPeer(a: T, b: T, alias: string)
    | DoRemovePeerNamed(a: T, name: string)
    | DoRemovePeer(a: T, b: T)
    | DoConnectPeers(a: T, b: T)
    | DoDisconnectPeers(a: T, name: string)
    | DoDisconnect(a: T)

  predicate Involves<T>(components: set<T>, op: Operation<T>) {
    op.a in components && (op.DoAddPeer? || op.DoRemovePeer? || op.DoConnectPeers? ==> op.b in components)
  }

  /** The operations keep the two views consistent. */
  ghost function Perform<T>(g: Graph<T>, op: Operation<T>): (r: Graph<T>)
    requires Consistent(g) && Involves(g.Keys, op)
    ensures Consistent(r) && r.Keys == g.Keys
  {
    match op
    case DoAddPeer(a, b, alias) => AddPeerKeeps(g, a, b, alias); AddPeer(g, a, b, alias)
    case DoRemovePeerNamed(a, name) => RemovePeerNamedKeeps(g, a, name); RemovePeerNamed(g, a, name)
    case DoRemovePeer(a, b) => RemovePeerKeeps(g, a, b); RemovePeer(g, a, b)
    case DoConnectPeers(a, b) => ConnectPeersKeeps(g, a, b); ConnectPeers(g, a, b)
    case DoDisconnectPeers(a, name) => DisconnectPeersKeeps(g, a, name); DisconnectPeers(g, a, name)
    case DoDisconnect(a) => DisconnectKeeps(g, a); Disconnect(g, a)
  }

  ghost function Run<T>(g: Graph<T>, ops: seq<Operation<T>>): (r: Graph<T>)
    requires Consistent(g) && forall op | op in ops :: Involves(g.Keys, op)
    ensures Consistent(r) && r.Keys == g.Keys
    decreases |ops|
  {
    if ops == [] then g else Run(Perform(g, ops[0]), ops[1..])
  }

  /** Components as they are constructed. */
  function Fresh<T>(names: map<T, string>): Graph<T> {
    map c | c in names :: Node(names[c], [], [])
  }

  lemma FreshIsConsistent<T>(names: map<T, string>)
    ensures Consistent(Fresh(names)) && Fresh(names).Keys == names.Keys
  {
    var g := Fresh(names);
    assert g.Keys == names.Keys;
    forall c, d | c in g && d in g ensures Agree(g, c, d) {
      assert Tasks(g[c].peers) == [];
    }
  }

  /** The components after any operations. */
  ghost function After<T>(names: map<T, string>, ops: seq<Operation<T>>): (g: Graph<T>)
    requires forall op | op in ops :: Involves(names.Keys, op)
    ensures Consistent(g) && g.Keys == names.Keys
  {
    FreshIsConsistent(names);
    Run(Fresh(names), ops)
  }

  /** After any operations on any components, `b` has as many aliases in the map of `a` as `a` occurs
      among the users of `b`. */
  lemma PeersAgreeWithUsers<T>(names: map<T, string>, ops: seq<Operation<T>>, a: T, b: T)
    requires a in names && b in names && forall op | op in ops :: Involves(names.Keys, op)
    ensures var g := After(names, ops);
      a in g && b in g && Count(Tasks(g[a].peers), b) == Count(g[b].users, a)
  {
    var g := After(names, ops);
    assert a in g.Keys && b in g.Keys;
    assert Agree(g, a, b);
  }

  // ---------------------------------------------------------------- how disconnect gets there

  /** From `old` to `g` only entries and users that name `a`, and what `a` has itself, were removed. */
  ghost predicate Stripped<T>(start: Graph<T>, g: Graph<T>, a: T) {
    && g.Keys == start.Keys
    && forall c | c in g :: g[c].name == start[c].name && (c != a ==> StrippedAt(start[c], g[c], a))
  }

  predicate StrippedAt<T(==)>(start: Node<T>, n: Node<T>, a: T) {
    WithoutTask(n.peers, a) == WithoutTask(start.peers, a) && Without(n.users, a) == Without(start.users, a)
  }

  /** The first user of `a` has `a` as a peer: removing that shortens the list of users. */
  lemma StripUser<T>(start: Graph<T>, g: Graph<T>, a: T)
    requires Consistent(g) && a in g && Stripped(start, g, a) && g[a].users != []
    ensures Inside(g, g[a]) && g[a].users[0] in g
    ensures var r := RemovePeer(g, g[a].users[0], a);
      Consistent(r) && Stripped(start, r, a) && r[a].users == g[a].users[1..]
  {
    var f := g[a].users[0];
    assert Inside(g, g[a]);
    assert Agree(g, f, a);
    CountZero(Tasks(g[f].peers), a);
    var i := FirstOf(g[f].peers, a);
    assert i.Some?;
    UnlinkKeeps(g, f, i.value);
    RemoveTaskAt(g[f].peers, i.value);
    WithoutTaskAfterRemove(g[f].peers, a);
  }

  /** Taking the first entry out of the map of `a`. */
  lemma StripPeer<T>(start: Graph<T>, g: Graph<T>, a: T)
    requires Consistent(g) && a in g && Stripped(start, g, a) && g[a].peers != [] && g[a].users == []
    ensures Inside(g, g[a]) && g[a].peers[0].task in g
    ensures var r := Unlink(g, a, 0);
      Consistent(r) && Stripped(start, r, a) && r[a].peers == g[a].peers[1..] && r[a].users == []
  {
    assert Inside(g, g[a]);
    UnlinkKeeps(g, a, 0);
    WithoutAfterRemove(g[g[a].peers[0].task].users, a);
  }

  /** When `a` has no users and no peers left, nobody names it. */
  lemma StrippedIsDisconnected<T>(start: Graph<T>, g: Graph<T>, a: T)
    requires Consistent(g) && a in g && Stripped(start, g, a) && g[a].peers == [] && g[a].users == []
    ensures g == Disconnect(start, a)
  {
    forall c | c in g ensures g[c] == Disconnect(start, a)[c] {
      if c != a {
        assert Agree(g, c, a) && Agree(g, a, c);
        assert Tasks(g[a].peers) == [];
        CountZero(Tasks(g[c].peers), a);
        CountZero(g[c].users, a);
        WithoutTaskAbsent(g[c].peers, a);
        WithoutAbsent(g[c].users, a);
        assert StrippedAt(start[c], g[c], a);
      }
    }
  }
}
