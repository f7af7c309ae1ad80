/** The class TaskContext of rtt/TaskContext.cpp, as far as its peers go.  `world` is the set of all
    components; the operations are proved against PeerGraph. */
module TaskContexts {
  import opened Options
  import opened PeerMaps
  import opened Sequences
  import PeerGraph

  ghost function Graph(world: set<TaskContext>): PeerGraph.Graph<TaskContext>
    reads world
  {
    map c | c in world :: c.View()
  }

  /** How `addPeer` ends: true, false, or a call through a null pointer. */
  datatype Outcome = Added | Refused | NullDereference

  class TaskContext {
    const name: string
    var peers: seq<Entry<TaskContext>>
    var musers: seq<TaskContext>

    ghost function View(): PeerGraph.Node<TaskContext>
      reads this
    {
      PeerGraph.Node(name, peers, musers)
    }

    constructor (n: string)
      ensures name == n && peers == [] && musers == []
    {
      name, peers, musers := n, [], [];
    }

    method AddUser(peer: TaskContext)
      modifies this`musers
      ensures musers == old(musers) + [peer]
    {
      musers := musers + [peer];
    }

    method RemoveUser(peer: TaskContext)
      modifies this`musers
      ensures musers == RemoveFirst(old(musers), peer)
    {
      var it := 0;
      while it != |musers| && musers[it] != peer
        invariant it <= |musers| && peer !in musers[..it]
      {
        it := it + 1;
      }
      if it != |musers| {
        RemoveFirstAt(musers, it);
        musers := musers[..it] + musers[it + 1..];
      } else {
        assert musers[..it] == musers;
        RemoveFirstAbsent(musers, peer);
      }
    }

    predicate HasPeer(alias: string)
      reads this
    {
      Find(peers, alias).Some?
    }

    /** The empty alias stands for the name of the peer, which is asked for before the peer is tested
        for null: that call crashes.  Otherwise a null peer and an alias that is taken are refused. */
    method AddPeer(peer: TaskContext?, alias: string, ghost world: set<TaskContext>) returns (outcome: Outcome)
      requires this in world && (peer != null ==> peer in world)
      modifies world
      ensures outcome == NullDereference <==> peer == null && alias == ""
      ensures outcome == Added <==> peer != null && !old(HasPeer(if alias == "" then peer.name else alias))
      ensures Graph(world) ==
        if peer == null then old(Graph(world)) else PeerGraph.AddPeer(old(Graph(world)), this, peer, alias)
    {
      outcome := Refused;
      if alias == "" && peer == null {
        outcome := NullDereference;
      } else if peer != null {
        var key := if alias == "" then peer.name else alias;
        if Find(peers, key).None? {
          peers := Insert(peers, key, peer);
          peer.AddUser(this);
          outcome := Added;
        }
      }
    }

    /** The peer loses this user, and the map the entry. */
    method EraseAt(it: nat, ghost world: set<TaskContext>)
      requires this in world && it < |peers| && peers[it].task in world
      modifies world
      ensures Graph(world) == PeerGraph.Unlink(old(Graph(world)), this, it)
    {
      peers[it].task.RemoveUser(this);
      peers := peers[..it] + peers[it + 1..];
    }

    method RemovePeerNamed(alias: string, ghost world: set<TaskContext>)
      requires this in world && PeerGraph.Consistent(Graph(world))
      modifies world
      ensures PeerGraph.Inside(old(Graph(world)), old(View()))
      ensures Graph(world) == PeerGraph.RemovePeerNamed(old(Graph(world)), this, alias)
    {
      assert PeerGraph.Inside(Graph(world), Graph(world)[this]);
      var it := Find(peers, alias);
      if it.Some? {
        EraseAt(it.value, world);
      }
    }

    /** Removes the first alias of the peer. */
    method RemovePeer(peer: TaskContext, ghost world: set<TaskContext>)
      requires this in world && peer in world
      modifies world
      ensures Graph(world) == PeerGraph.RemovePeer(old(Graph(world)), this, peer)
    {
      var it := 0;
      while it != |peers| && peers[it].task != peer
        invariant it <= |peers| && forall k | 0 <= k < it :: peers[k].task != peer
        invariant Graph(world) == old(Graph(world))
      {
        it := it + 1;
      }
      PeerGraph.FirstOfIs(peers, peer, it);
      if it != |peers| {
        EraseAt(it, world);
      }
    }

    method ConnectPeers(peer: TaskContext, ghost world: set<TaskContext>) returns (ok: bool)
      requires this in world && peer in world
      modifies world
      ensures ok <==> PeerGraph.CanConnect(old(Graph(world)), this, peer)
      ensures Graph(world) == PeerGraph.ConnectPeers(old(Graph(world)), this, peer)
    {
      ok := !HasPeer(peer.name) && !peer.HasPeer(name);
      if ok {
        var _ := AddPeer(peer, "", world);
        var _ := peer.AddPeer(this, "", world);
      }
    }

    method DisconnectPeers(alias: string, ghost world: set<TaskContext>)
      requires this in world && PeerGraph.Consistent(Graph(world))
      modifies world
      ensures PeerGraph.Inside(old(Graph(world)), old(View()))
      ensures Graph(world) == PeerGraph.DisconnectPeers(old(Graph(world)), this, alias)
    {
      assert PeerGraph.Inside(Graph(world), Graph(world)[this]);
      var it := Find(peers, alias);
      if it.Some? {
        var peer := peers[it.value].task;
        RemovePeer(peer, world);
        peer.RemovePeer(this, world);
      }
    }

    /** `disconnect`, the ports left out: both loops end, and then the component is nobody's peer and
        nobody's user. */
    method Disconnect(ghost world: set<TaskContext>)
      requires this in world && PeerGraph.Consistent(Graph(world))
      modifies world
      ensures Graph(world) == PeerGraph.Disconnect(old(Graph(world)), this)
    {
      ghost var start := Graph(world);
      while musers != []
        invariant PeerGraph.Consistent(Graph(world)) && PeerGraph.Stripped(start, Graph(world), this)
        decreases |musers|
      {
        PeerGraph.StripUser(start, Graph(world), this);
        musers[0].RemovePeer(this, world);
        assert Graph(world)[this] == View();
      }
      while peers != []
        invariant PeerGraph.Consistent(Graph(world)) && PeerGraph.Stripped(start, Graph(world), this)
        invariant musers == []
        decreases |peers|
      {
        PeerGraph.StripPeer(start, Graph(world), this);
        EraseAt(0, world);
      }
      PeerGraph.StrippedIsDisconnected(start, Graph(world), this);
    }
  }
}
