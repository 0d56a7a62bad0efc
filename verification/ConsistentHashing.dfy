/** The consistent hasher: a sorted slice of hashes, a map from hash to virtual node, and the live
    servers.  The hash is any function to 32-bit values; nothing assumes that hashes differ. */
module ConsistentHashing {
  import opened Names
  import opened Rings

  datatype Server = Server(id: int, name: string)

  datatype Lookup = Found(name: string) | NoServers

  /** slices.Sort on a fresh slice. */
  method SortSlice(s: seq<Hash>) returns (a: array<Hash>)
    ensures fresh(a) && Ascending(a[..]) && multiset(a[..]) == multiset(s)
  {
    var sorted := InsertionSort(s);
    a := new Hash[|sorted|](i requires 0 <= i < |sorted| => sorted[i]);
    assert a[..] == sorted;
  }

  method InsertionSort(s: seq<Hash>) returns (r: seq<Hash>)
    ensures Ascending(r) && multiset(r) == multiset(s)
  {
    r := [];
    var i := 0;
    while i < |s|
      invariant 0 <= i <= |s| && Ascending(r) && multiset(r) == multiset(s[..i])
    {
      r := InsertHash(r, s[i]);
      assert s[..i + 1] == s[..i] + [s[i]];
      i := i + 1;
    }
    assert s[..i] == s;
  }

  method InsertHash(r: seq<Hash>, x: Hash) returns (r': seq<Hash>)
    requires Ascending(r)
    ensures Ascending(r') && multiset(r') == multiset(r) + multiset{x}
  {
    var j := 0;
    while j < |r| && r[j] < x
      invariant 0 <= j <= |r| && forall l :: 0 <= l < j ==> r[l] < x
    {
      j := j + 1;
    }
    assert r == r[..j] + r[j..];
    r' := r[..j] + [x] + r[j..];
  }

  class ConsistentHasher {
    const hash: string -> Hash
    const virtualNodesPerServer: nat
    /** The slice HashRing: the first size elements of its backing array. */
    var hashRing: array<Hash>
    var size: nat
    var nodeMap: NodeMap
    var servers: map<int, Server>
    var nextServerId: nat

    constructor (hash: string -> Hash, virtualNodesPerServer: nat)
      ensures Valid() && Ring() == [] && nodeMap == map[] && servers == map[] && nextServerId == 0
      ensures this.hash == hash && this.virtualNodesPerServer == virtualNodesPerServer && fresh(hashRing)
    {
      this.hash := hash;
      this.virtualNodesPerServer := virtualNodesPerServer;
      hashRing := new Hash[0];
      size := 0;
      nodeMap := map[];
      servers := map[];
      nextServerId := 0;
    }

    function Ring(): seq<Hash>
      requires size <= hashRing.Length
      reads this`hashRing, this`size, hashRing
    {
      hashRing[..size]
    }

    /** The hashes of a server's first n virtual nodes. */
    function HashesUpTo(serverName: string, n: nat): seq<Hash> {
      seq(n, i requires 0 <= i < n => hash(NodeName(serverName, i + 1)))
    }

    ghost function HashesOf(serverName: string): set<Hash> {
      PointsOf(HashesUpTo(serverName, virtualNodesPerServer))
    }

    /** The virtual node is one of the server's, and h is the hash of its name. */
    ghost predicate NodeNamed(h: Hash, node: VirtualNode, serverName: string) {
      && 1 <= node.vnId <= virtualNodesPerServer && h == hash(NodeName(serverName, node.vnId))
      && h in HashesOf(serverName)
    }

    /** A mapped virtual node belongs to a live server, at the hash of its own name. */
    ghost predicate NodeLive(h: Hash)
      reads this`nodeMap, this`servers
    {
      h in nodeMap ==>
        nodeMap[h].serverId in servers && NodeNamed(h, nodeMap[h], servers[nodeMap[h].serverId].name)
    }

    /** Names of virtual nodes that differ have hashes that differ. */
    ghost predicate CollisionFree() {
      forall a: nat, i: nat, b: nat, j: nat :: NamesApart(a, i, b, j)
    }

    ghost predicate NamesApart(a: nat, i: nat, b: nat, j: nat) {
      hash(NodeName(ServerName(a), i)) == hash(NodeName(ServerName(b), j)) ==>
        NodeName(ServerName(a), i) == NodeName(ServerName(b), j)
    }

    /** Then every server has as many hashes as virtual nodes, */
    lemma {:induction false} DistinctHashes(id: nat, n: nat)
      requires CollisionFree()
      ensures |PointsOf(HashesUpTo(ServerName(id), n))| == n
    {
      var hashes := HashesUpTo(ServerName(id), n);
      if n == 0 {
        assert PointsOf(hashes) == {};
      } else {
        DistinctHashes(id, n - 1);
        var front, last := HashesUpTo(ServerName(id), n - 1), hash(NodeName(ServerName(id), n));
        assert hashes == front + [last];
        assert PointsOf(hashes) == PointsOf(front) + {last};
        forall l | 0 <= l < n - 1
          ensures front[l] != last
        {
          assert NamesApart(id, l + 1, id, n);
          if front[l] == last {
            NodeNamesDiffer(id, l + 1, id, n);
          }
        }
      }
    }

    /** and no two servers share a hash. */
    lemma ServersApart(a: nat, b: nat)
      requires CollisionFree() && a != b
      ensures HashesOf(ServerName(a)) !! HashesOf(ServerName(b))
    {
      hide NodeName, ServerName;
      forall h | h in HashesOf(ServerName(a))
        ensures h !in HashesOf(ServerName(b))
      {
        var i :| 0 <= i < virtualNodesPerServer && h == hash(NodeName(ServerName(a), i + 1));
        if h in HashesOf(ServerName(b)) {
          var j :| 0 <= j < virtualNodesPerServer && h == hash(NodeName(ServerName(b), j + 1));
          assert NamesApart(a, i + 1, b, j + 1);
          NodeNamesDiffer(a, i + 1, b, j + 1);
        }
      }
    }

    lemma NoneShared(id: int)
      requires Valid() && CollisionFree() && id in servers
      ensures forall h :: !Shared(nodeMap, HashesOf(ServerName(id)), id, h)
    {
      forall h
        ensures !Shared(nodeMap, HashesOf(ServerName(id)), id, h)
      {
        assert NodeLive(h);
        if h in nodeMap && nodeMap[h].serverId != id {
          ServersApart(nodeMap[h].serverId, id);
        }
      }
    }

    /** A server that is still to come has hashes of its own. */
    lemma NewHashes()
      requires Valid() && CollisionFree()
      ensures |HashesOf(ServerName(nextServerId))| == virtualNodesPerServer
      ensures HashesOf(ServerName(nextServerId)) !! nodeMap.Keys
    {
      DistinctHashes(nextServerId, virtualNodesPerServer);
      forall h | h in nodeMap
        ensures h !in HashesOf(ServerName(nextServerId))
      {
        assert NodeLive(h);
        ServersApart(nodeMap[h].serverId, nextServerId);
      }
    }

    /** The ring is sorted, its hashes are exactly the mapped ones, and every mapped virtual node
        belongs to a live server. */
    ghost predicate Valid()
      reads this, hashRing
    {
      && size <= hashRing.Length && Ascending(Ring()) && PointsOf(Ring()) == nodeMap.Keys
      && (forall h :: NodeLive(h))
      && (forall id :: id in servers ==> 0 <= id < nextServerId && servers[id] == Server(id, ServerName(id)))
    }

    /** The server has the name, and no other live server has it. */
    ghost predicate OnlyName(id: int, name: string)
      reads this`servers
    {
      id in servers && forall other :: other in servers ==> (servers[other].name == name <==> other == id)
    }

    lemma OneName(id: int)
      requires Valid() && id in servers
      ensures OnlyName(id, servers[id].name)
    {
      forall other | other in servers && servers[other].name == servers[id].name
        ensures other == id
      {
        ServerNamesDiffer(other, id);
      }
    }

    /** The server of a key is the one mapped clockwise from the key's hash; it is live, and the only live
        server with the name that is returned. */
    method Get(key: string) returns (r: Lookup)
      requires Valid()
      ensures r == NoServers <==> nodeMap == map[]
      ensures r.Found? ==> exists id :: id in servers && Owns(nodeMap, hash(key), id) && OnlyName(id, r.name)
    {
      if size == 0 {
        assert PointsOf(Ring()) == {};
        return NoServers;
      }
      var keyHash := hash(key);
      var i, j := 0, size;
      while i < j
        invariant 0 <= i <= j <= size
        invariant forall l :: 0 <= l < i ==> hashRing[l] < keyHash
        invariant forall l :: j <= l < size ==> keyHash <= hashRing[l]
      {
        var h := (i + j) / 2;
        if hashRing[h] < keyHash {
          assert forall l :: 0 <= l <= h ==> Ring()[l] <= Ring()[h];
          i := h + 1;
        } else {
          assert forall l :: h <= l < size ==> Ring()[h] <= Ring()[l];
          j := h;
        }
      }
      SearchFindsSuccessor(Ring(), keyHash, i);
      var idx := if i == size then 0 else i;
      var virtualNodeHash := hashRing[idx];
      assert Ring()[idx] in PointsOf(Ring()) && NodeLive(virtualNodeHash);
      var virtualNode := nodeMap[virtualNodeHash];
      assert Owns(nodeMap, keyHash, virtualNode.serverId);
      OneName(virtualNode.serverId);
      return Found(servers[virtualNode.serverId].name);
    }

    /** Map the hashes of a new server's virtual nodes, over whatever was mapped there. */
    method MapNodes(serverName: string, id: int) returns (hashes: seq<Hash>)
      modifies this`nodeMap
      ensures hashes == HashesUpTo(serverName, virtualNodesPerServer)
      ensures AddedNodes(nodeMap, old(nodeMap), HashesOf(serverName), id)
      ensures forall h :: h in HashesOf(serverName) ==> NodeNamed(h, nodeMap[h], serverName)
    {
      hashes := [];
      var i := 0;
      while i < virtualNodesPerServer
        invariant 0 <= i <= virtualNodesPerServer && hashes == HashesUpTo(serverName, i)
        invariant AddedNodes(nodeMap, old(nodeMap), PointsOf(hashes), id)
        invariant forall h :: h in PointsOf(hashes) ==>
          1 <= nodeMap[h].vnId <= i && h == hash(NodeName(serverName, nodeMap[h].vnId))
      {
        var h := hash(NodeName(serverName, i + 1));
        assert PointsOf(hashes + [h]) == PointsOf(hashes) + {h};
        hashes := hashes + [h];
        nodeMap := nodeMap[h := VirtualNode(id, i + 1)];
        i := i + 1;
      }
    }

    /** Append the hashes to the slice and sort it. */
    method GrowRing(hashes: seq<Hash>)
      requires size <= hashRing.Length
      modifies this`hashRing, this`size
      ensures fresh(hashRing) && size == hashRing.Length && Ascending(Ring())
      ensures multiset(Ring()) == old(multiset(Ring())) + multiset(hashes)
      ensures PointsOf(Ring()) == old(PointsOf(Ring())) + PointsOf(hashes)
    {
      ghost var before := Ring();
      hashRing := SortSlice(hashRing[..size] + hashes);
      size := hashRing.Length;
      assert Ring() == hashRing[..];
      GrownRing(before, hashes, Ring());
    }

    method AddServer() returns (count: nat, ok: bool)
      requires Valid()
      modifies this`hashRing, this`size, this`nodeMap, this`servers, this`nextServerId
      ensures Valid() && fresh(hashRing)
      ensures ok && count == |servers|
      ensures nextServerId == old(nextServerId) + 1
      ensures servers == old(servers)[old(nextServerId) := Server(old(nextServerId), ServerName(old(nextServerId)))]
      ensures AddedNodes(nodeMap, old(nodeMap), HashesOf(ServerName(old(nextServerId))), old(nextServerId))
      ensures multiset(Ring()) == old(multiset(Ring()))
              + multiset(HashesUpTo(ServerName(old(nextServerId)), virtualNodesPerServer))
      ensures forall x, owner :: Owns(old(nodeMap), x, owner) ==>
        Owns(nodeMap, x, owner) || Owns(nodeMap, x, old(nextServerId))
      ensures |Ring()| == old(|Ring()|) + virtualNodesPerServer
      ensures CollisionFree() ==> |nodeMap| == old(|nodeMap|) + virtualNodesPerServer
    {
      hide CollisionFree, NodeName, Owns, ServerName;
      if CollisionFree() {
        NewHashes();
      }
      var id := nextServerId;
      var serverName := ServerName(id);
      servers := servers[id := Server(id, serverName)];
      var hashes := MapNodes(serverName, id);
      GrowRing(hashes);
      nextServerId := id + 1;
      forall h
        ensures NodeLive(h)
      {
        assert old(NodeLive(h));
      }
      MovesOnlyTo(nodeMap, old(nodeMap), HashesOf(serverName), id);
      AddedSize(nodeMap, old(nodeMap), HashesOf(serverName), id);
      assert |Ring()| == |multiset(Ring())|;
      return |servers|, true;
    }

    lemma MovesOnlyTo(now: NodeMap, was: NodeMap, hashes: set<Hash>, id: int)
      requires AddedNodes(now, was, hashes, id)
      ensures forall x, owner :: Owns(was, x, owner) ==> Owns(now, x, owner) || Owns(now, x, id)
    {
      forall x, owner | Owns(was, x, owner)
        ensures Owns(now, x, owner) || Owns(now, x, id)
      {
        AddMovesOnlyToNew(now, was, hashes, id, x, owner);
      }
    }

    lemma AddedSize(now: NodeMap, was: NodeMap, hashes: set<Hash>, id: int)
      requires AddedNodes(now, was, hashes, id)
      ensures hashes !! was.Keys ==> |now| == |was| + |hashes|
    {
      assert |now| == |now.Keys| && |was| == |was.Keys|;
    }

    lemma GrownRing(before: seq<Hash>, hashes: seq<Hash>, after: seq<Hash>)
      requires multiset(after) == multiset(before + hashes)
      ensures multiset(after) == multiset(before) + multiset(hashes)
      ensures PointsOf(after) == PointsOf(before) + PointsOf(hashes)
    {
      forall h
        ensures h in PointsOf(after) <==> h in PointsOf(before) + PointsOf(hashes)
      {
        assert h in after <==> h in multiset(after);
        assert h in before <==> h in multiset(before);
        assert h in hashes <==> h in multiset(hashes);
      }
    }

    /** Unmap the hashes of a server, whoever they are mapped to. */
    method UnmapNodes(serverName: string) returns (hashesToRemove: set<Hash>)
      modifies this`nodeMap
      ensures hashesToRemove == HashesOf(serverName)
      ensures RemovedNodes(nodeMap, old(nodeMap), hashesToRemove)
    {
      hashesToRemove := {};
      var i := 0;
      while i < virtualNodesPerServer
        invariant 0 <= i <= virtualNodesPerServer && hashesToRemove == PointsOf(HashesUpTo(serverName, i))
        invariant RemovedNodes(nodeMap, old(nodeMap), hashesToRemove)
      {
        var h := hash(NodeName(serverName, i + 1));
        assert HashesUpTo(serverName, i + 1) == HashesUpTo(serverName, i) + [h];
        assert PointsOf(HashesUpTo(serverName, i) + [h]) == PointsOf(HashesUpTo(serverName, i)) + {h};
        hashesToRemove := hashesToRemove + {h};
        nodeMap := nodeMap - {h};
        i := i + 1;
      }
    }

    /** Filter the slice in place, writing behind the reading position. */
    method FilterInPlace(gone: set<Hash>)
      requires size <= hashRing.Length
      modifies this`size, hashRing
      ensures size <= hashRing.Length && Ring() == Without(old(Ring()), gone)
    {
      ghost var before := Ring();
      var n, w := size, 0;
      var i := 0;
      while i < n
        invariant 0 <= w <= i <= n == |before| <= hashRing.Length
        invariant hashRing[..w] == Without(before[..i], gone)
        invariant forall l :: i <= l < n ==> hashRing[l] == before[l]
      {
        var h := hashRing[i];
        assert before[..i + 1][..i] == before[..i];
        if h !in gone {
          hashRing[w] := h;
          w := w + 1;
        }
        i := i + 1;
      }
      assert before[..i] == before;
      size := w;
    }

    /** Keys that the server did not own keep their owner exactly when each hash it shares with
        another server falls back to that server; with no shared hash this always holds. */
    method RemoveServer(serverId: int) returns (count: nat, ok: bool)
      requires Valid()
      modifies this`size, this`nodeMap, this`servers, hashRing
      ensures Valid() && count == |servers| && ok == (serverId in old(servers))
      ensures !ok ==> Ring() == old(Ring()) && nodeMap == old(nodeMap) && servers == old(servers)
      ensures ok ==>
        && servers == old(servers) - {serverId}
        && RemovedNodes(nodeMap, old(nodeMap), HashesOf(ServerName(serverId)))
        && Ring() == Without(old(Ring()), HashesOf(ServerName(serverId)))
      ensures ok ==> (OthersUndisturbed(nodeMap, old(nodeMap), serverId) <==>
        forall h :: Shared(old(nodeMap), HashesOf(ServerName(serverId)), serverId, h) ==>
          Owns(old(nodeMap) - HashesOf(ServerName(serverId)), h, old(nodeMap)[h].serverId))
      ensures ok && CollisionFree() ==> OthersUndisturbed(nodeMap, old(nodeMap), serverId)
    {
      if CollisionFree() && serverId in servers {
        NoneShared(serverId);
      }
      if serverId !in servers {
        return |servers|, false;
      }
      var serverName := servers[serverId].name;
      var hashesToRemove := UnmapNodes(serverName);
      WithoutAscending(Ring(), hashesToRemove);
      WithoutPoints(Ring(), hashesToRemove);
      FilterInPlace(hashesToRemove);
      servers := servers - {serverId};
      forall h
        ensures NodeLive(h)
      {
        assert old(NodeLive(h));
      }
      RemoveDisturbsIff(nodeMap, old(nodeMap), hashesToRemove, serverId);
      return |servers|, true;
    }

    /** Adding a server and removing it again restores ring, map and servers exactly when none of its
        hashes was on the ring before. */
    method AddThenRemove()
      requires Valid()
      modifies this, hashRing
      ensures Valid() && servers == old(servers)
      ensures (Ring() == old(Ring()) && nodeMap == old(nodeMap)) <==>
        old(nodeMap).Keys !! HashesOf(ServerName(old(nextServerId)))
      ensures CollisionFree() ==> Ring() == old(Ring()) && nodeMap == old(nodeMap)
    {
      if CollisionFree() {
        NewHashes();
      }
      var id := nextServerId;
      ghost var gone := HashesOf(ServerName(id));
      ghost var ring, nodes := Ring(), nodeMap;
      var count, ok := AddServer();
      ghost var grown := Ring();
      count, ok := RemoveServer(id);
      AddThenFilter(ring, HashesUpTo(ServerName(id), virtualNodesPerServer), grown, gone);
      MapRestoredIff(nodeMap, nodes, gone);
    }

    lemma MapRestoredIff(now: NodeMap, was: NodeMap, gone: set<Hash>)
      requires now.Keys == was.Keys + gone - gone && forall h :: h in now ==> now[h] == was[h]
      ensures now == was <==> was.Keys !! gone
    {
    }
  }

  predicate FirstTwoCollide(hash: string -> Hash) {
    hash("Server_0#VN_1") == hash("Server_1#VN_1") != hash("Server_2#VN_1")
  }

  /** Add a server that has a single virtual node. */
  method AddSingle(ch: ConsistentHasher)
    requires ch.Valid() && ch.virtualNodesPerServer == 1
    modifies ch
    ensures ch.Valid() && fresh(ch.hashRing) && ch.nextServerId == old(ch.nextServerId) + 1
    ensures var id := old(ch.nextServerId);
      && ch.servers == old(ch.servers)[id := Server(id, ServerName(id))]
      && AddedNodes(ch.nodeMap, old(ch.nodeMap), {ch.hash(NodeName(ServerName(id), 1))}, id)
  {
    hide Owns;
    ghost var name := ServerName(ch.nextServerId);
    assert ch.HashesUpTo(name, 1) == [ch.hash(NodeName(name, 1))];
    assert ch.HashesOf(name) == {ch.hash(NodeName(name, 1))};
    var count, ok := ch.AddServer();
  }

  /** Three servers with one virtual node each, of which the second has taken the first one's place. */
  method ThreeServers(hash: string -> Hash) returns (ch: ConsistentHasher)
    requires FirstTwoCollide(hash)
    ensures fresh(ch) && fresh(ch.hashRing) && ch.Valid() && ch.hash == hash && ch.virtualNodesPerServer == 1
    ensures ch.servers.Keys == {0, 1, 2} && ch.servers[1].name == "Server_1" && ch.servers[2].name == "Server_2"
    ensures ch.nodeMap.Keys == {hash("Server_1#VN_1"), hash("Server_2#VN_1")}
    ensures ch.nodeMap[hash("Server_1#VN_1")].serverId == 1 && ch.nodeMap[hash("Server_2#VN_1")].serverId == 2
  {
    hide ConsistentHasher.Valid, ServerName, NodeName;
    ch := new ConsistentHasher(hash, 1);
    FirstNames();
    AddSingle(ch);
    assert ch.nodeMap.Keys == {hash("Server_0#VN_1")};
    AddSingle(ch);
    assert ch.nodeMap.Keys == {hash("Server_1#VN_1")} && ch.nodeMap[hash("Server_1#VN_1")].serverId == 1;
    AddSingle(ch);
  }

  /** With a hash that the first two of three servers share, removing the first server takes a key away
      from the second. */
  method RemovalTakesSharedKey(hash: string -> Hash, key: string) returns (before: Lookup, after: Lookup)
    requires FirstTwoCollide(hash) && hash(key) == hash("Server_1#VN_1")
    ensures before == Found("Server_1") && after == Found("Server_2")
  {
    hide FirstTwoCollide, IsSuccessor, Owns, OthersUndisturbed, Shared, Without;
    var ch := ThreeServers(hash);
    var h, g := hash("Server_1#VN_1"), hash("Server_2#VN_1");
    OwnedAt(ch.nodeMap, h, 1);
    before := ch.Get(key);
    GoneHashes(ch);
    var count, ok := ch.RemoveServer(0);
    OnlyOwner(ch.nodeMap, h, g);
    after := ch.Get(key);
  }

  lemma GoneHashes(ch: ConsistentHasher)
    requires FirstTwoCollide(ch.hash) && ch.virtualNodesPerServer == 1
    ensures ch.HashesOf(ServerName(0)) == {ch.hash("Server_1#VN_1")}
    ensures ch.hash("Server_2#VN_1") != ch.hash("Server_1#VN_1")
  {
    FirstNames();
    assert ch.HashesUpTo(ServerName(0), 1) == [ch.hash("Server_0#VN_1")];
  }

  lemma OwnedAt(nodes: NodeMap, h: Hash, server: int)
    requires h in nodes && nodes[h].serverId == server
    ensures forall id :: Owns(nodes, h, id) <==> id == server
  {
    OwnsItself(nodes, h);
    forall id | Owns(nodes, h, id)
      ensures id == server
    {
      OneOwner(nodes, h, id, server);
    }
  }

  lemma OnlyOwner(nodes: NodeMap, x: Hash, g: Hash)
    requires nodes.Keys == {g}
    ensures forall id :: Owns(nodes, x, id) ==> id == nodes[g].serverId
  {
  }
}
