/** The geometry of the hash ring: points on a 32-bit circle, the clockwise successor of a position,
    and what adding and removing points does to it. */
module Rings {

  newtype Hash = x: int | 0 <= x < 0x1_0000_0000

  datatype VirtualNode = VirtualNode(serverId: int, vnId: int)

  type NodeMap = map<Hash, VirtualNode>

  // ---------------------------------------------------------------- clockwise successors

  /** h is the first point at or after x, or the first point of all when there is none. */
  ghost predicate IsSuccessor(points: set<Hash>, x: Hash, h: Hash) {
    && h in points
    && (forall p :: p in points && x <= p ==> x <= h <= p)
    && (h < x ==> forall p :: p in points ==> h <= p)
  }

  lemma OneSuccessor(points: set<Hash>, x: Hash, h: Hash, g: Hash)
    requires IsSuccessor(points, x, h) && IsSuccessor(points, x, g)
    ensures h == g
  {
  }

  lemma {:induction false} LeastPoint(points: set<Hash>, p: Hash) returns (h: Hash)
    requires p in points
    ensures h in points && forall q :: q in points ==> h <= q
    decreases |points|
  {
    if q :| q in points && q < p {
      var smaller := set r | r in points && r < p;
      assert p in points && p !in smaller;
      assert smaller < points;
      SmallerSet(smaller, points);
      h := LeastPoint(smaller, q);
      forall r | r in points
        ensures h <= r
      {
        assert r < p ==> r in smaller;
      }
    } else {
      h := p;
    }
  }

  lemma SmallerSet<T>(a: set<T>, b: set<T>)
    requires a < b
    ensures |a| < |b|
  {
    assert b == a + (b - a);
    assert b - a != {};
  }

  lemma SuccessorExists(points: set<Hash>, x: Hash, p: Hash) returns (h: Hash)
    requires p in points
    ensures IsSuccessor(points, x, h)
  {
    if q :| q in points && x <= q {
      var later := set r | r in points && x <= r;
      h := LeastPoint(later, q);
      assert forall r :: r in points && x <= r ==> r in later;
    } else {
      h := LeastPoint(points, p);
    }
  }

  /** The server that a position belongs to: the one mapped at its successor. */
  ghost predicate Owns(nodes: NodeMap, x: Hash, server: int) {
    exists h :: IsSuccessor(nodes.Keys, x, h) && nodes[h].serverId == server
  }

  lemma OneOwner(nodes: NodeMap, x: Hash, s: int, t: int)
    requires Owns(nodes, x, s) && Owns(nodes, x, t)
    ensures s == t
  {
  }

  // ---------------------------------------------------------------- adding points

  /** The node map after a server has put its hashes on the ring, over whatever was there. */
  ghost predicate AddedNodes(now: NodeMap, was: NodeMap, hashes: set<Hash>, server: int) {
    && now.Keys == was.Keys + hashes
    && (forall h :: h in hashes ==> now[h].serverId == server)
    && (forall h :: h in was && h !in hashes ==> now[h] == was[h])
  }

  /** A position changes hands only to the new server, and does so exactly when its successor on the
      new ring is one of the new hashes; collisions with old points make no difference. */
  lemma AddMovesOnlyToNew(now: NodeMap, was: NodeMap, hashes: set<Hash>, server: int, x: Hash, owner: int)
    requires AddedNodes(now, was, hashes, server)
    requires Owns(was, x, owner)
    ensures Owns(now, x, server) || Owns(now, x, owner)
    ensures (exists h :: h in hashes && IsSuccessor(now.Keys, x, h)) ==> Owns(now, x, server)
    ensures !(exists h :: h in hashes && IsSuccessor(now.Keys, x, h)) ==> Owns(now, x, owner)
  {
    var g :| IsSuccessor(was.Keys, x, g) && was[g].serverId == owner;
    assert g in now.Keys;
    var h := SuccessorExists(now.Keys, x, g);
    if h in hashes {
      assert now[h].serverId == server;
    } else {
      assert IsSuccessor(was.Keys, x, h);
      OneSuccessor(was.Keys, x, g, h);
    }
  }

  // ---------------------------------------------------------------- removing points

  ghost predicate RemovedNodes(now: NodeMap, was: NodeMap, hashes: set<Hash>) {
    && now.Keys == was.Keys - hashes
    && forall h :: h in now ==> now[h] == was[h]
  }

  /** A hash of the server that is mapped to another server. */
  ghost predicate Shared(nodes: NodeMap, hashes: set<Hash>, server: int, h: Hash) {
    h in hashes && h in nodes && nodes[h].serverId != server
  }

  /** Every position that the removed server did not own keeps its owner. */
  ghost predicate OthersUndisturbed(now: NodeMap, was: NodeMap, server: int) {
    forall x: Hash, owner :: Owns(was, x, owner) && owner != server ==> Owns(now, x, owner)
  }

  lemma OwnsItself(nodes: NodeMap, h: Hash)
    requires h in nodes
    ensures Owns(nodes, h, nodes[h].serverId)
  {
  }

  /** Removal disturbs nobody else exactly when each shared hash falls, with the server's hashes left
      out, to the server that is mapped there. */
  lemma RemoveDisturbsIff(now: NodeMap, was: NodeMap, hashes: set<Hash>, server: int)
    requires RemovedNodes(now, was, hashes)
    ensures OthersUndisturbed(now, was, server) <==>
      forall h :: Shared(was, hashes, server, h) ==> Owns(was - hashes, h, was[h].serverId)
  {
    assert now == was - hashes;
  }

  /** In particular, a server that shares no hash disturbs only its own keys. */
  lemma RemoveDisturbsOnlyItsOwn(now: NodeMap, was: NodeMap, hashes: set<Hash>, server: int)
    requires RemovedNodes(now, was, hashes)
    requires forall h :: !Shared(was, hashes, server, h)
    ensures OthersUndisturbed(now, was, server)
  {
    RemoveDisturbsIff(now, was, hashes, server);
  }

  /** With a shared hash, removing one server can take another server's keys with it. */
  lemma SharedHashDisturbs(h: Hash, g: Hash, s: int, t: int, u: int)
    requires h < g && s != t && t != u && s != u
    ensures var was: NodeMap := map[h := VirtualNode(t, 1), g := VirtualNode(u, 1)];
      var now: NodeMap := map[g := VirtualNode(u, 1)];
      RemovedNodes(now, was, {h}) && Owns(was, h, t) && !Owns(now, h, t)
  {
    var was: NodeMap := map[h := VirtualNode(t, 1), g := VirtualNode(u, 1)];
    var now: NodeMap := map[g := VirtualNode(u, 1)];
    assert was.Keys == {h, g} && now.Keys == {g};
    OwnsItself(was, h);
    assert IsSuccessor(now.Keys, h, g);
    assert Owns(now, h, u);
    if Owns(now, h, t) {
      OneOwner(now, h, t, u);
    }
  }

  // ---------------------------------------------------------------- the sorted slice

  ghost predicate Ascending(s: seq<Hash>) {
    forall i, j :: 0 <= i < j < |s| ==> s[i] <= s[j]
  }

  ghost function PointsOf(s: seq<Hash>): set<Hash> {
    set h | h in s
  }

  /** Wrapping around past the end of the sorted slice finds the successor. */
  lemma SearchFindsSuccessor(ring: seq<Hash>, x: Hash, i: nat)
    requires Ascending(ring) && ring != [] && i <= |ring|
    requires forall l :: 0 <= l < i ==> ring[l] < x
    requires forall l :: i <= l < |ring| ==> x <= ring[l]
    ensures IsSuccessor(PointsOf(ring), x, ring[if i == |ring| then 0 else i])
  {
  }

  lemma LastApart(s: seq<Hash>)
    requires s != []
    ensures multiset(s[..|s| - 1]) == multiset(s) - multiset{s[|s| - 1]}
  {
    assert s == s[..|s| - 1] + [s[|s| - 1]];
  }

  lemma LastIsLargest(s: seq<Hash>, h: Hash)
    requires Ascending(s) && h in multiset(s)
    ensures h <= s[|s| - 1]
  {
  }

  lemma FrontAndLast(a: seq<Hash>, b: seq<Hash>)
    requires |a| == |b| > 0 && a[..|a| - 1] == b[..|b| - 1] && a[|a| - 1] == b[|b| - 1]
    ensures a == b
  {
  }

  lemma {:induction false} SortedIsUnique(a: seq<Hash>, b: seq<Hash>)
    requires Ascending(a) && Ascending(b) && multiset(a) == multiset(b)
    ensures a == b
  {
    assert |a| == |multiset(a)| == |multiset(b)| == |b|;
    if a != [] {
      var n := |a| - 1;
      LastIsLargest(a, b[n]);
      LastIsLargest(b, a[n]);
      assert a[n] == b[n];
      LastApart(a);
      LastApart(b);
      assert multiset(a[..n]) == multiset(b[..n]);
      SortedIsUnique(a[..n], b[..n]);
      FrontAndLast(a, b);
    }
  }

  function Without(s: seq<Hash>, gone: set<Hash>): seq<Hash> {
    if s == [] then []
    else
      var front := Without(s[..|s| - 1], gone);
      if s[|s| - 1] in gone then front else front + [s[|s| - 1]]
  }

  lemma {:induction false} WithoutBag(s: seq<Hash>, gone: set<Hash>, h: Hash)
    ensures multiset(Without(s, gone))[h] == if h in gone then 0 else multiset(s)[h]
  {
    if s != [] {
      WithoutBag(s[..|s| - 1], gone, h);
      assert s == s[..|s| - 1] + [s[|s| - 1]];
    }
  }

  lemma {:induction false} WithoutAscending(s: seq<Hash>, gone: set<Hash>)
    requires Ascending(s)
    ensures Ascending(Without(s, gone))
    ensures s != [] ==> forall i :: 0 <= i < |Without(s, gone)| ==> Without(s, gone)[i] <= s[|s| - 1]
  {
    if s != [] {
      WithoutAscending(s[..|s| - 1], gone);
    }
  }

  lemma WithoutPoints(s: seq<Hash>, gone: set<Hash>)
    ensures PointsOf(Without(s, gone)) == PointsOf(s) - gone
  {
    forall h
      ensures h in PointsOf(Without(s, gone)) <==> h in PointsOf(s) - gone
    {
      WithoutBag(s, gone, h);
      assert h in Without(s, gone) <==> h in multiset(Without(s, gone));
      assert h in s <==> h in multiset(s);
    }
  }

  /** Adding hashes that are not on the ring and filtering them out again gives back the same slice. */
  lemma AddThenFilter(ring: seq<Hash>, added: seq<Hash>, grown: seq<Hash>, gone: set<Hash>)
    requires Ascending(ring) && Ascending(grown) && multiset(grown) == multiset(ring) + multiset(added)
    requires forall h :: h in added <==> h in gone
    ensures Without(grown, gone) == ring <==> PointsOf(ring) !! gone
  {
    if PointsOf(ring) !! gone {
      forall h
        ensures multiset(Without(grown, gone))[h] == multiset(ring)[h]
      {
        WithoutBag(grown, gone, h);
        assert h in multiset(ring) ==> h in PointsOf(ring);
        assert h in multiset(added) <==> h in added;
      }
      WithoutAscending(grown, gone);
      SortedIsUnique(Without(grown, gone), ring);
    } else {
      var h :| h in PointsOf(ring) && h in gone;
      WithoutBag(grown, gone, h);
      assert h in multiset(ring);
    }
  }
}
