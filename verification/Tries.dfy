/** The heap-allocated trie with its per-node top lists. */
module Tries {
  import opened Basics
  import opened Recos
  import opened Completions

  const DEFAULT_K := 10

  class Node {
    var val: Rune
    var children: map<Rune, Node>
    var isWord: bool
    var freq: int
    var top: Option<seq<Reco>>

    constructor ()
      ensures children == map[] && !isWord && freq == 0 && top == None
    {
      val := Rune(0);
      children := map[];
      isWord := false;
      freq := 0;
      top := None;
    }
  }

  /** A cached list is the answer for a pool; no list at all (nil) only for an empty pool. */
  ghost predicate IsAnswer(top: Option<seq<Reco>>, pool: multiset<Reco>, k: nat) {
    match top
    case None => pool == multiset{}
    case Some(list) => list != [] && IsTopK(list, pool, k)
  }

  class Trie {
    var root: Node
    var k: int
    var cacheDepth: int
    /** The node at the end of each path from the root. */
    ghost var nodes: map<Str, Node>
    /** The nodes of the trie. */
    ghost var repr: set<Node>
    /** The word list the trie stores. */
    ghost var words: Words

    ghost predicate Owned()
      reads this`nodes, this`repr
    {
      forall p :: p in nodes ==> nodes[p] in repr
    }

    ghost function NodeAt(p: Str): set<Node>
      reads this`nodes
    {
      if p in nodes then {nodes[p]} else {}
    }

    /** The child of p under c, if there is one, is the node one rune further. */
    ghost predicate LinkOk(p: Str, c: Rune)
      reads this`nodes, NodeAt(p)`children
    {
      && (p in nodes && c in nodes[p].children ==>
            Ext(p, c) in nodes && nodes[Ext(p, c)] == nodes[p].children[c])
      && (Ext(p, c) in nodes ==> p in nodes && c in nodes[p].children)
    }

    /** No node is on two paths. */
    ghost predicate Apart(p: Str, q: Str)
      reads this`nodes
    {
      p in nodes && q in nodes && nodes[p] == nodes[q] ==> p == q
    }

    /** Word mark and frequency at p are what the word list says. */
    ghost predicate WordOk(p: Str)
      reads this`nodes, this`words, NodeAt(p)`isWord, NodeAt(p)`freq
    {
      && (p in words ==> p in nodes)
      && (p in nodes ==> (nodes[p].isWord <==> p in words) && nodes[p].freq == if p in words then words[p] else 0)
    }

    /** The nodes are a tree, and their marks and frequencies are exactly the word list. */
    ghost predicate Shape()
      reads this`root, this`nodes, this`repr, this`words, repr`children, repr`isWord, repr`freq
    {
      && [] in nodes && nodes[[]] == root
      && Owned()
      && (forall p, c :: LinkOk(p, c))
      && (forall p, q :: Apart(p, q))
      && (forall p :: WordOk(p))
    }

    /** Every node but the root was made for some word. */
    ghost predicate Valid()
      reads this`root, this`nodes, this`repr, this`words, repr`children, repr`isWord, repr`freq
    {
      Shape() && forall p :: MadeForWord(p)
    }

    ghost predicate MadeForWord(p: Str)
      reads this`nodes, this`words
    {
      p in nodes && p != [] ==> IsPrefixOfWord(words, p)
    }

    ghost function Below(p: Str): set<Str>
      reads this`nodes
    {
      set q | q in nodes && p <= q
    }

    constructor ()
      ensures Valid() && fresh(root) && words == map[] && nodes == map[[] := root]
      ensures k == 0 && cacheDepth == 0 && root.top == None && repr == {root}
    {
      root := new Node();
      k, cacheDepth := 0, 0;
      new;
      nodes := map[[] := root];
      repr := {root};
      words := map[];
      forall p, c
        ensures LinkOk(p, c)
      {
        assert |Ext(p, c)| > 0;
      }
    }

    // -------------------------------------------------------------- structure

    lemma {:induction false} PrefixesAreNodes(p: Str, q: Str)
      requires Shape() && q in nodes && p <= q
      ensures p in nodes
    {
      if |p| < |q| {
        var n := |q| - 1;
        assert q == Ext(q[..n], q[n]) && LinkOk(q[..n], q[n]);
        PrefixesAreNodes(p, q[..n]);
      } else {
        assert p == q;
      }
    }

    lemma ChildTowards(p: Str, q: Str)
      requires Shape() && q in nodes && p <= q && p != q
      ensures p in nodes && q[|p|] in nodes[p].children && Ext(p, q[|p|]) <= q
    {
      assert Ext(p, q[|p|]) == q[..|p| + 1] && LinkOk(p, q[|p|]);
      PrefixesAreNodes(q[..|p| + 1], q);
    }

    lemma NodeIffPrefix(s: Str)
      requires Valid()
      ensures s in nodes <==> s == [] || IsPrefixOfWord(words, s)
    {
      assert MadeForWord(s);
      if w :| w in words && s <= w {
        assert WordOk(w);
        PrefixesAreNodes(s, w);
      }
    }

    lemma ChildBelow(p: Str, c: Rune)
      requires Shape() && p in nodes && c in nodes[p].children
      ensures Ext(p, c) in nodes && nodes[Ext(p, c)] == nodes[p].children[c]
      ensures Below(Ext(p, c)) < Below(p)
    {
      assert LinkOk(p, c);
      assert p in Below(p) && p !in Below(Ext(p, c));
      forall q | q in Below(Ext(p, c))
        ensures q in Below(p)
      {
      }
    }

    // -------------------------------------------------------------- insert and search

    lemma SameExt(p: Str, c: Rune, q: Str, d: Rune)
      requires Ext(p, c) == Ext(q, d)
      ensures p == q && c == d
    {
      assert Ext(p, c)[..|p|] == p && Ext(q, d)[..|q|] == q;
      assert Ext(p, c)[|p|] == c && Ext(q, d)[|q|] == d;
    }

    method AddChild(ghost p: Str, node: Node, x: Rune) returns (child: Node)
      requires Shape() && p in nodes && nodes[p] == node && x !in node.children
      modifies this`nodes, this`repr, node`children
      ensures Shape() && fresh(child) && child.top == None
      ensures nodes == old(nodes)[Ext(p, x) := child] && Ext(p, x) !in old(nodes)
      ensures node.children == old(node.children)[x := child]
      ensures repr == old(repr) + {child}
    {
      assert LinkOk(p, x);
      child := new Node();
      child.val := x;
      node.children := node.children[x := child];
      nodes := nodes[Ext(p, x) := child];
      repr := repr + {child};
      forall q, c
        ensures LinkOk(q, c)
      {
        assert old(LinkOk(q, c)) && old(LinkOk(Ext(p, x), c)) && old(Apart(p, q));
        if Ext(q, c) == Ext(p, x) {
          SameExt(q, c, p, x);
        }
      }
      forall q, r
        ensures Apart(q, r)
      {
        assert old(Apart(q, r));
      }
      forall q
        ensures WordOk(q)
      {
        assert old(WordOk(q)) && old(WordOk(Ext(p, x)));
      }
    }

    /** One turn of the insertion loop: follow rune x, adding the child if it is missing. */
    method Descend(ghost p: Str, node: Node, x: Rune) returns (child: Node)
      requires Shape() && p in nodes && nodes[p] == node
      modifies this`nodes, this`repr, node`children
      ensures Shape()
      ensures nodes.Keys == old(nodes.Keys) + {Ext(p, x)} && nodes[Ext(p, x)] == child
      ensures forall q :: q in old(nodes) ==> nodes[q] == old(nodes)[q]
      ensures forall q :: q in nodes && q !in old(nodes) ==> fresh(nodes[q]) && nodes[q].top == None
      ensures old(repr) <= repr && fresh(repr - old(repr))
    {
      assert LinkOk(p, x);
      if x !in node.children {
        child := AddChild(p, node, x);
      } else {
        child := node.children[x];
      }
    }

    /** The insertion loop: walk down s from the root, adding what is missing. */
    method WalkDown(s: Str) returns (node: Node)
      requires Shape()
      modifies this`nodes, this`repr, repr`children
      ensures Shape() && s in nodes && nodes[s] == node
      ensures nodes.Keys == old(nodes.Keys) + PrefixesUpTo(s, |s|)
      ensures forall p :: p in old(nodes) ==> nodes[p] == old(nodes)[p]
      ensures forall p :: p in nodes && p !in old(nodes) ==> fresh(nodes[p]) && nodes[p].top == None
      ensures old(repr) <= repr && fresh(repr - old(repr))
    {
      node := root;
      var i := 0;
      ghost var at: Str := [];
      while i < |s|
        invariant 0 <= i <= |s| && at == s[..i] && at in nodes && nodes[at] == node
        invariant Shape()
        invariant nodes.Keys == old(nodes.Keys) + PrefixesUpTo(s, i)
        invariant forall p :: p in old(nodes) ==> nodes[p] == old(nodes)[p]
        invariant forall p :: p in nodes && p !in old(nodes) ==> fresh(nodes[p]) && nodes[p].top == None
        invariant old(repr) <= repr && fresh(repr - old(repr))
      {
        PrefixesStep(s, i);
        node := Descend(at, node, s[i]);
        at := Ext(at, s[i]);
        i := i + 1;
      }
      assert s[..i] == s;
    }

    method MarkWord(ghost s: Str, node: Node, freq: int)
      requires Shape() && s in nodes && nodes[s] == node
      modifies this`words, node`isWord, node`freq
      ensures Shape() && words == old(words)[s := freq]
    {
      node.isWord := true;
      node.freq := freq;
      words := words[s := freq];
      forall q, c
        ensures LinkOk(q, c)
      {
        assert old(LinkOk(q, c));
      }
      forall q, r
        ensures Apart(q, r)
      {
        assert old(Apart(q, r));
      }
      forall q
        ensures WordOk(q)
      {
        assert old(WordOk(q)) && old(Apart(s, q));
      }
    }

    lemma StillPrefix(before: Words, s: Str, freq: int, p: Str)
      requires IsPrefixOfWord(before, p) || p <= s
      ensures IsPrefixOfWord(before[s := freq], p)
    {
      if p <= s {
        assert s in before[s := freq];
      } else {
        var w :| w in before && p <= w;
        assert w in before[s := freq];
      }
    }

    method Insert(s: Str, freq: int)
      requires Valid()
      modifies this`nodes, this`words, this`repr, repr
      ensures Valid()
      ensures words == old(words)[s := freq]
      ensures forall p :: p in nodes <==> p in old(nodes) || p <= s
      ensures forall p :: p in old(nodes) ==> nodes[p] == old(nodes)[p] && nodes[p].top == old(nodes[p].top)
      ensures forall p :: p in nodes && p !in old(nodes) ==> fresh(nodes[p]) && nodes[p].top == None
      ensures old(repr) <= repr && fresh(repr - old(repr))
    {
      var node := WalkDown(s);
      MarkWord(s, node, freq);
      forall p
        ensures p in nodes <==> p in old(nodes) || p <= s
      {
        PrefixesAll(s, p);
      }
      forall p
        ensures MadeForWord(p)
      {
        assert old(MadeForWord(p));
        if p in nodes && p != [] {
          StillPrefix(old(words), s, freq, p);
        }
      }
    }

    method Search(s: Str) returns (exists': bool, isWord: bool, freq: int, node: Node?)
      requires Valid()
      ensures exists' <==> s == [] || IsPrefixOfWord(words, s)
      ensures isWord <==> s in words
      ensures freq == if s in words then words[s] else 0
      ensures exists' <==> node != null
      ensures exists' ==> s in nodes && node == nodes[s]
    {
      NodeIffPrefix(s);
      assert WordOk(s);
      var at := root;
      var i := 0;
      while i < |s|
        invariant 0 <= i <= |s| && s[..i] in nodes && nodes[s[..i]] == at
      {
        assert Ext(s[..i], s[i]) == s[..i + 1] && LinkOk(s[..i], s[i]);
        if s[i] !in at.children {
          if s in nodes {
            PrefixesAreNodes(s[..i + 1], s);
          }
          return false, false, 0, null;
        }
        at := at.children[s[i]];
        i := i + 1;
      }
      assert s[..i] == s && WordOk(s);
      return true, at.isWord, at.freq, at;
    }
  }
}
