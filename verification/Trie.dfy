/** The subscription trie of src/utils/trie.c: heap nodes with a count of the
    subscriptions below them. */
module Trie {
  import opened Common
  import opened Wire

  type Path = seq<byte>

  class TrieNode {
    var refcount: nat
    var subscribed: bool
    var children: map<byte, TrieNode>  // the non-null entries of the child array

    ghost const path: Path         // the bytes that lead to this node

    constructor (ghost path: Path)
      ensures refcount == 0 && !subscribed && children == map[] && this.path == path
    {
      refcount, subscribed, children := 0, false, map[];
      this.path := path;
    }
  }

  /** The subscriptions that start with `p`. */
  ghost function Below(subs: set<Path>, p: Path): set<Path> {
    set s | s in subs && p <= s
  }

  lemma BelowAdd(subs: set<Path>, d: Path, p: Path)
    requires d !in subs
    ensures |Below(subs + {d}, p)| == |Below(subs, p)| + if p <= d then 1 else 0
  {
    if p <= d {
      assert Below(subs + {d}, p) == Below(subs, p) + {d};
    } else {
      assert Below(subs + {d}, p) == Below(subs, p);
    }
  }

  lemma BelowRemove(subs: set<Path>, d: Path, p: Path)
    requires d in subs
    ensures |Below(subs, p)| == |Below(subs - {d}, p)| + if p <= d then 1 else 0
  {
    BelowAdd(subs - {d}, d, p);
    assert subs - {d} + {d} == subs;
  }

  function Up(p: Path): Path
    requires p != []
  {
    p[..|p| - 1]
  }

  lemma Longer(p: Path, i: nat)
    requires i < |p|
    ensures p[..i + 1] == p[..i] + [p[i]]
  {
  }

  lemma Parent(p: Path, b: byte, q: Path, x: byte)
    ensures p + [b] == q + [x] <==> p == q && b == x
    ensures p + [b] != p
  {
    assert Up(p + [b]) == p && Up(q + [x]) == q;
    assert (p + [b])[|p|] == b && (q + [x])[|q|] == x;
  }

  datatype Added = NoMem | Already | New

  class Trie {
    const heap: Supply
    const root: TrieNode

    ghost var nodes: map<Path, TrieNode>   // every node under the path that leads to it
    ghost var subs: set<Path>
    ghost var repr: set<TrieNode>
    ghost var failed: bool             // an allocation has failed

    /** The nodes form a tree: each is the child of the node one byte up. */
    ghost predicate Shape()
      reads this`nodes, this`repr, repr`children
    {
      && [] in nodes && nodes[[]] == root
      && (forall p {:trigger nodes[p]} :: p in nodes ==> nodes[p].path == p && nodes[p] in repr)
      && (forall p {:trigger Up(p)} :: p in nodes && p != [] ==> Up(p) in nodes)
      && (forall p, b {:trigger ChildOk(p, b)} :: p in nodes ==> ChildOk(p, b))
    }

    ghost predicate ChildOk(p: Path, b: byte)
      requires p in nodes && nodes[p] in repr
      reads this`nodes, this`repr, repr`children
    {
      && (b in nodes[p].children <==> p + [b] in nodes)
      && (b in nodes[p].children ==> nodes[p].children[b] == nodes[p + [b]])
    }

    /** Every node counts the subscriptions below it, but for a surplus of one on
        the prefixes of `w` that are shorter than `k`. */
    ghost predicate Counts(w: Path, k: nat)
      reads this`nodes, this`repr, this`subs, repr`refcount, repr`subscribed
    {
      && (forall p {:trigger nodes[p]} :: p in nodes && nodes[p] in repr ==> nodes[p].subscribed == (p in subs))
      && (forall p {:trigger nodes[p]} :: p in nodes && nodes[p] in repr ==>
            nodes[p].refcount == |Below(subs, p)| + if p <= w && |p| < k then 1 else 0)
      && (forall s :: s in subs ==> s in nodes)
    }

    /** No node is dead, but perhaps prefixes of `w` of length at most `k`. */
    ghost predicate Tidy(w: Path, k: int)
      reads this`nodes, this`subs
    {
      forall p :: p in nodes && p != [] && !(p <= w && |p| <= k) ==> Below(subs, p) != {}
    }

    ghost predicate Valid()
      reads this, repr
    {
      Shape() && Counts([], 0) && (!failed ==> Tidy([], -1))
    }

    /** mb_trie_init */
    constructor (heap: Supply)
      ensures Valid() && subs == {} && !failed && fresh(repr) && this.heap == heap
    {
      this.heap := heap;
      root := new TrieNode([]);
      nodes, subs, repr, failed := map[[] := root], {}, {root}, false;
    }

    lemma {:induction false} PrefixIn(p: Path, q: Path)
      requires Shape() && q in nodes && p <= q
      ensures p in nodes
      decreases |q|
    {
      if p == q {
      } else {
        assert Up(q) in nodes;
        assert p <= Up(q);
        PrefixIn(p, Up(q));
      }
    }

    lemma RootIn()
      requires Shape()
      ensures [] in nodes && nodes[[]] == root && root in repr
    {
    }

    lemma ChildAt(p: Path, b: byte)
      requires Shape() && p in nodes
      ensures nodes[p] in repr && ChildOk(p, b) && (p + [b] in nodes ==> nodes[p + [b]] in repr)
    {
      assert ChildOk(p, b);
    }

    lemma NoSurplus(w: Path)
      ensures Counts([], 0) <==> Counts(w, 0)
    {
    }

    /** mb_trie_match: a topic matches if and only if some subscription is a
        prefix of it. */
    method Match(topic: Path) returns (yes: bool)
      requires Valid()
      ensures yes <==> exists s :: s in subs && s <= topic
    {
      var n := root;
      var i := 0;
      while i < |topic|
        invariant i <= |topic| && topic[..i] in nodes && n == nodes[topic[..i]]
        invariant forall s :: s in subs && s <= topic ==> |s| >= i
      {
        if n.subscribed {
          assert topic[..i] in subs && topic[..i] <= topic;
          return true;
        }
        ghost var p := topic[..i];
        Longer(topic, i);
        assert ChildOk(p, topic[i]);
        forall s | s in subs && s <= topic ensures |s| >= i + 1 && topic[..i + 1] <= s {
          assert |s| == i ==> s == p;
        }
        if topic[i] !in n.children {
          forall s | s in subs ensures !(s <= topic) {
            if s <= topic { PrefixIn(topic[..i + 1], s); }
          }
          return false;
        }
        n := n.children[topic[i]];
        i := i + 1;
      }
      assert topic[..i] == topic;
      if n.subscribed { assert topic in subs && topic <= topic; }
      forall s | s in subs && s <= topic ensures s == topic { }
      return n.subscribed;
    }

    /** The child of `n` on byte `b`, allocated if missing. */
    method Child(ghost p: Path, n: TrieNode, b: byte) returns (c: TrieNode?)
      requires Shape() && Counts([], 0) && p in nodes && nodes[p] == n
      modifies this`nodes, this`repr, n`children, heap
      ensures Shape() && Counts([], 0) && fresh(repr - old(repr))
      ensures heap.denials == old(heap.denials) + if c == null then 1 else 0
      ensures if c == null then nodes == old(nodes) else c in repr && nodes == old(nodes)[p + [b] := c]
    {
      hide Trie.Shape;
      ChildAt(p, b);
      if b in n.children { return n.children[b]; }
      var ok := heap.Request();
      if !ok { return null; }
      NoneBelow(p + [b]);
      c := new TrieNode(p + [b]);
      Attach(p, n, b, c);
    }

    method Attach(ghost p: Path, n: TrieNode, b: byte, c: TrieNode)
      requires Shape() && p in nodes && nodes[p] == n && p + [b] !in nodes
      requires c.path == p + [b] && c.children == map[]
      modifies this`nodes, this`repr, n`children
      ensures Shape() && nodes == old(nodes)[p + [b] := c] && repr == old(repr) + {c}
    {
      n.children := n.children[b := c];
      nodes, repr := nodes[p + [b] := c], repr + {c};
      assert Up(p + [b]) == p;
      forall q, x: byte | q in nodes ensures ChildOk(q, x) {
        Parent(p, b, q, x);
        if q == p + [b] {
          assert Up(q + [x]) == q;
        } else {
          assert old(ChildOk(q, x));
        }
      }
    }

    lemma NoneBelow(p: Path)
      requires Shape() && Counts([], 0) && p !in nodes
      ensures Below(subs, p) == {}
    {
      forall s | s in subs ensures !(p <= s) {
        if p <= s { PrefixIn(p, s); }
      }
    }

    /** mb_trie_add: a string that is subscribed already, and a failed allocation,
        leave the subscriptions as they are; any other call subscribes the string. */
    method Add(data: Path) returns (r: Added)
      requires Valid()
      modifies this, repr, heap
      ensures r == NoMem <==> heap.denials > old(heap.denials)
      ensures Valid() && fresh(repr - old(repr))
      ensures subs == if r == New then old(subs) + {data} else old(subs)
      ensures r == Already ==> data in old(subs)
      ensures r == New ==> data !in old(subs)
      ensures failed == (old(failed) || r == NoMem)
    {
      hide Trie.Shape, Trie.Counts, Trie.Tidy;
      var n := MakePath(data);
      if n == null {
        failed := true;
        return NoMem;
      }
      r := Enrol(data, n);
    }

    /** Subscribe the string of node `n` unless it is subscribed already. */
    method Enrol(data: Path, n: TrieNode) returns (r: Added)
      requires Shape() && Counts([], 0) && data in nodes && n == nodes[data] && (!failed ==> Tidy(data, |data|))
      modifies this`subs, repr`refcount, repr`subscribed
      ensures Valid()
      ensures subs == if r == New then old(subs) + {data} else old(subs)
      ensures r == if data in old(subs) then Already else New
    {
      if n.subscribed {
        r := Already;
      } else {
        Subscribe(data);
        r := New;
      }
      TidyAgain(data);
    }

    /** Once `data` is subscribed, no node of its path is dead. */
    lemma TidyAgain(data: Path)
      requires data in subs
      ensures Tidy(data, |data|) ==> Tidy([], -1)
    {
      forall p | p <= data ensures Below(subs, p) != {} {
        assert data in Below(subs, p);
      }
    }

    /** The first loop of mb_trie_add: the node of `data`, or null. */
    method MakePath(data: Path) returns (n: TrieNode?)
      requires Valid()
      modifies this`nodes, this`repr, repr`children, heap
      ensures heap.denials == old(heap.denials) + if n == null then 1 else 0
      ensures Shape() && Counts([], 0) && fresh(repr - old(repr))
      ensures !failed ==> Tidy(data, |data|)
      ensures n != null ==> data in nodes && n == nodes[data]
    {
      hide Trie.Shape, Trie.Counts;
      RootIn();
      n := root;
      var i := 0;
      while i < |data|
        invariant i <= |data| && data[..i] in nodes && n == nodes[data[..i]] && n in repr
        invariant Shape() && Counts([], 0) && fresh(repr - old(repr)) && heap.denials == old(heap.denials)
        invariant !failed ==> Tidy(data, |data|)
      {
        Longer(data, i);
        n := Child(data[..i], n, data[i]);
        if n == null { return; }
        i := i + 1;
        assert data[..i] <= data;
      }
      assert data[..i] == data;
    }

    /** Count a new subscription on every node of its path. */
    method Subscribe(data: Path)
      requires Shape() && Counts([], 0) && data in nodes && data !in subs
      modifies this`subs, repr`refcount, repr`subscribed
      ensures Counts([], 0) && subs == old(subs) + {data}
    {
      var n := CountPath(data);
      Mark(data, n);
    }

    method Mark(ghost data: Path, n: TrieNode)
      requires Shape() && data in nodes && data !in subs && n == nodes[data] && Counts(data, |data|)
      modifies this`subs, n`refcount, n`subscribed
      ensures Counts([], 0) && subs == old(subs) + {data}
    {
      n.refcount := n.refcount + 1;
      n.subscribed := true;
      ghost var before := subs;
      subs := subs + {data};
      forall p | p in nodes ensures nodes[p].refcount == |Below(subs, p)| {
        BelowAdd(before, data, p);
        assert p <= data && |p| >= |data| ==> p == data;
      }
    }

    /** The second loop of mb_trie_add, up to the last node. */
    method CountPath(data: Path) returns (n: TrieNode)
      requires Shape() && Counts([], 0) && data in nodes
      modifies repr`refcount
      ensures Counts(data, |data|) && n == nodes[data]
    {
      hide Trie.Shape, Trie.Counts;
      RootIn();
      NoSurplus(data);
      n := root;
      var i := 0;
      while i < |data|
        invariant i <= |data| && data[..i] in nodes && n == nodes[data[..i]] && n in repr
        invariant Counts(data, i)
      {
        Longer(data, i);
        PrefixIn(data[..i + 1], data);
        n := Bump(data[..i], n, data[i], data);
        i := i + 1;
      }
      assert data[..i] == data;
    }

    /** Count on one node of the path and go on to the next. */
    method Bump(ghost p: Path, n: TrieNode, b: byte, ghost data: Path) returns (n': TrieNode)
      requires Shape() && p in nodes && nodes[p] == n && p <= data && Counts(data, |p|) && p + [b] in nodes
      modifies n`refcount
      ensures Counts(data, |p| + 1) && n' == nodes[p + [b]] && n' in repr
    {
      assert ChildOk(p, b);
      n.refcount := n.refcount + 1;
      assert forall q :: q <= data && |q| == |p| ==> q == p;
      n' := n.children[b];
    }

    /** Every node outside the subtree of `p`, and `p` itself, is as it was. */
    twostate predicate Outside(p: Path)
      reads this
    {
      && (forall q :: q in nodes ==> q in old(nodes) && nodes[q] == old(nodes[q]))
      && (forall q :: q in old(nodes) && !(p < q) ==> q in nodes)
    }

    /** mb_trie_rm: fails if and only if the string is not subscribed, and then
        changes nothing. */
    method Rm(data: Path) returns (ok: bool)
      requires Valid()
      modifies this, repr
      ensures Valid() && ok == (data in old(subs)) && subs == old(subs) - {data}
      ensures failed == old(failed) && repr == old(repr)
    {
      hide Trie.Shape, Trie.Counts;
      RootIn();
      assert [] + data == data;
      ok := RmRec([], root, data);
      NoSurplus(data);
    }

    /** mb_trie_rm_rec at the node of `p`: on success the prefixes of the removed
        string above `p` still count it. */
    method RmRec(ghost p: Path, n: TrieNode, rest: Path) returns (ok: bool)
      requires Shape() && Counts([], 0) && p in nodes && nodes[p] == n
      modifies this`nodes, this`subs, repr
      ensures Shape() && ok == (p + rest in old(subs)) && subs == old(subs) - {p + rest}
      ensures if ok then Counts(p + rest, |p|) else Counts([], 0) && nodes == old(nodes)
      ensures Outside(p) && p in nodes
      ensures old(Tidy([], -1)) ==> if ok then Tidy(p + rest, |p|) else Tidy([], -1)
      decreases |rest|
    {
      if rest == [] {
        assert p + rest == p;
        ok := Unmark(p, n);
        return;
      }
      ChildAt(p, rest[0]);
      Split(p, rest);
      if rest[0] !in n.children {
        Missing(p, rest);
        return false;
      }
      var child := n.children[rest[0]];
      ok := RmRec(p + [rest[0]], child, rest[1..]);
      if ok { Leave(p, n, rest[0], child, p + rest); }
    }

    lemma Missing(p: Path, rest: Path)
      requires Shape() && Counts([], 0) && rest != [] && p + [rest[0]] !in nodes
      ensures p + rest !in subs && subs - {p + rest} == subs
    {
      var q, s := p + [rest[0]], p + rest;
      Split(p, rest);
      NoneBelow(q);
      assert s in subs ==> s in Below(subs, q);
    }

    /** Take the mark off the node of `p` and count it out there. */
    method Unmark(ghost p: Path, n: TrieNode) returns (ok: bool)
      requires Shape() && Counts([], 0) && p in nodes && nodes[p] == n
      modifies this`subs, n`subscribed, n`refcount
      ensures ok == (p in old(subs)) && subs == old(subs) - {p}
      ensures if ok then Counts(p, |p|) else Counts([], 0)
      ensures old(Tidy([], -1)) ==> if ok then Tidy(p, |p|) else Tidy([], -1)
    {
      if !n.subscribed {
        assert subs - {p} == subs;
        return false;
      }
      ghost var tidy, before := Tidy([], -1), subs;
      Drop(p, n);
      if tidy { TidyRemoved(before, p); }
      return true;
    }

    method Drop(ghost p: Path, n: TrieNode)
      requires Shape() && Counts([], 0) && p in nodes && nodes[p] == n && p in subs
      modifies this`subs, n`subscribed, n`refcount
      ensures subs == old(subs) - {p} && Counts(p, |p|)
    {
      ghost var before := subs;
      BelowRemove(subs, p, p);
      assert n.refcount > 0;
      n.subscribed := false;
      if n.refcount > 0 { n.refcount := n.refcount - 1; }
      subs := subs - {p};
      forall q | q in nodes && nodes[q] in repr
        ensures nodes[q].refcount == |Below(subs, q)| + (if q <= p && |q| < |p| then 1 else 0)
        ensures nodes[q].subscribed == (q in subs)
      {
        BelowRemove(before, p, q);
        Whole(q, p);
        assert nodes[q] == n <==> q == p;
      }
    }

    lemma TidyRemoved(before: set<Path>, p: Path)
      requires subs == before - {p}
      requires forall q :: q in nodes && q != [] ==> Below(before, q) != {}
      ensures Tidy(p, |p|)
    {
      forall q | q in nodes && q != [] && !(q <= p && |q| <= |p|) ensures Below(subs, q) != {} {
        assert Below(subs, q) == Below(before, q);
      }
    }

    /** The way back up: count out at `n` and prune a child that is dead. */
    method Leave(ghost p: Path, n: TrieNode, b: byte, child: TrieNode, ghost w: Path)
      requires Shape() && p in nodes && nodes[p] == n && p + [b] in nodes && nodes[p + [b]] == child
      requires p + [b] <= w && Counts(w, |p| + 1)
      modifies this`nodes, n`refcount, n`children
      ensures Shape() && Counts(w, |p|) && Outside(p) && p in nodes
      ensures p + [b] in nodes <==> Below(subs, p + [b]) != {}
      ensures old(Tidy(w, |p| + 1)) ==> Tidy(w, |p|)
    {
      CountOut(p, n, w);
      DeadOrNot(p, b, w);
      Parent(p, b, p, b);
      if child.refcount == 0 && !child.subscribed {
        Prune(p, n, b);
        StillCounted(old(nodes), p, b, w, |p|);
      }
      if old(Tidy(w, |p| + 1)) { TidyUp(p, b, w); }
    }

    lemma DeadOrNot(p: Path, b: byte, w: Path)
      requires Shape() && p + [b] in nodes && Counts(w, |p|)
      ensures nodes[p + [b]] in repr
      ensures nodes[p + [b]].refcount == 0 && !nodes[p + [b]].subscribed <==> Below(subs, p + [b]) == {}
    {
      var c := nodes[p + [b]];
      assert c.refcount == |Below(subs, p + [b])|;
      if c.subscribed { assert p + [b] in Below(subs, p + [b]); }
    }

    lemma StillCounted(before: map<Path, TrieNode>, p: Path, b: byte, w: Path, k: nat)
      requires nodes == map q | q in before && !(p + [b] <= q) :: before[q]
      requires Below(subs, p + [b]) == {} && forall s :: s in subs ==> s in before
      requires forall q {:trigger before[q]} :: q in before && before[q] in repr ==>
        && before[q].subscribed == (q in subs)
        && before[q].refcount == |Below(subs, q)| + if q <= w && |q| < k then 1 else 0
      ensures Counts(w, k)
    {
      forall s | s in subs ensures s in nodes {
        assert s !in Below(subs, p + [b]);
      }
      forall q | q in nodes ensures nodes[q] == before[q] { }
    }

    lemma TidyUp(p: Path, b: byte, w: Path)
      requires Tidy(w, |p| + 1) && p + [b] <= w && (p + [b] in nodes ==> Below(subs, p + [b]) != {})
      ensures Tidy(w, |p|)
    {
      forall q | q in nodes && q != [] && !(q <= w && |q| <= |p|) ensures Below(subs, q) != {} {
        assert q <= w && |q| == |p| + 1 ==> q == p + [b];
      }
    }

    method CountOut(ghost p: Path, n: TrieNode, ghost w: Path)
      requires Shape() && p in nodes && nodes[p] == n && p <= w && Counts(w, |p| + 1)
      modifies n`refcount
      ensures Counts(w, |p|)
    {
      if n.refcount > 0 { n.refcount := n.refcount - 1; }
      assert forall q :: q <= w && |q| == |p| ==> q == p;
    }

    /** Unlink and free the subtree of `p + [b]`. */
    method Prune(ghost p: Path, n: TrieNode, b: byte)
      requires Shape() && p in nodes && nodes[p] == n
      modifies this`nodes, n`children
      ensures Shape() && nodes == map q | q in old(nodes) && !(p + [b] <= q) :: old(nodes)[q]
    {
      n.children := n.children - {b};
      nodes := map q | q in nodes && !(p + [b] <= q) :: nodes[q];
      forall q, x: byte | q in nodes ensures ChildOk(q, x) {
        assert old(ChildOk(q, x));
        NextOnly(p, b, q, x);
      }
    }
  }

  /** The only way into the subtree of `p + [b]` is from `p` by `b`. */
  lemma NextOnly(p: Path, b: byte, q: Path, x: byte)
    requires !(p + [b] <= q)
    ensures p + [b] <= q + [x] <==> p == q && b == x
  {
    Parent(p, b, q, x);
    assert (q + [x])[..|q|] == q;
  }

  lemma Whole(q: Path, p: Path)
    ensures q <= p && |q| >= |p| ==> q == p
  {
  }

  lemma Split(p: Path, rest: Path)
    requires rest != []
    ensures p + [rest[0]] + rest[1..] == p + rest && p + [rest[0]] <= p + rest
  {
  }

  /** mb_trie_init: there is a trie if and only if its root could be allocated. */
  method Init(heap: Supply) returns (t: Trie?)
    modifies heap
    ensures t != null <==> old(heap.Granted())
    ensures t != null ==> t.Valid() && t.subs == {} && !t.failed && fresh(t) && fresh(t.repr)
  {
    t := null;
    var ok := heap.Request();
    if ok { t := new Trie(heap); }
  }
}
