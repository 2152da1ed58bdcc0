/** The ring of src/distributed/ring.c: growable arrays of nodes and of sorted
    virtual nodes, updated in place. */
module Ring {
  import opened Common
  import opened RingSpec

  const VIRTUAL_NODES: nat := 150
  const ADDR_SIZE: nat := 64

  datatype Node = Node(id: Id, addr: string)

  datatype Rc = Ok | Exists | NoMem

  ghost function NodeIds(ns: seq<Node>): (r: seq<Id>)
    ensures |r| == |ns| && forall i :: 0 <= i < |ns| ==> r[i] == ns[i].id
  {
    seq(|ns|, i requires 0 <= i < |ns| => ns[i].id)
  }

  /** strncpy into the fixed address buffer. */
  function Clipped(addr: string): (r: string)
    ensures r <= addr && |r| == if |addr| < ADDR_SIZE then |addr| else ADDR_SIZE - 1
  {
    if |addr| < ADDR_SIZE then addr else addr[..ADDR_SIZE - 1]
  }

  class Ring {
    const heap: Supply
    const place: Place
    const virtualCount: nat
    var nodes: array<Node>
    var nodeCount: nat
    var vnodes: array<Vnode>
    var vnodeCount: nat

    ghost predicate Sized()
      reads this
    {
      nodeCount <= nodes.Length && vnodeCount <= vnodes.Length
    }

    ghost function Nodes(): seq<Node>
      requires Sized()
      reads this, nodes
    {
      nodes[..nodeCount]
    }

    ghost function Vnodes(): seq<Vnode>
      requires Sized()
      reads this, vnodes
    {
      vnodes[..vnodeCount]
    }

    /** The points are sorted and are those of distinct nodes, the same number of
        points for each. */
    ghost predicate Valid()
      reads this, nodes, vnodes
    {
      && Sized() && virtualCount > 0
      && Distinct(NodeIds(Nodes())) && Sorted(Vnodes())
      && Placed(place, Vnodes(), NodeIds(Nodes()), virtualCount)
    }

    /** mb_ring_init */
    constructor (place: Place, virtualCount: int, heap: Supply)
      ensures this.heap == heap
      ensures Valid() && Nodes() == [] && Vnodes() == [] && fresh(nodes) && fresh(vnodes)
      ensures this.place == place && this.virtualCount == if virtualCount > 0 then virtualCount else VIRTUAL_NODES
    {
      this.heap, this.place := heap, place;
      this.virtualCount := if virtualCount > 0 then virtualCount else VIRTUAL_NODES;
      nodes := new Node[0];
      vnodes := new Vnode[0];
      nodeCount, vnodeCount := 0, 0;
    }

    // ---------- Growing and compacting the arrays ----------

    /** mb_ring_grow_nodes */
    method GrowNodes() returns (ok: bool)
      requires Sized()
      modifies this`nodes, heap
      ensures Sized() && Nodes() == old(Nodes()) && (ok ==> nodeCount < nodes.Length)
      ensures if ok then heap.denials == old(heap.denials) else heap.denials == old(heap.denials) + 1 && nodeCount == nodes.Length
      ensures nodes == old(nodes) || fresh(nodes)
    {
      if nodeCount < nodes.Length { return true; }
      ok := heap.Request();
      if !ok { return; }
      var was := nodes[..];
      var grown := new Node[if nodes.Length > 0 then nodes.Length * 2 else 4]((i: nat) => if i < |was| then was[i] else Node(0, ""));
      nodes := grown;
      return true;
    }

    /** mb_ring_grow_vnodes */
    method GrowVnodes() returns (ok: bool)
      requires Sized()
      modifies this`vnodes, heap
      ensures Sized() && Vnodes() == old(Vnodes()) && (ok ==> vnodeCount < vnodes.Length)
      ensures if ok then heap.denials == old(heap.denials) else heap.denials == old(heap.denials) + 1 && vnodeCount == vnodes.Length
      ensures vnodes == old(vnodes) || fresh(vnodes)
    {
      if vnodeCount < vnodes.Length { return true; }
      ok := heap.Request();
      if !ok { return; }
      var was := vnodes[..];
      var grown := new Vnode[if vnodes.Length > 0 then vnodes.Length * 2 else 16]((i: nat) => if i < |was| then was[i] else Vnode(0, 0));
      vnodes := grown;
      return true;
    }

    /** mb_ring_insert_vnode_sorted */
    method InsertSorted(x: Vnode)
      requires Sized() && vnodeCount < vnodes.Length
      modifies this`vnodeCount, vnodes
      ensures Sized() && Vnodes() == Insert(old(Vnodes()), x)
    {
      ghost var v := Vnodes();
      var i := 0;
      while i < vnodeCount && vnodes[i].hash < x.hash
        invariant i <= vnodeCount && forall k :: 0 <= k < i ==> v[k].hash < x.hash
      {
        i := i + 1;
      }
      LowerBoundAt(v, i, x.hash);
      MoveUp(i);
      vnodes[i] := x;
      vnodeCount := vnodeCount + 1;
      Parts(Vnodes(), i);
      assert Vnodes()[..i] == v[..i] && Vnodes()[i + 1..] == v[i..];
    }

    /** The compaction loop: drop every point of `id`, in place. */
    method Compact(id: Id)
      requires Sized()
      modifies this`vnodeCount, vnodes
      ensures Sized() && Vnodes() == Without(old(Vnodes()), id)
    {
      ghost var v := Vnodes();
      var write, j := 0, 0;
      while j < vnodeCount
        invariant write <= j <= vnodeCount == |v| && Sized()
        invariant vnodes[..write] == Without(v[..j], id)
        invariant forall k :: j <= k < vnodeCount ==> vnodes[k] == v[k]
      {
        WithoutGrow(v, j, id);
        if vnodes[j].id != id {
          vnodes[write] := vnodes[j];
          write := write + 1;
          assert vnodes[..write] == vnodes[..write - 1] + [v[j]];
        }
        j := j + 1;
      }
      assert v[..j] == v;
      vnodeCount := write;
    }

    // ---------- Adding and removing nodes ----------

    /** mb_ring_add.  A duplicate is refused; the call fails if and only if memory runs
        out, which at any point leaves the nodes and the points as they were. */
    method Add(id: Id, addr: string) returns (rc: Rc)
      requires Valid()
      modifies this, nodes, vnodes, heap
      ensures Valid() && (nodes == old(nodes) || fresh(nodes)) && (vnodes == old(vnodes) || fresh(vnodes))
      ensures rc == NoMem <==> heap.denials > old(heap.denials)
      ensures rc == Exists <==> id in NodeIds(old(Nodes()))
      ensures rc == Ok ==> Nodes() == old(Nodes()) + [Node(id, Clipped(addr))]
      ensures rc == Ok ==> Vnodes() == Added(place, old(Vnodes()), id, virtualCount)
      ensures rc != Ok ==> Nodes() == old(Nodes()) && Vnodes() == old(Vnodes())
    {
      var known := Has(id);
      if known { return Exists; }
      ghost var ns, v := Nodes(), Vnodes();
      var ok := GrowNodes();
      if !ok { return NoMem; }
      CountPlaced(place, v, NodeIds(ns), virtualCount, id);
      var node := Node(id, Clipped(addr));
      ok := Extend(node);
      if !ok { return NoMem; }
      AddedNode(place, ns, v, virtualCount, node);
      return Ok;
    }

    /** Enter a node and its points, or neither. */
    method Extend(node: Node) returns (ok: bool)
      requires Sized() && nodeCount < nodes.Length && forall x :: x in Vnodes() ==> x.id != node.id
      modifies this`nodeCount, this`vnodes, this`vnodeCount, nodes, vnodes, heap
      ensures Sized() && (vnodes == old(vnodes) || fresh(vnodes))
      ensures heap.denials == old(heap.denials) + if ok then 0 else 1
      ensures Nodes() == if ok then old(Nodes()) + [node] else old(Nodes())
      ensures Vnodes() == if ok then Added(place, old(Vnodes()), node.id, virtualCount) else old(Vnodes())
    {
      Append(node);
      ok := AddPoints(node.id);
      if !ok { nodeCount := nodeCount - 1; }
    }

    method Has(id: Id) returns (found: bool)
      requires Sized()
      ensures found <==> id in NodeIds(Nodes())
    {
      for i := 0 to nodeCount
        invariant forall k :: 0 <= k < i ==> nodes[k].id != id
      {
        if nodes[i].id == id {
          assert NodeIds(Nodes())[i] == id;
          return true;
        }
      }
      return false;
    }

    method Append(node: Node)
      requires Sized() && nodeCount < nodes.Length
      modifies this`nodeCount, nodes
      ensures Sized() && Nodes() == old(Nodes()) + [node]
    {
      nodes[nodeCount] := node;
      nodeCount := nodeCount + 1;
    }

    /** memmove of the points from `i` on by one place. */
    method MoveUp(i: nat)
      requires i <= vnodeCount < vnodes.Length
      modifies vnodes
      ensures vnodes[..i] == old(vnodes[..i]) && vnodes[i + 1..vnodeCount + 1] == old(vnodes[i..vnodeCount])
    {
      forall k | i <= k < vnodeCount { vnodes[k + 1] := vnodes[k]; }
    }

    /** The loop of mb_ring_add over the points of a new node. */
    method AddPoints(id: Id) returns (ok: bool)
      requires Sized() && forall x :: x in Vnodes() ==> x.id != id
      modifies this`vnodes, this`vnodeCount, vnodes, heap
      ensures Sized() && (vnodes == old(vnodes) || fresh(vnodes))
      ensures heap.denials == old(heap.denials) + if ok then 0 else 1
      ensures Vnodes() == if ok then Added(place, old(Vnodes()), id, virtualCount) else old(Vnodes())
    {
      hide Added, Insert, Without;
      ghost var v := Vnodes();
      var i := 0;
      ok := true;
      AddedNext(place, v, id, 0);
      while ok && i < virtualCount
        invariant i <= virtualCount && Sized() && (vnodes == old(vnodes) || fresh(vnodes))
        invariant Vnodes() == Added(place, v, id, i) && heap.denials == old(heap.denials) + if ok then 0 else 1
        decreases virtualCount - i, ok
      {
        AddedNext(place, v, id, i);
        ok := AddPoint(Vnode(place(id, i), id));
        if ok { i := i + 1; }
      }
      if !ok {
        AddThenRemove(place, v, id, i);
        Compact(id);
      }
    }

    method AddPoint(x: Vnode) returns (ok: bool)
      requires Sized()
      modifies this`vnodes, this`vnodeCount, vnodes, heap
      ensures Sized() && (vnodes == old(vnodes) || fresh(vnodes))
      ensures heap.denials == old(heap.denials) + if ok then 0 else 1
      ensures Vnodes() == if ok then Insert(old(Vnodes()), x) else old(Vnodes())
    {
      ok := GrowVnodes();
      if ok { InsertSorted(x); }
    }

    /** mb_ring_remove: an unknown node changes nothing. */
    method Remove(id: Id)
      requires Valid()
      modifies this, nodes, vnodes
      ensures Valid() && nodes == old(nodes) && vnodes == old(vnodes)
      ensures Vnodes() == Without(old(Vnodes()), id)
      ensures NodeIds(Nodes()) == Dropped(NodeIds(old(Nodes())), id)
      ensures forall n :: n in Nodes() <==> n in old(Nodes()) && n.id != id
      ensures id !in NodeIds(old(Nodes())) ==> Nodes() == old(Nodes()) && Vnodes() == old(Vnodes())
    {
      ghost var ns, v := Nodes(), Vnodes();
      DropNode(id);
      Compact(id);
      PlacedDropped(place, v, NodeIds(ns), virtualCount, id);
    }

    /** Drop the node entry, if present, and close the gap. */
    method DropNode(id: Id)
      requires Sized() && Distinct(NodeIds(Nodes()))
      modifies this`nodeCount, nodes
      ensures Sized() && NodeIds(Nodes()) == Dropped(NodeIds(old(Nodes())), id)
      ensures forall n :: n in Nodes() <==> n in old(Nodes()) && n.id != id
      ensures id !in NodeIds(old(Nodes())) ==> Nodes() == old(Nodes())
    {
      hide Dropped;
      ghost var ns := Nodes();
      for i := 0 to nodeCount
        invariant Nodes() == ns && nodeCount == |ns|
        invariant forall k :: 0 <= k < i ==> ns[k].id != id
      {
        if nodes[i].id == id {
          forall k | i <= k < nodeCount - 1 { nodes[k] := nodes[k + 1]; }  // memmove
          nodeCount := nodeCount - 1;
          assert Nodes() == ns[..i] + ns[i + 1..];
          OthersRemain(ns, i);
          return;
        }
      }
      DroppedNone(NodeIds(ns), id);
    }

    // ---------- Looking up ----------

    /** The binary search: the first point at or after `h`, with wraparound. */
    method Locate(h: Hash) returns (lo: nat)
      requires Sized() && Sorted(Vnodes())
      ensures lo == Start(Vnodes(), h)
    {
      ghost var v := Vnodes();
      lo := 0;
      var hi := vnodeCount;
      while lo < hi
        invariant lo <= hi <= vnodeCount
        invariant forall k :: 0 <= k < lo ==> v[k].hash < h
        invariant forall k :: hi <= k < vnodeCount ==> v[k].hash >= h
      {
        var mid := lo + (hi - lo) / 2;
        if vnodes[mid].hash < h { lo := mid + 1; } else { hi := mid; }
      }
      LowerBoundAt(v, lo, h);
      if lo == vnodeCount { lo := 0; }
    }

    /** mb_ring_lookup */
    method LookupKey(h: Hash) returns (id: Id)
      requires Valid()
      ensures id == Lookup(Vnodes(), h)
    {
      if vnodeCount == 0 { return 0; }
      var lo := Locate(h);
      id := vnodes[lo].id;
    }

    /** mb_ring_lookup_n: the first replicas of the key, as many as there are
        nodes, up to `max`. */
    method LookupN(h: Hash, out: array<Id>, max: int) returns (count: nat)
      requires Valid() && max <= out.Length
      modifies out
      ensures count <= out.Length && out[..count] <= Replicas(Vnodes(), h)
      ensures count == if max <= 0 then 0 else if max < nodeCount then max else nodeCount
      ensures Distinct(out[..count]) && (count > 0 ==> out[0] == Lookup(Vnodes(), h))
    {
      hide Replicas, Lookup, Placed, Sorted;
      ReplicaFacts(h);
      count := 0;
      if max <= 0 || vnodeCount == 0 { return; }
      var lo := Locate(h);
      count := Revolve(Vnodes(), h, lo, out, max);
      StartsDistinct(out[..count], Replicas(Vnodes(), h));
    }

    lemma ReplicaFacts(h: Hash)
      requires Valid()
      ensures |Replicas(Vnodes(), h)| == nodeCount && Distinct(Replicas(Vnodes(), h))
      ensures vnodeCount == 0 ==> nodeCount == 0
      ensures vnodeCount > 0 ==> nodeCount > 0 && Replicas(Vnodes(), h)[0] == Lookup(Vnodes(), h)
    {
      ReplicasAll(place, Vnodes(), NodeIds(Nodes()), virtualCount, h);
      if vnodeCount > 0 { PrimaryFirst(Vnodes(), h); }
    }

    /** The walk: collect the ids not met before. */
    method Revolve(ghost v: seq<Vnode>, ghost h: Hash, lo: nat, out: array<Id>, max: nat) returns (count: nat)
      requires Sized() && v == Vnodes() && lo == Start(v, h) && 0 < max <= out.Length
      modifies out
      ensures count <= max && out[..count] <= Replicas(v, h)
      ensures count == max || count == |Replicas(v, h)|
    {
      ghost var ids := Ids(Walk(v, h));
      count := 0;
      var idx, step := lo, 0;
      while step < vnodeCount
        invariant step <= vnodeCount == |ids| && idx == (if lo + step < vnodeCount then lo + step else lo + step - vnodeCount)
        invariant count < max && out[..count] == Firsts(ids[..step])
      {
        WalkAt(v, h, step);
        count := Collect(ids, step, vnodes[idx].id, out, count);
        step := step + 1;
        if count >= max {
          FirstsPrefix(ids, step);
          return;
        }
        idx := idx + 1;
        if idx == vnodeCount { idx := 0; }
      }
      assert ids[..step] == ids;
    }
  }

  /** Append an id that was not collected before. */
  method Collect(ghost ids: seq<Id>, ghost step: nat, nid: Id, out: array<Id>, count: nat) returns (count': nat)
    requires step < |ids| && nid == ids[step] && count < out.Length && out[..count] == Firsts(ids[..step])
    modifies out
    ensures count <= count' <= count + 1 && out[..count'] == Firsts(ids[..step + 1])
  {
    var already := Contains(out, count, nid);
    FirstsGrow(ids, step);
    count' := count;
    if !already {
      out[count] := nid;
      count' := count + 1;
      assert out[..count'] == out[..count] + [nid];
    }
  }

  method Contains(out: array<Id>, count: nat, nid: Id) returns (found: bool)
    requires count <= out.Length
    ensures found <==> nid in out[..count]
  {
    for k := 0 to count
      invariant forall m :: 0 <= m < k ==> out[m] != nid
    {
      if out[k] == nid { return true; }
    }
    return false;
  }

  /** The lower bound is the only place with smaller hashes before it. */
  lemma LowerBoundAt(v: seq<Vnode>, i: nat, h: Hash)
    requires i <= |v| && (forall k :: 0 <= k < i ==> v[k].hash < h) && (i < |v| ==> v[i].hash >= h)
    ensures LowerBound(v, h) == i
  {
  }

  lemma WalkAt(v: seq<Vnode>, h: Hash, step: nat)
    requires step < |v|
    ensures var k := Start(v, h) + step;
            Ids(Walk(v, h))[step] == v[if k < |v| then k else k - |v|].id
  {
  }

  lemma WithoutGrow(v: seq<Vnode>, j: nat, id: Id)
    requires j < |v|
    ensures Without(v[..j + 1], id) == Without(v[..j], id) + Kept(v[j], id)
  {
    assert v[..j + 1][..j] == v[..j];
  }

  lemma AddedNode(place: Place, ns: seq<Node>, v: seq<Vnode>, n: nat, node: Node)
    requires Distinct(NodeIds(ns)) && node.id !in NodeIds(ns) && Sorted(v) && Placed(place, v, NodeIds(ns), n)
    ensures var ids, a := NodeIds(ns + [node]), Added(place, v, node.id, n);
            Distinct(ids) && Sorted(a) && Placed(place, a, ids, n)
  {
    AddedKeeps(place, v, node.id, n);
    PlacedAdded(place, v, NodeIds(ns), n, node.id);
    assert NodeIds(ns + [node]) == NodeIds(ns) + [node.id];
  }

  lemma Parts<T>(s: seq<T>, i: nat)
    requires i < |s|
    ensures s == s[..i] + [s[i]] + s[i + 1..]
  {
  }

  lemma AddedNext(place: Place, v: seq<Vnode>, id: Id, i: nat)
    ensures Added(place, v, id, 0) == v
    ensures Added(place, v, id, i + 1) == Insert(Added(place, v, id, i), Vnode(place(id, i), id))
  {
  }

  /** Where the points of a ring stand: node `id` has one point at the hash of "id:i" for
      every i below the virtual count, and there are no others. */
  lemma PointsStand(r: Ring, id: Id, h: Hash)
    requires r.Valid()
    ensures multiset(r.Vnodes())[Vnode(h, id)] ==
            if id in NodeIds(r.Nodes()) then |Standing(r.place, id, r.virtualCount, h)| else 0
  {
    PointsIn(r.place, id, r.virtualCount, Vnode(h, id));
  }

  lemma OthersRemain(ns: seq<Node>, i: nat)
    requires i < |ns| && Distinct(NodeIds(ns))
    ensures var now := ns[..i] + ns[i + 1..];
            && NodeIds(now) == Dropped(NodeIds(ns), ns[i].id)
            && (forall n :: n in now <==> n in ns && n.id != ns[i].id)
            && ns[i].id in NodeIds(ns)
  {
    Parts(ns, i);
    DroppedAt(NodeIds(ns), i);
    assert NodeIds(ns[..i] + ns[i + 1..]) == NodeIds(ns)[..i] + NodeIds(ns)[i + 1..];
    assert NodeIds(ns)[i] == ns[i].id;
    forall j | 0 <= j < |ns| && j != i ensures ns[j].id != ns[i].id {
      assert NodeIds(ns)[j] != NodeIds(ns)[i];
    }
  }

  lemma StartsDistinct(a: seq<Id>, b: seq<Id>)
    requires a <= b && Distinct(b)
    ensures Distinct(a)
  {
  }

  lemma FirstsGrow(s: seq<Id>, n: nat)
    requires n < |s|
    ensures Firsts(s[..n + 1]) == Firsts(s[..n]) + if s[n] in Firsts(s[..n]) then [] else [s[n]]
  {
    assert s[..n + 1] == s[..n] + [s[n]];
    FirstsMore(s[..n], s[n]);
  }

  lemma {:induction false} FirstsPrefix(s: seq<Id>, n: nat)
    requires n <= |s|
    ensures Firsts(s[..n]) <= Firsts(s)
    decreases |s| - n
  {
    if n == |s| {
      assert s[..n] == s;
    } else {
      FirstsGrow(s, n);
      FirstsPrefix(s, n + 1);
    }
  }

  lemma {:induction false} DroppedNone(s: seq<Id>, id: Id)
    requires id !in s
    ensures Dropped(s, id) == s
  {
    if s != [] { DroppedNone(s[..|s| - 1], id); }
  }

  lemma {:induction false} DroppedAt(s: seq<Id>, i: nat)
    requires i < |s| && Distinct(s)
    ensures Dropped(s, s[i]) == s[..i] + s[i + 1..]
  {
    var n := |s| - 1;
    if i == n {
      DroppedNone(s[..n], s[n]);
      assert s[..n] + s[n + 1..] == s[..n];
    } else {
      DroppedAt(s[..n], i);
      assert s[..n][..i] + s[..n][i + 1..] + [s[n]] == s[..i] + s[i + 1..];
    }
  }

  lemma {:induction false} DroppedDistinct(s: seq<Id>, id: Id)
    requires Distinct(s)
    ensures Distinct(Dropped(s, id)) && forall x :: x in Dropped(s, id) <==> x in s && x != id
  {
    forall x ensures x in Dropped(s, id) <==> x in s && x != id { InDropped(s, id, x); }
    if id in s {
      var i :| 0 <= i < |s| && s[i] == id;
      DroppedAt(s, i);
    } else {
      DroppedNone(s, id);
    }
  }

  lemma PlacedDropped(place: Place, v: seq<Vnode>, ids: seq<Id>, n: nat, id: Id)
    requires Placed(place, v, ids, n) && Distinct(ids) && Sorted(v)
    ensures Placed(place, Without(v, id), Dropped(ids, id), n) && Distinct(Dropped(ids, id)) && Sorted(Without(v, id))
    ensures id !in ids ==> Without(v, id) == v
  {
    DroppedDistinct(ids, id);
    PlacedWithout(place, v, ids, n, id, Dropped(ids, id));
    WithoutSorted(v, id);
    if id !in ids {
      CountPlaced(place, v, ids, n, id);
      WithoutNone(v, id);
    }
  }
}
