/** Consistent hashing as a sorted sequence of points: where a key is looked up,
    in which order the nodes follow, and what adding and removing a node moves. */
module RingSpec {
  import opened Common

  type Id = nat
  type Hash = nat
  type Place = (Id, nat) -> Hash  // the hash of "id:i"

  datatype Vnode = Vnode(hash: Hash, id: Id)

  predicate Sorted(v: seq<Vnode>) {
    forall i, j :: 0 <= i < j < |v| ==> v[i].hash <= v[j].hash
  }

  /** The first point at or after `h`, by linear search; |v| if there is none. */
  function LowerBound(v: seq<Vnode>, h: Hash): (r: nat)
    ensures r <= |v| && (r < |v| ==> v[r].hash >= h) && forall i :: 0 <= i < r ==> v[i].hash < h
  {
    if v == [] || v[0].hash >= h then 0 else 1 + LowerBound(v[1..], h)
  }

  /** The same with wraparound. */
  function Start(v: seq<Vnode>, h: Hash): (r: nat)
    ensures v != [] ==> r < |v|
    ensures v == [] ==> r == 0
  {
    if LowerBound(v, h) == |v| then 0 else LowerBound(v, h)
  }

  /** One revolution of the ring from the point of a key. */
  function Walk(v: seq<Vnode>, h: Hash): (r: seq<Vnode>)
    ensures |r| == |v|
  {
    v[Start(v, h)..] + v[..Start(v, h)]
  }

  /** The node of a key; 0 on an empty ring. */
  function Lookup(v: seq<Vnode>, h: Hash): Id {
    if v == [] then 0 else Walk(v, h)[0].id
  }

  function Ids(v: seq<Vnode>): (r: seq<Id>)
    ensures |r| == |v| && forall i :: 0 <= i < |v| ==> r[i] == v[i].id
  {
    seq(|v|, i requires 0 <= i < |v| => v[i].id)
  }

  /** Each id once, in the order of first appearance. */
  function Firsts(s: seq<Id>): (r: seq<Id>)
    ensures Distinct(r) && forall x :: x in r <==> x in s
  {
    if s == [] then []
    else
      var n := |s| - 1;
      var r := Firsts(s[..n]);
      assert s == s[..n] + [s[n]];
      if s[n] in r then r else r + [s[n]]
  }

  /** All replicas of a key, the primary first. */
  function Replicas(v: seq<Vnode>, h: Hash): seq<Id> {
    Firsts(Ids(Walk(v, h)))
  }

  /** The points of all nodes but `id`. */
  function Without(v: seq<Vnode>, id: Id): (r: seq<Vnode>)
    ensures |r| <= |v|
  {
    if v == [] then [] else Without(v[..|v| - 1], id) + Kept(v[|v| - 1], id)
  }

  function Kept(x: Vnode, id: Id): seq<Vnode> {
    if x.id == id then [] else [x]
  }

  function Dropped(s: seq<Id>, id: Id): seq<Id> {
    if s == [] then []
    else var n := |s| - 1; Dropped(s[..n], id) + if s[n] == id then [] else [s[n]]
  }

  /** A point goes before the points with the same hash. */
  function Insert(v: seq<Vnode>, x: Vnode): (r: seq<Vnode>)
    ensures |r| == |v| + 1
  {
    var i := LowerBound(v, x.hash);
    v[..i] + [x] + v[i..]
  }

  function Points(place: Place, id: Id, n: nat): (r: seq<Vnode>)
    ensures |r| == n && forall x :: x in r ==> x.id == id
  {
    if n == 0 then [] else Points(place, id, n - 1) + [Vnode(place(id, n - 1), id)]
  }

  /** The ring after the first `n` points of `id` went in. */
  function Added(place: Place, v: seq<Vnode>, id: Id, n: nat): (r: seq<Vnode>)
    ensures |r| == |v| + n
  {
    if n == 0 then v else Insert(Added(place, v, id, n - 1), Vnode(place(id, n - 1), id))
  }

  // ---------- Sequences of points ----------

  lemma {:induction false} WithoutConcat(a: seq<Vnode>, b: seq<Vnode>, id: Id)
    ensures Without(a + b, id) == Without(a, id) + Without(b, id)
  {
    if b == [] {
      assert a + b == a;
    } else {
      var n := |b| - 1;
      assert (a + b)[..|a| + n] == a + b[..n];
      WithoutConcat(a, b[..n], id);
      var wa, wb, k := Without(a, id), Without(b[..n], id), Kept(b[n], id);
      assert Without(a + b, id) == (wa + wb) + k == wa + (wb + k);
    }
  }

  lemma {:induction false} InWithout(v: seq<Vnode>, id: Id)
    ensures forall x :: x in Without(v, id) <==> x in v && x.id != id
  {
    if v != [] {
      var n := |v| - 1;
      assert v == v[..n] + [v[n]];
      InWithout(v[..n], id);
    }
  }

  lemma {:induction false} WithoutSorted(v: seq<Vnode>, id: Id)
    requires Sorted(v)
    ensures Sorted(Without(v, id))
  {
    if v != [] {
      WithoutSorted(v[..|v| - 1], id);
      InWithout(v[..|v| - 1], id);
    }
  }

  lemma {:induction false} WithoutNone(v: seq<Vnode>, id: Id)
    requires forall x :: x in v ==> x.id != id
    ensures Without(v, id) == v
  {
    if v != [] {
      var n := |v| - 1;
      assert v == v[..n] + [v[n]];
      WithoutNone(v[..n], id);
    }
  }

  /** Where everything is below `h` the search ends, and not before. */
  lemma {:induction false} LowerBoundIs(a: seq<Vnode>, b: seq<Vnode>, h: Hash)
    requires forall x :: x in a ==> x.hash < h
    requires b != [] ==> b[0].hash >= h
    ensures LowerBound(a + b, h) == |a|
  {
    if a == [] {
      assert a + b == b;
    } else {
      assert (a + b)[1..] == a[1..] + b;
      LowerBoundIs(a[1..], b, h);
    }
  }

  /** Walking the ring and leaving out a node commute. */
  lemma WalkWithout(v: seq<Vnode>, id: Id, h: Hash)
    requires Sorted(v)
    ensures Walk(Without(v, id), h) == Without(Walk(v, h), id)
  {
    hide Walk, Without;
    var k := LowerBound(v, h);
    var a, b := v[..k], v[k..];
    assert v == a + b;
    Joined(a, b, h);
    WithoutConcat(a, b, id);
    WithoutConcat(b, a, id);
    WithoutSplit(a, b, id, h);
    Joined(Without(a, id), Without(b, id), h);
  }

  /** A walk starts at the lower bound, also when that is the end. */
  lemma Joined(a: seq<Vnode>, b: seq<Vnode>, h: Hash)
    requires LowerBound(a + b, h) == |a|
    ensures Walk(a + b, h) == b + a
  {
    var v := a + b;
    assert v[|a|..] == b && v[..|a|] == a;
    if b == [] { assert v[0..] + v[..0] == v == a == b + a; }
  }

  lemma WithoutSplit(a: seq<Vnode>, b: seq<Vnode>, id: Id, h: Hash)
    requires (forall x :: x in a ==> x.hash < h) && (forall x :: x in b ==> x.hash >= h)
    ensures LowerBound(Without(a, id) + Without(b, id), h) == |Without(a, id)|
  {
    InWithout(a, id);
    InWithout(b, id);
    LowerBoundIs(Without(a, id), Without(b, id), h);
  }

  // ---------- Lookups and replicas ----------

  lemma {:induction false} IdsWithout(v: seq<Vnode>, id: Id)
    ensures Ids(Without(v, id)) == Dropped(Ids(v), id)
  {
    if v != [] {
      var n := |v| - 1;
      IdsWithout(v[..n], id);
      assert Ids(v)[..n] == Ids(v[..n]);
    }
  }

  lemma {:induction false} FirstsDropped(s: seq<Id>, id: Id)
    ensures Firsts(Dropped(s, id)) == Dropped(Firsts(s), id)
  {
    if s != [] {
      var n := |s| - 1;
      var r, d := Firsts(s[..n]), Dropped(s[..n], id);
      FirstsDropped(s[..n], id);
      InDropped(r, id, s[n]);
      DroppedMore(r, s[n], id);
      FirstsMore(d, s[n]);
      assert d + [] == d && Dropped(r, id) + [] == Dropped(r, id);
    }
  }

  lemma DroppedMore(s: seq<Id>, x: Id, id: Id)
    ensures Dropped(s + [x], id) == Dropped(s, id) + if x == id then [] else [x]
  {
    assert (s + [x])[..|s|] == s;
  }

  lemma FirstsMore(s: seq<Id>, x: Id)
    ensures Firsts(s + [x]) == Firsts(s) + if x in Firsts(s) then [] else [x]
  {
    assert (s + [x])[..|s|] == s;
  }

  lemma {:induction false} InDropped(s: seq<Id>, id: Id, x: Id)
    ensures x in Dropped(s, id) <==> x in s && x != id
  {
    if s != [] {
      var n := |s| - 1;
      assert s == s[..n] + [s[n]];
      InDropped(s[..n], id, x);
    }
  }

  /** Leaving out a node takes it out of every replica list and leaves the other
      replicas in the same order. */
  lemma ReplicasWithout(v: seq<Vnode>, id: Id, h: Hash)
    requires Sorted(v)
    ensures Replicas(Without(v, id), h) == Dropped(Replicas(v, h), id)
  {
    WalkWithout(v, id, h);
    IdsWithout(Walk(v, h), id);
    FirstsDropped(Ids(Walk(v, h)), id);
  }

  lemma {:induction false} FirstsStart(s: seq<Id>)
    requires s != []
    ensures Firsts(s) != [] && Firsts(s)[0] == s[0]
  {
    if |s| > 1 { FirstsStart(s[..|s| - 1]); }
  }

  /** The first replica is the node of the key. */
  lemma PrimaryFirst(v: seq<Vnode>, h: Hash)
    requires v != []
    ensures Replicas(v, h) != [] && Replicas(v, h)[0] == Lookup(v, h)
  {
    FirstsStart(Ids(Walk(v, h)));
  }

  /** Leaving out a node moves only the keys of that node. */
  lemma LookupWithout(v: seq<Vnode>, id: Id, h: Hash)
    requires Sorted(v) && Lookup(v, h) != id
    ensures Lookup(Without(v, id), h) == Lookup(v, h)
  {
    if v == [] { return; }
    WalkWithout(v, id, h);
    var w := Walk(v, h);
    assert w == w[..1] + w[1..];
    WithoutConcat(w[..1], w[1..], id);
    WithoutNone(w[..1], id);
  }

  // ---------- Adding ----------

  lemma InsertSorts(v: seq<Vnode>, x: Vnode)
    requires Sorted(v)
    ensures Sorted(Insert(v, x))
  {
  }

  lemma InsertBag(v: seq<Vnode>, x: Vnode)
    ensures multiset(Insert(v, x)) == multiset(v) + multiset{x}
  {
    var i := LowerBound(v, x.hash);
    assert v == v[..i] + v[i..];
  }

  lemma InsertWithout(v: seq<Vnode>, x: Vnode)
    ensures Without(Insert(v, x), x.id) == Without(v, x.id)
  {
    var i := LowerBound(v, x.hash);
    assert v == v[..i] + v[i..];
    assert Insert(v, x) == v[..i] + ([x] + v[i..]);
    WithoutConcat(v[..i], v[i..], x.id);
    WithoutConcat(v[..i], [x] + v[i..], x.id);
    WithoutConcat([x], v[i..], x.id);
    assert [x][..0] == [];
    assert Without([x], x.id) == Without([], x.id) + Kept(x, x.id) == [];
    assert [] + Without(v[i..], x.id) == Without(v[i..], x.id);
  }

  lemma {:induction false} AddedKeeps(place: Place, v: seq<Vnode>, id: Id, n: nat)
    requires Sorted(v)
    ensures Sorted(Added(place, v, id, n))
    ensures multiset(Added(place, v, id, n)) == multiset(v) + multiset(Points(place, id, n))
  {
    if n > 0 {
      var a, x := Added(place, v, id, n - 1), Vnode(place(id, n - 1), id);
      AddedKeeps(place, v, id, n - 1);
      InsertSorts(a, x);
      InsertBag(a, x);
    }
  }

  lemma {:induction false} AddedWithoutAny(place: Place, v: seq<Vnode>, id: Id, n: nat)
    ensures Without(Added(place, v, id, n), id) == Without(v, id)
  {
    if n > 0 {
      AddedWithoutAny(place, v, id, n - 1);
      InsertWithout(Added(place, v, id, n - 1), Vnode(place(id, n - 1), id));
    }
  }

  /** Adding a node and taking it out again restores the points exactly. */
  lemma AddThenRemove(place: Place, v: seq<Vnode>, id: Id, n: nat)
    requires forall x :: x in v ==> x.id != id
    ensures Without(Added(place, v, id, n), id) == v
  {
    AddedWithoutAny(place, v, id, n);
    WithoutNone(v, id);
  }

  /** Adding a node moves a key only to the new node. */
  lemma AddMovesToNew(place: Place, v: seq<Vnode>, id: Id, n: nat, h: Hash)
    requires Sorted(v) && (forall x :: x in v ==> x.id != id)
    ensures var after := Lookup(Added(place, v, id, n), h); after == id || after == Lookup(v, h)
  {
    var a := Added(place, v, id, n);
    AddedKeeps(place, v, id, n);
    AddThenRemove(place, v, id, n);
    if Lookup(a, h) != id { LookupWithout(a, id, h); }
  }

  // ---------- How many points a node has ----------

  /** The points are exactly those of the nodes, `n` each. */
  ghost predicate Placed(place: Place, v: seq<Vnode>, ids: seq<Id>, n: nat) {
    forall x: Vnode :: multiset(v)[x] == if x.id in ids then multiset(Points(place, x.id, n))[x] else 0
  }

  /** The numbers below `n` whose points stand at `h`. */
  function Standing(place: Place, id: Id, n: nat, h: Hash): set<nat> {
    set i: nat | i < n && place(id, i) == h
  }

  /** The points of a node are the hashes of "id:i" for i below `n`, one for each i. */
  lemma {:induction false} PointsIn(place: Place, id: Id, n: nat, x: Vnode)
    ensures multiset(Points(place, id, n))[x] == if x.id == id then |Standing(place, id, n, x.hash)| else 0
  {
    if n > 0 {
      PointsIn(place, id, n - 1, x);
      var before, now := Standing(place, id, n - 1, x.hash), Standing(place, id, n, x.hash);
      assert now == if place(id, n - 1) == x.hash then before + {n - 1} else before;
    }
  }

  function Count(v: seq<Vnode>, id: Id): nat {
    |v| - |Without(v, id)|
  }

  lemma {:induction false} WithoutBag(v: seq<Vnode>, id: Id)
    ensures forall x: Vnode :: multiset(Without(v, id))[x] == if x.id == id then 0 else multiset(v)[x]
  {
    if v != [] {
      var n := |v| - 1;
      assert v == v[..n] + [v[n]];
      WithoutBag(v[..n], id);
    }
  }

  lemma PlacedAdded(place: Place, v: seq<Vnode>, ids: seq<Id>, n: nat, id: Id)
    requires Placed(place, v, ids, n) && id !in ids && Sorted(v)
    ensures Placed(place, Added(place, v, id, n), ids + [id], n)
  {
    AddedKeeps(place, v, id, n);
    var a, p := Added(place, v, id, n), multiset(Points(place, id, n));
    forall x: Vnode
      ensures multiset(a)[x] == if x.id in ids + [id] then multiset(Points(place, x.id, n))[x] else 0
    {
      assert multiset(a)[x] == multiset(v)[x] + p[x];
      if x.id != id {
        assert x !in Points(place, id, n);
        assert x.id in ids + [id] <==> x.id in ids;
      } else {
        assert x.id in ids + [id];
      }
    }
  }

  lemma PlacedWithout(place: Place, v: seq<Vnode>, ids: seq<Id>, n: nat, id: Id, ids': seq<Id>)
    requires Placed(place, v, ids, n) && forall x :: x in ids' <==> x in ids && x != id
    ensures Placed(place, Without(v, id), ids', n)
  {
    WithoutBag(v, id);
  }

  /** The points of a ring belong to its nodes and each node has exactly `n`. */
  lemma CountPlaced(place: Place, v: seq<Vnode>, ids: seq<Id>, n: nat, id: Id)
    requires Placed(place, v, ids, n)
    ensures Count(v, id) == if id in ids then n else 0
    ensures id !in ids ==> forall x :: x in v ==> x.id != id
  {
    WithoutBag(v, id);
    var rest, own := multiset(Without(v, id)), if id in ids then multiset(Points(place, id, n)) else multiset{};
    forall x: Vnode ensures multiset(v)[x] == (rest + own)[x] {
      if id in ids && x.id != id { assert x !in Points(place, id, n); }
    }
    assert multiset(v) == rest + own;
    forall x | x in v && id !in ids ensures x.id != id {
      assert multiset(v)[x] > 0;
    }
  }

  /** A full revolution meets every node: the replica list has them all. */
  lemma ReplicasAll(place: Place, v: seq<Vnode>, ids: seq<Id>, n: nat, h: Hash)
    requires Placed(place, v, ids, n) && n > 0
    ensures forall id :: id in Replicas(v, h) <==> id in ids
    ensures Distinct(ids) ==> |Replicas(v, h)| == |ids|
  {
    var w, r := Walk(v, h), Replicas(v, h);
    forall id ensures id in r <==> id in ids {
      CountPlaced(place, v, ids, n, id);
      InWalk(v, h, id);
      if id in ids {
        if forall x :: x in v ==> x.id != id { WithoutNone(v, id); }
      }
    }
    if Distinct(ids) { SameLength(r, ids); }
  }

  lemma InWalk(v: seq<Vnode>, h: Hash, id: Id)
    ensures id in Replicas(v, h) <==> exists x :: x in v && x.id == id
  {
    var w := Walk(v, h);
    assert v == v[..Start(v, h)] + v[Start(v, h)..];
    if id in Replicas(v, h) {
      var i :| 0 <= i < |w| && Ids(w)[i] == id;
      assert w[i] in v && w[i].id == id;
    }
    if x :| x in v && x.id == id {
      assert x in w;
      var i :| 0 <= i < |w| && w[i] == x;
      assert Ids(w)[i] == id;
    }
  }

  /** Two lists without repetition and with the same members are as long. */
  lemma SameLength(a: seq<Id>, b: seq<Id>)
    requires Distinct(a) && Distinct(b) && forall x :: x in a <==> x in b
    ensures |a| == |b|
  {
    MembersCount(a);
    MembersCount(b);
    assert Members(a) == Members(b);
  }

  function Members(a: seq<Id>): set<Id> {
    set x | x in a
  }

  lemma {:induction false} MembersCount(a: seq<Id>)
    requires Distinct(a)
    ensures |Members(a)| == |a|
  {
    if a != [] {
      var n := |a| - 1;
      MembersCount(a[..n]);
      assert a[n] !in Members(a[..n]);
      MembersMore(a[..n], a[n]);
      assert a == a[..n] + [a[n]];
    }
  }

  lemma MembersMore(a: seq<Id>, x: Id)
    ensures Members(a + [x]) == Members(a) + {x}
  {
  }
}
