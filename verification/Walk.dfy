/** The loops over a pipe list in src/protocol/pubsub/pub.c, src/utils/lb.c and
    src/utils/fq.c, when the visit of a pipe can remove pipes: a hard error inside a
    stream pipe runs its error callback, which takes the pipe out of the list and
    frees its item. */
module Walk {
  import opened Common
  import opened List

  function Kept<T(==)>(x: T, xs: seq<T>): seq<T> {
    if x in xs then [] else [x]
  }

  function Without<T(==)>(s: seq<T>, xs: seq<T>): (r: seq<T>)
    ensures |r| <= |s|
  {
    if s == [] then [] else Kept(s[0], xs) + Without(s[1..], xs)
  }

  lemma {:induction false} WithoutSplit<T>(a: seq<T>, b: seq<T>, xs: seq<T>)
    ensures Without(a + b, xs) == Without(a, xs) + Without(b, xs)
  {
    hide Kept;
    if a == [] {
      assert a + b == b;
      assert Without(a, xs) + Without(b, xs) == Without(b, xs);
    } else {
      WithoutSplit(a[1..], b, xs);
      assert (a + b)[1..] == a[1..] + b && (a + b)[0] == a[0];
      Joined(Kept(a[0], xs), Without(a[1..], xs), Without(b, xs));
    }
  }

  lemma Joined<T>(a: seq<T>, b: seq<T>, c: seq<T>)
    ensures a + (b + c) == (a + b) + c
  {
  }

  lemma {:induction false} WithoutNone<T>(s: seq<T>, xs: seq<T>)
    requires forall x :: x in s ==> x !in xs
    ensures Without(s, xs) == s
  {
    if s != [] {
      WithoutNone(s[1..], xs);
      assert s == [s[0]] + s[1..];
    }
  }

  lemma {:induction false} WithoutIn<T>(s: seq<T>, xs: seq<T>, y: T)
    ensures y in Without(s, xs) <==> y in s && y !in xs
  {
    if s != [] { WithoutIn(s[1..], xs, y); }
  }

  lemma {:induction false} WithoutMore<T>(s: seq<T>, xs: seq<T>, x: T)
    ensures Without(s, xs + [x]) == Without(Without(s, xs), [x])
  {
    if s != [] {
      WithoutMore(s[1..], xs, x);
      WithoutSplit(Kept(s[0], xs), Without(s[1..], xs), [x]);
      WithoutOne(s[0], xs, x);
    }
  }

  lemma WithoutOne<T>(y: T, xs: seq<T>, x: T)
    ensures Kept(y, xs + [x]) == Without(Kept(y, xs), [x])
  {
    if y !in xs { assert [y][1..] == []; }
  }

  /** Erasing the item at `k` of a list without repetitions. */
  lemma {:induction false} WithoutAt<T>(s: seq<T>, k: nat)
    requires Distinct(s) && k < |s|
    ensures Without(s, [s[k]]) == s[..k] + s[k + 1..]
  {
    if k == 0 {
      WithoutNone(s[1..], [s[0]]);
      assert s[..0] + s[1..] == s[1..];
    } else {
      WithoutAt(s[1..], k - 1);
      assert s[1..][..k - 1] == s[1..k] && s[1..][k..] == s[k + 1..];
      assert [s[0]] + (s[1..k] + s[k + 1..]) == s[..k] + s[k + 1..];
    }
  }

  lemma {:induction false} WithoutDistinct<T>(s: seq<T>, xs: seq<T>)
    requires Distinct(s)
    ensures Distinct(Without(s, xs))
  {
    if s != [] {
      WithoutDistinct(s[1..], xs);
      WithoutIn(s[1..], xs, s[0]);
      NewFirst(s[0], Without(s[1..], xs));
    }
  }

  lemma NewFirst<T>(x: T, s: seq<T>)
    requires Distinct(s)
    ensures x !in s ==> Distinct([x] + s)
    ensures [] + s == s
  {
    var r := [x] + s;
    if x !in s {
      forall i, j | 0 <= i < j < |r| ensures r[i] != r[j] {
        assert r[j] == s[j - 1] && (i > 0 ==> r[i] == s[i - 1]);
      }
    }
  }

  // ---------- The loop on values ----------

  /** The items visited in order, and whether the loop goes on from a removed one. */
  datatype Trip<T> = Trip(visited: seq<T>, strays: bool)

  function First<T>(drops: seq<seq<T>>): seq<T> {
    if drops == [] then [] else drops[0]
  }

  function Rest<T>(drops: seq<seq<T>>): seq<seq<T>> {
    if drops == [] then [] else drops[1..]
  }

  /** The loop over the items `ahead`; `drops` is what each of its visits removes. */
  function Loop<T(==)>(ahead: seq<T>, drops: seq<seq<T>>): Trip<T>
    decreases |ahead|
  {
    if ahead == [] then Trip([], false)
    else if ahead[0] in First(drops) then Trip([ahead[0]], true)
    else
      var t := Loop(Without(ahead[1..], First(drops)), Rest(drops));
      Trip([ahead[0]] + t.visited, t.strays)
  }

  /** A loop that has visited `seen` and goes on. */
  function Onward<T>(seen: seq<T>, t: Trip<T>): Trip<T> {
    Trip(seen + t.visited, t.strays)
  }

  /** Visit number `i` removes `x`. */
  predicate Drops<T(==)>(drops: seq<seq<T>>, i: nat, x: T) {
    i < |drops| && x in drops[i]
  }

  /** The loop goes on from a removed item if and only if some visit removes the very
      item it visits; a visit may remove any others. */
  lemma {:induction false} StraysIff<T>(ahead: seq<T>, drops: seq<seq<T>>)
    ensures var t := Loop(ahead, drops);
            t.strays <==> exists i: nat :: i < |t.visited| && Drops(drops, i, t.visited[i])
    decreases |ahead|
  {
    if ahead != [] {
      var t := Loop(ahead, drops);
      if ahead[0] in First(drops) {
        assert Drops(drops, 0, t.visited[0]);
      } else {
        var more := Loop(Without(ahead[1..], First(drops)), Rest(drops));
        StraysIff(Without(ahead[1..], First(drops)), Rest(drops));
        if more.strays {
          var i: nat :| i < |more.visited| && Drops(Rest(drops), i, more.visited[i]);
          assert Drops(drops, i + 1, t.visited[i + 1]);
        }
        if i: nat :| i < |t.visited| && Drops(drops, i, t.visited[i]) {
          assert i > 0 && Drops(Rest(drops), i - 1, more.visited[i - 1]);
        }
      }
    }
  }

  /** Otherwise it visits every item that no earlier visit removed, each once. */
  lemma {:induction false} VisitsAll<T>(ahead: seq<T>, drops: seq<seq<T>>, x: T)
    requires Distinct(ahead) && x in ahead && !Loop(ahead, drops).strays
    ensures var t := Loop(ahead, drops); x in t.visited || exists i: nat :: i < |t.visited| && Drops(drops, i, x)
    decreases |ahead|
  {
    var t := Loop(ahead, drops);
    if x != ahead[0] {
      if x in First(drops) {
        assert Drops(drops, 0, x);
      } else {
        var left := Without(ahead[1..], First(drops));
        WithoutIn(ahead[1..], First(drops), x);
        WithoutDistinct(ahead[1..], First(drops));
        VisitsAll(left, Rest(drops), x);
        var more := Loop(left, Rest(drops));
        if x !in more.visited {
          var i: nat :| i < |more.visited| && Drops(Rest(drops), i, x);
          assert Drops(drops, i + 1, x);
        }
      }
    }
  }

  lemma {:induction false} VisitsOnce<T>(ahead: seq<T>, drops: seq<seq<T>>)
    requires Distinct(ahead)
    ensures var t := Loop(ahead, drops); Distinct(t.visited) && forall x :: x in t.visited ==> x in ahead
    decreases |ahead|
  {
    if ahead != [] && ahead[0] !in First(drops) {
      var left := Without(ahead[1..], First(drops));
      WithoutDistinct(ahead[1..], First(drops));
      VisitsOnce(left, Rest(drops));
      var more := Loop(left, Rest(drops)).visited;
      forall x | x in more ensures x in ahead[1..] { WithoutIn(ahead[1..], First(drops), x); }
      assert ahead[0] !in ahead[1..];
      NewFirst(ahead[0], more);
    }
  }

  /** What the visits remove when every failing item, and nothing else, is removed by
      its own visit. */
  function OwnDrops<T(==)>(items: seq<T>, fails: set<T>): seq<seq<T>> {
    if items == [] then [] else [if items[0] in fails then [items[0]] else []] + OwnDrops(items[1..], fails)
  }

  /** A loop that goes on after an error strays if and only if some item fails, right
      after the first that does. */
  lemma {:induction false} FailingItem<T>(items: seq<T>, fails: set<T>)
    requires Distinct(items)
    ensures var t := Loop(items, OwnDrops(items, fails));
            && (t.strays <==> exists x :: x in items && x in fails)
            && t.visited <= items && (!t.strays ==> t.visited == items)
            && (t.strays ==> t.visited != [] && t.visited[|t.visited| - 1] in fails)
  {
    hide Loop, OwnDrops;
    FirstVisit(items, fails);
    if items != [] && items[0] !in fails {
      FailingItem(items[1..], fails);
      assert items == [items[0]] + items[1..];
    }
  }

  lemma FirstVisit<T>(items: seq<T>, fails: set<T>)
    ensures Loop(items, OwnDrops(items, fails)) ==
            if items == [] then Trip([], false)
            else if items[0] in fails then Trip([items[0]], true)
            else var t := Loop(items[1..], OwnDrops(items[1..], fails)); Trip([items[0]] + t.visited, t.strays)
  {
    if items != [] {
      var drops := OwnDrops(items, fails);
      assert drops[1..] == OwnDrops(items[1..], fails);
      WithoutNone(items[1..], []);
    }
  }

  // ---------- The loop on the linked list ----------

  /** The list, of which all members are among `all`. */
  ghost predicate Members(list: ItemList, all: set<Item>)
    reads list, list.items, all
  {
    && list.Valid() && (forall x :: x in list.items ==> x in all)
    && forall x :: x in all && x !in list.items ==> x.prev == Outside && x.next == Outside
  }

  ghost predicate Known(drops: seq<seq<Item>>, all: set<Item>) {
    forall i, x :: 0 <= i < |drops| && x in drops[i] ==> x in all
  }

  /** A visit removes `xs`, as far as they are in the list. */
  method EraseAll(list: ItemList, xs: seq<Item>, ghost all: set<Item>)
    requires Members(list, all) && forall x :: x in xs ==> x in all
    modifies list, all
    ensures Members(list, all) && list.items == Without(old(list.items), xs)
  {
    hide Without, LinkedAt;
    ghost var was := list.items;
    WithoutNone(was, []);
    for i := 0 to |xs|
      invariant Members(list, all) && list.items == Without(was, xs[..i])
    {
      assert xs[..i + 1] == xs[..i] + [xs[i]];
      WithoutMore(was, xs[..i], xs[i]);
      EraseOne(list, xs[i], all);
    }
    assert xs[..|xs|] == xs;
  }

  method EraseOne(list: ItemList, x: Item, ghost all: set<Item>)
    requires Members(list, all) && x in all
    modifies list, all
    ensures Members(list, all) && list.items == Without(old(list.items), [x])
  {
    hide Without, LinkedAt;
    if x.IsInList() {
      ghost var k :| 0 <= k < |list.items| && list.items[k] == x;
      WithoutAt(list.items, k);
      list.Erase(x, k);
    } else {
      NotLinked(list, x);
      WithoutNone(list.items, [x]);
    }
  }

  /** One visit of the item at `i`: where it stands afterwards, and what is ahead. */
  lemma OneVisit<T>(before: seq<T>, i: nat, drops: seq<seq<T>>)
    requires i < |before|
    ensures var x, d := before[i], First(drops);
            var now, k := Without(before, d), |Without(before[..i], d)|;
            if x in d then x !in now && Loop(before[i..], drops) == Trip([x], true)
            else k < |now| && now[k] == x && Loop(before[i..], drops) == Onward([x], Loop(now[k + 1..], Rest(drops)))
  {
    hide Without, Loop, Kept;
    var x, d := before[i], First(drops);
    WithoutIn(before, d, x);
    assert before[..i] + before[i..] == before && before[i..][0] == x && before[i..][1..] == before[i + 1..];
    WithoutSplit(before[..i], before[i..], d);
    Unfold(before[i..], drops);
    if x !in d { Behind(Without(before[..i], d), x, Without(before[i + 1..], d)); }
  }

  lemma Unfold<T>(ahead: seq<T>, drops: seq<seq<T>>)
    requires ahead != []
    ensures if ahead[0] in First(drops) then Loop(ahead, drops) == Trip([ahead[0]], true)
            else
              && Without(ahead, First(drops)) == [ahead[0]] + Without(ahead[1..], First(drops))
              && Loop(ahead, drops) == Onward([ahead[0]], Loop(Without(ahead[1..], First(drops)), Rest(drops)))
  {
  }

  lemma Behind<T>(a: seq<T>, x: T, b: seq<T>)
    ensures (a + ([x] + b))[|a|] == x && (a + ([x] + b))[|a| + 1..] == b
  {
  }

  lemma OnwardTwice<T>(seen: seq<T>, x: T, t: Trip<T>)
    ensures Onward(seen, Onward([x], t)) == Onward(seen + [x], t)
  {
    Joined(seen, [x], t.visited);
  }

  ghost predicate At(list: ItemList, it: Item?, i: nat)
    reads list
  {
    i <= |list.items| && it == if i < |list.items| then list.items[i] else null
  }

  /** One turn of the loop: a visit, what it removes, and the step to the next item. */
  method Turn(list: ItemList, it: Item, d: seq<Item>, ghost i: nat, ghost drops: seq<seq<Item>>, ghost all: set<Item>)
    returns (strays: bool, next: Item?, ghost i': nat)
    requires Members(list, all) && At(list, it, i) && i < |list.items| && d == First(drops) && forall x :: x in d ==> x in all
    modifies list, all
    ensures Members(list, all)
    ensures strays ==> old(Loop(list.items[i..], drops)) == Trip([it], true)
    ensures !strays ==> At(list, next, i') && |list.items| - i' < old(|list.items|) - i
    ensures !strays ==> old(Loop(list.items[i..], drops)) == Onward([it], Loop(list.items[i'..], Rest(drops)))
  {
    hide Without, LinkedAt, Loop;
    ghost var before := list.items;
    OneVisit(before, i, drops);
    EraseAll(list, d, all);
    i' := |Without(before[..i], d)| + 1;
    if it !in d {
      Next(list, i' - 1);
      Shorter(before, i, d);
    }
    strays, next := it.next == Outside, null;
    if !strays { next := it.next.item; }
  }

  /** The loop: visit, remove, and go on from the item just visited. */
  method Traverse(list: ItemList, drops: seq<seq<Item>>, ghost all: set<Item>) returns (visited: seq<Item>, strays: bool)
    requires Members(list, all) && Known(drops, all)
    modifies list, all
    ensures Members(list, all) && Trip(visited, strays) == Loop(old(list.items), drops)
  {
    hide Loop, Members, At, Known;
    visited, strays := [], false;
    var it: Item? := list.first;
    var ds: seq<seq<Item>> := drops;
    ghost var i: nat, was: seq<Item> := 0, list.items;
    Begins(list, all, was, drops);
    while it != null
      invariant Members(list, all) && Known(ds, all) && At(list, it, i) && i <= |list.items|
      invariant Loop(was, drops) == Onward(visited, Loop(list.items[i..], ds))
      decreases |list.items| - i
    {
      ghost var i';
      var next: Item?;
      KnownOn(ds, all);
      InRange(list, it, i);
      strays, next, i' := Turn(list, it, First(ds), i, ds, all);
      if strays {
        visited := visited + [it];
        return;
      }
      InRange(list, next, i');
      OnwardTwice(visited, it, Loop(list.items[i'..], Rest(ds)));
      visited := visited + [it];
      i, ds, it := i', Rest(ds), next;
    }
    InRange(list, it, i);
    LoopEnds(list.items[i..], ds);
    assert visited + [] == visited;
  }

  lemma Begins(list: ItemList, all: set<Item>, was: seq<Item>, drops: seq<seq<Item>>)
    requires Members(list, all) && was == list.items
    ensures At(list, list.first, 0) && Loop(was, drops) == Onward([], Loop(list.items[0..], drops))
  {
    hide Loop;
    assert was[0..] == was && [] + Loop(was, drops).visited == Loop(was, drops).visited;
  }

  lemma KnownOn(drops: seq<seq<Item>>, all: set<Item>)
    requires Known(drops, all)
    ensures Known(Rest(drops), all) && forall x :: x in First(drops) ==> x in all
  {
    forall i, x | 0 <= i < |Rest(drops)| && x in Rest(drops)[i] ensures x in all { assert x in drops[i + 1]; }
  }

  lemma InRange(list: ItemList, it: Item?, i: nat)
    requires At(list, it, i)
    ensures i <= |list.items| && (it != null <==> i < |list.items|)
  {
  }

  lemma LoopEnds(ahead: seq<Item>, drops: seq<seq<Item>>)
    requires ahead == []
    ensures Loop(ahead, drops) == Trip([], false)
  {
  }

  /** Fewer items are ahead after each visit. */
  lemma Shorter(before: seq<Item>, i: nat, d: seq<Item>)
    requires i < |before| && before[i] !in d
    ensures |Without(before, d)| - (|Without(before[..i], d)| + 1) < |before| - i
  {
    assert before == before[..i] + before[i..];
    WithoutSplit(before[..i], before[i..], d);
  }

  lemma Next(list: ItemList, k: nat)
    requires list.Valid() && k < |list.items|
    ensures list.items[k].next == To(if k + 1 < |list.items| then list.items[k + 1] else null)
  {
    assert LinkedAt(list.items, k);
  }

  lemma NotLinked(list: ItemList, x: Item)
    requires list.Valid() && !x.IsInList()
    ensures x !in list.items
  {
    forall k | 0 <= k < |list.items| ensures list.items[k] != x { assert LinkedAt(list.items, k); }
  }
}
