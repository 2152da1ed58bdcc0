/** The intrusive doubly linked list of src/utils/list.c, on which the pipe lists
    are built, as a sequence of items. */
module List {
  import opened Common
  import opened Scheduler

  /** A link of an item; Outside is the marker of an item that is in no list. */
  datatype Link = Outside | To(item: Item?)

  class Item {
    var next: Link
    var prev: Link

    /** mb_list_item_init */
    constructor ()
      ensures !IsInList()
    {
      next, prev := Outside, Outside;
    }

    /** mb_list_item_isinlist */
    predicate IsInList()
      reads this`prev
    {
      prev != Outside
    }
  }

  /** The item at `i` is linked to its neighbours. */
  ghost predicate LinkedAt(s: seq<Item>, i: nat)
    requires i < |s|
    reads s
  {
    && s[i].prev == To(if i == 0 then null else s[i - 1])
    && s[i].next == To(if i + 1 == |s| then null else s[i + 1])
  }

  class ItemList {
    var first: Item?
    var last: Item?

    ghost var items: seq<Item>

    ghost predicate Valid()
      reads this, items
    {
      && Distinct(items)
      && first == (if items == [] then null else items[0])
      && last == (if items == [] then null else items[|items| - 1])
      && forall i :: 0 <= i < |items| ==> LinkedAt(items, i)
    }

    /** mb_list_init */
    constructor ()
      ensures Valid() && items == []
    {
      first, last, items := null, null, [];
    }

    /** mb_list_empty */
    method IsEmpty() returns (yes: bool)
      requires Valid()
      ensures yes <==> items == []
    {
      yes := first == null;
    }

    /** mb_list_insert at the end (before == NULL). */
    method Append(item: Item)
      requires Valid() && item !in items
      modifies this, item, if last == null then {} else {last}
      ensures Valid() && items == old(items) + [item] && item.IsInList()
    {
      ghost var s := items;
      item.prev, item.next := To(last), To(null);
      if last != null { last.next := To(item); } else { first := item; }
      last := item;
      items := s + [item];
      forall i | 0 <= i < |items| ensures LinkedAt(items, i) {
        if i < |s| { assert old(LinkedAt(s, i)); }
      }
    }

    /** mb_list_insert before the item at `k`. */
    method InsertBefore(item: Item, before: Item, ghost k: nat)
      requires Valid() && item !in items && k < |items| && before == items[k]
      modifies this, items, item
      ensures Valid() && items == old(items)[..k] + [item] + old(items)[k..] && item.IsInList()
    {
      ghost var s := items;
      assert LinkedAt(s, k);
      if k > 0 { assert LinkedAt(s, k - 1); }
      item.prev, item.next := before.prev, To(before);
      var p := before.prev.item;
      if p != null { p.next := To(item); } else { first := item; }
      before.prev := To(item);
      items := s[..k] + [item] + s[k..];
      forall i | 0 <= i < |items| ensures LinkedAt(items, i) {
        if i < k { assert old(LinkedAt(s, i)); }
        if i > k { assert old(LinkedAt(s, i - 1)); }
      }
    }

    /** mb_list_erase: the neighbours of the item at `k` are joined. */
    method Erase(item: Item, ghost k: nat)
      requires Valid() && k < |items| && item == items[k]
      modifies this, items
      ensures Valid() && items == old(items)[..k] + old(items)[k + 1..] && !item.IsInList()
      ensures item !in items && item.next == Outside
    {
      ghost var s := items;
      assert LinkedAt(s, k);
      if k > 0 { assert LinkedAt(s, k - 1); }
      if k + 1 < |s| { assert LinkedAt(s, k + 1); }
      var p, n := item.prev.item, item.next.item;
      if p != null { p.next := To(n); } else { first := n; }
      if n != null { n.prev := To(p); } else { last := p; }
      item.prev, item.next := Outside, Outside;
      items := s[..k] + s[k + 1..];
      forall i | 0 <= i < |items| ensures LinkedAt(items, i) {
        if i < k { assert old(LinkedAt(s, i)); } else { assert old(LinkedAt(s, i + 1)); }
      }
    }

    /** Erasing an item and inserting it at the end, as the schedulers do after each
        success, is the rotation that their fairness rests on. */
    method MoveToEnd(item: Item, ghost k: nat)
      requires Valid() && k < |items| && item == items[k]
      modifies this, items
      ensures Valid() && items == Rotate(old(items), k)
    {
      Erase(item, k);
      Append(item);
    }
  }
}
