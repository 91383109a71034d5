// The circular doubly linked list with a sentinel (intrusive.h): the links are in the
// items themselves, and the list refines a sequence of items.

module IntrusiveLists {
  import opened Common

  class Item<P> {
    var next: Item?<P>
    var prev: Item?<P>
    const payload: P

    constructor (payload: P)
      ensures next == null && prev == null && this.payload == payload
    {
      this.payload := payload;
      next, prev := null, null;
    }
  }

  function InsertAt<A>(s: seq<A>, k: nat, a: A): seq<A>
    requires k <= |s|
  {
    s[..k] + [a] + s[k..]
  }

  function RemoveAt<A>(s: seq<A>, k: nat): seq<A>
    requires k < |s|
  {
    s[..k] + s[k + 1..]
  }

  class IntrusiveList<P> {
    var head: Item<P>
    var tail: Item<P>
    const emptyListItem: Item<P>
    ghost var items: seq<Item<P>>

    /** The i-th item; before the first and after the last is the sentinel. */
    ghost function Node(s: seq<Item<P>>, i: int): Item<P>
      requires -1 <= i <= |s|
    {
      if 0 <= i < |s| then s[i] else emptyListItem
    }

    /** Forward and backward links are inverse to each other and go round through the sentinel. */
    ghost predicate Ring(s: seq<Item<P>>)
      reads s, emptyListItem
    {
      && emptyListItem !in s && Distinct(s)
      && forall i :: -1 <= i < |s| ==> LinkedAfter(s, i)
    }

    ghost predicate LinkedAfter(s: seq<Item<P>>, i: int)
      requires -1 <= i < |s|
      reads s, emptyListItem
    {
      Node(s, i).next == Node(s, i + 1) && Node(s, i + 1).prev == Node(s, i)
    }

    ghost predicate Valid()
      reads this, items, emptyListItem
    {
      Ring(items) && head == Node(items, 0) && tail == Node(items, |items| - 1)
    }

    constructor (sentinel: Item<P>)
      modifies sentinel
      ensures Valid() && items == [] && emptyListItem == sentinel
    {
      emptyListItem := sentinel;
      head, tail := sentinel, sentinel;
      items := [];
      new;
      emptyListItem.next := emptyListItem;
      emptyListItem.prev := emptyListItem;
    }

    lemma NodeLinks(s: seq<Item<P>>, i: nat)
      requires Ring(s) && i <= |s|
      ensures Node(s, i - 1).next == Node(s, i) && Node(s, i).prev == Node(s, i - 1)
    {
      assert LinkedAfter(s, i - 1);
    }

    /** What every way of linking an item in between its neighbours comes to. */
    twostate lemma Spliced(s: seq<Item<P>>, new k: nat, new item: Item<P>)
      requires old(Ring(s)) && k <= |s| && item !in s && item != emptyListItem
      requires item.next == Node(s, k) && item.prev == Node(s, k - 1)
      requires Node(s, k - 1).next == item && Node(s, k).prev == item
      requires forall i :: -1 <= i < |s| && i != k - 1 ==> Node(s, i).next == old(Node(s, i).next)
      requires forall i :: 0 <= i <= |s| && i != k ==> Node(s, i).prev == old(Node(s, i).prev)
      ensures Ring(InsertAt(s, k, item))
    {
      var r := InsertAt(s, k, item);
      forall i | -1 <= i < |r|
        ensures LinkedAfter(r, i)
      {
        if i < k - 1 {
          assert old(LinkedAfter(s, i)) && Node(r, i) == Node(s, i) && Node(r, i + 1) == Node(s, i + 1);
        } else if i > k {
          assert old(LinkedAfter(s, i - 1)) && Node(r, i) == Node(s, i - 1) && Node(r, i + 1) == Node(s, i);
        }
      }
    }

    twostate lemma Unspliced(s: seq<Item<P>>, new k: nat)
      requires old(Ring(s)) && k < |s|
      requires Node(s, k - 1).next == Node(s, k + 1) && Node(s, k + 1).prev == Node(s, k - 1)
      requires forall i :: -1 <= i < |s| && i != k - 1 && i != k ==> Node(s, i).next == old(Node(s, i).next)
      requires forall i :: 0 <= i <= |s| && i != k && i != k + 1 ==> Node(s, i).prev == old(Node(s, i).prev)
      ensures Ring(RemoveAt(s, k))
    {
      var r := RemoveAt(s, k);
      forall i | -1 <= i < |r|
        ensures LinkedAfter(r, i)
      {
        if i < k - 1 {
          assert old(LinkedAfter(s, i)) && Node(r, i) == Node(s, i) && Node(r, i + 1) == Node(s, i + 1);
        } else if i >= k {
          assert old(LinkedAfter(s, i + 1)) && Node(r, i) == Node(s, i + 1) && Node(r, i + 1) == Node(s, i + 2);
        } else {
          assert Node(r, i) == Node(s, k - 1) && Node(r, i + 1) == Node(s, k + 1);
        }
      }
    }

    method PushBack(item: Item<P>)
      requires Valid() && item !in items && item != emptyListItem
      modifies this, items, emptyListItem, item
      ensures Valid() && items == old(items) + [item]
    {
      ghost var s := items;
      item.next := emptyListItem;
      item.prev := tail;
      tail := item;
      emptyListItem.prev := item;
      if head == emptyListItem {
        head := tail;
        emptyListItem.next := head;
      } else {
        item.prev.next := item;
      }
      Spliced(s, |s|, item);
      items := InsertAt(s, |s|, item);
    }

    method PushFront(item: Item<P>)
      requires Valid() && item !in items && item != emptyListItem
      modifies this, items, emptyListItem, item
      ensures Valid() && items == [item] + old(items)
    {
      ghost var s := items;
      item.prev := emptyListItem;
      if head != emptyListItem {
        item.next := head;
        item.next.prev := item;
        emptyListItem.next := item;
      } else {
        item.next := emptyListItem;
        tail := item;
        emptyListItem.prev := item;
        emptyListItem.next := item;
      }
      head := item;
      Spliced(s, 0, item);
      items := InsertAt(s, 0, item);
    }

    /** Puts item before position, the k-th item or the end. */
    method Insert(position: Item<P>, item: Item<P>, ghost k: nat)
      requires Valid() && item !in items && item != emptyListItem
      requires k <= |items| && position == Node(items, k)
      modifies this, items, emptyListItem, item
      ensures Valid() && items == InsertAt(old(items), k, item)
    {
      ghost var s := items;
      NodeLinks(s, k);
      if head == emptyListItem {
        head := item;
        tail := item;
        item.next := emptyListItem;
        item.prev := emptyListItem;
        emptyListItem.next := item;
        emptyListItem.prev := item;
      } else {
        item.next := position;
        item.prev := position.prev;
        item.prev.next := item;
        position.prev := item;
        if item.prev == emptyListItem { head := item; }
        if item.next == emptyListItem { tail := item; }
      }
      Spliced(s, k, item);
      items := InsertAt(s, k, item);
    }

    /** Empties a list that has at most one item. */
    method RemoveLastItem()
      requires Valid() && head == tail
      modifies this, items, emptyListItem
      ensures Valid() && items == [] && |old(items)| <= 1 && forall a :: a in old(items) ==> a.next == null && a.prev == null
    {
      AtMostOne();
      head.next := null;
      head.prev := null;
      emptyListItem.next := emptyListItem;
      emptyListItem.prev := emptyListItem;
      tail := emptyListItem;
      head := emptyListItem;
      items := [];
    }

    lemma AtMostOne()
      requires Valid() && head == tail
      ensures |items| <= 1 && (items != [] ==> items == [head]) && (items == [] ==> head == emptyListItem)
    {
      assert forall j :: 0 < j < |items| ==> items[0] != items[j];
    }

    /** Removing from an empty list leaves it empty. */
    method PopBack()
      requires Valid()
      modifies this, items, emptyListItem
      ensures Valid() && items == if old(items) == [] then [] else old(items)[..|old(items)| - 1]
      ensures old(items) != [] ==> old(tail).next == null && old(tail).prev == null
    {
      ghost var s := items;
      if tail == head {
        AtMostOne();
        RemoveLastItem();
      } else {
        NodeLinks(s, |s|);
        NodeLinks(s, |s| - 1);
        tail.prev.next := emptyListItem;
        emptyListItem.prev := tail.prev;
        tail.prev := null;
        tail.next := null;
        tail := emptyListItem.prev;
        Unspliced(s, |s| - 1);
        items := RemoveAt(s, |s| - 1);
      }
    }

    method PopFront()
      requires Valid()
      modifies this, items, emptyListItem
      ensures Valid() && items == if old(items) == [] then [] else old(items)[1..]
      ensures old(items) != [] ==> old(head).next == null && old(head).prev == null
    {
      ghost var s := items;
      if tail == head {
        AtMostOne();
        RemoveLastItem();
      } else {
        NodeLinks(s, 0);
        NodeLinks(s, 1);
        head.next.prev := emptyListItem;
        head.prev := null;
        emptyListItem.next := head.next;
        head.next := null;
        head := emptyListItem.next;
        Unspliced(s, 0);
        items := RemoveAt(s, 0);
      }
    }

    /** Erases the k-th item and returns the one after it; the sentinel and items on no list are left alone. */
    method Erase(it: Item<P>, ghost k: nat) returns (result: Item<P>)
      requires Valid() && (it in items ==> k < |items| && it == items[k])
      requires it in items || it == emptyListItem || it.next == null || it.prev == null
      modifies this, items, emptyListItem
      ensures Valid()
      ensures it !in old(items) ==> items == old(items) && result == it
      ensures it in old(items) ==>
                items == RemoveAt(old(items), k) && result == old(Node(items, k + 1)) && it.next == null && it.prev == null
    {
      ghost var s := items;
      if it in items {
        NodeLinks(s, k);
        NodeLinks(s, k + 1);
      }
      if it.next == null || it.prev == null { return it; }
      if it == emptyListItem { return it; }
      result := it.next;
      it.next.prev := it.prev;
      it.prev.next := it.next;
      it.next := null;
      it.prev := null;
      Unspliced(s, k);
      items := RemoveAt(s, k);
      NodeLinks(items, 0);
      NodeLinks(items, |items|);
      head := emptyListItem.next;
      tail := emptyListItem.prev;
    }
  }
}
