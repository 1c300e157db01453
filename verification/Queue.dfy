/**
 * The intrusive first-in first-out queue. The link lives inside the item and
 * the test for membership never walks the list, so the chain of links has to
 * be the list of items at all times.
 */
module Queue {

  class Item {
    var link: Item?

    constructor ()
      ensures link == null
    {
      link := null;
    }
  }

  class Queue {
    var head: Item?
    var tail: Item?
    ghost var items: seq<Item>

    ghost predicate Valid()
      reads this, items
    {
      Distinct(items) && Chained(items) &&
      head == (if items == [] then null else items[0]) &&
      tail == (if items == [] then null else items[|items| - 1])
    }

    constructor ()
      ensures Valid() && items == []
    {
      head, tail, items := null, null, [];
    }

    /**
     * Membership by looking at two pointers. It is exact unless the item hangs
     * in the middle of another queue and this one is not empty.
     */
    predicate Contains(x: Item)
      requires Valid()
      reads this, items, x
      ensures x in items ==> Contains(x)
      ensures (Contains(x) <==> x in items) <==> (x in items || items == [] || x.link == null)
    {
      InItems(items, x);
      head != null && (x.link != null || tail == x)
    }

    /** Appends at the back, unless the item already counts as queued. */
    method Append(x: Item) returns (ok: bool)
      requires Valid()
      modifies this, items, x
      ensures Valid() && ok == !old(Contains(x))
      ensures items == if ok then old(items) + [x] else old(items)
      ensures !ok ==> x.link == old(x.link)
    {
      if Contains(x) {
        return false;
      }
      x.link := null;
      if head == null {
        head := x;
      } else {
        tail.link := x;
      }
      tail := x;
      items := items + [x];
      return true;
    }

    /** Inserts at the front, unless the item already counts as queued. */
    method Prepend(x: Item) returns (ok: bool)
      requires Valid()
      modifies this, x
      ensures Valid() && ok == !old(Contains(x))
      ensures items == if ok then [x] + old(items) else old(items)
      ensures !ok ==> x.link == old(x.link)
    {
      if Contains(x) {
        return false;
      }
      x.link := head;
      head := x;
      if tail == null {
        tail := x;
      }
      items := [x] + items;
      assert forall i :: 0 < i < |items| ==> items[i] == old(items)[i - 1] && Next(items, i) == Next(old(items), i - 1);
      return true;
    }

    /**
     * Inserts directly behind an item that counts as queued. An item that hangs in another
     * queue can count too; the new one then goes in behind it there, and not here.
     */
    method InsertAfter(after: Item, x: Item) returns (ok: bool)
      requires Valid()
      modifies this, items, x, after
      ensures Valid() && ok == (old(Contains(after)) && !old(Contains(x)))
      ensures !ok ==> items == old(items) && x.link == old(x.link) && after.link == old(after.link)
      ensures ok && after in old(items) ==> Inserted(old(items), items, after, x)
      ensures ok && after !in old(items) ==> items == old(items) && after.link == x && x.link == old(after.link)
    {
      if !Contains(after) || Contains(x) {
        return false;
      }
      if after == tail {
        ghost var last: nat := |items| - 1;
        ok := Append(x);
        assert items == With(old(items), last + 1, x);
        return;
      }
      LinkBehind(after, x);
      return true;
    }

    method LinkBehind(after: Item, x: Item)
      requires Valid() && x !in items && x != after && (items != [] ==> after != items[|items| - 1])
      modifies this`items, after, x
      ensures Valid()
      ensures after in old(items) ==> Inserted(old(items), items, after, x)
      ensures after !in old(items) ==> items == old(items) && after.link == x && x.link == old(after.link)
    {
      hide Distinct, With;
      x.link := after.link;
      after.link := x;
      if after in items {
        ghost var k := Position(items, after);
        Apart(items, k);
        WithDistinct(items, k + 1, x);
        WithNext(items, k + 1, x, 0);
        items := With(items, k + 1, x);
        forall i | 0 <= i < |items| ensures items[i].link == Next(items, i) {
          WithNext(old(items), k + 1, x, i);
        }
      }
    }

    /** Takes the front item, or nothing when the queue is empty. */
    method Dequeue() returns (item: Item?)
      requires Valid()
      modifies this, items
      ensures Valid()
      ensures old(items) == [] ==> item == null && items == []
      ensures old(items) != [] ==> item == old(items)[0] && items == old(items)[1..] && item.link == null
    {
      item := head;
      if item != null {
        head := item.link;
        item.link := null;
        if head == null {
          tail := null;
        }
        items := items[1..];
        assert forall i :: 0 <= i < |items| ==> items[i] == old(items)[i + 1] && Next(items, i) == Next(old(items), i + 1);
      }
    }

    /** Takes an item out wherever it is. Unlike Contains, this is exact. */
    method Remove(x: Item) returns (ok: bool)
      requires Valid()
      modifies this, items
      ensures Valid() && ok == (x in old(items))
      ensures !ok ==> items == old(items) && head == old(head) && tail == old(tail)
      ensures ok ==> x.link == null && Removed(old(items), items, x)
    {
      if !Contains(x) {
        return false;
      }
      if head == x {
        var first := Dequeue();
        assert old(items)[0] == x && items == old(items)[..0] + old(items)[0 + 1..];
        return true;
      }
      var current, found, k := FindBefore(x);
      if !found {
        return false;
      }
      Unlink(current, x, k);
      return true;
    }

    method Unlink(before: Item, x: Item, ghost k: nat)
      requires Valid() && 0 < k < |items| && items[k - 1] == before && items[k] == x
      modifies this, before, x
      ensures Valid() && head == old(head) && items == Without(old(items), k) && x.link == null
    {
      hide Distinct, Without;
      Apart(items, k);
      Apart(items, k - 1);
      WithoutDistinct(items, k);
      WithoutNext(items, k, 0);
      before.link := x.link;
      if tail == x {
        tail := before;
      }
      x.link := null;
      items := Without(items, k);
      forall i | 0 <= i < |items| ensures items[i].link == Next(items, i) {
        WithoutNext(old(items), k, i);
      }
    }

    /** Walks to the item whose link is x. */
    method FindBefore(x: Item) returns (before: Item, found: bool, ghost k: nat)
      requires Valid() && items != [] && items[0] != x
      ensures found == (x in items)
      ensures found ==> 0 < k < |items| && items[k - 1] == before && items[k] == x
    {
      var current := head;
      ghost var i: nat := 0;
      before := head;
      while current != null
        invariant 0 <= i <= |items| && current == (if i < |items| then items[i] else null)
        invariant forall j :: 0 <= j <= i && j < |items| ==> items[j] != x
        decreases |items| - i
      {
        assert current.link == Next(items, i);
        if current.link == x {
          return current, true, i + 1;
        }
        current := current.link;
        i := i + 1;
      }
      return before, false, 0;
    }
  }

  /** Two queues and an item of the first that the second takes for its own. */
  method Mistaken() returns (other: Queue, x: Item)
    ensures other.Valid() && x !in other.items && other.Contains(x)
  {
    var queue := new Queue();
    x := new Item();
    var y := new Item();
    var first := queue.Append(x);
    var second := queue.Append(y);
    assert x == queue.items[0] && x.link == Next(queue.items, 0);
    other := new Queue();
    var z := new Item();
    var third := other.Append(z);
    assert other.items == [z];
  }

  ghost predicate Distinct(s: seq<Item>) {
    forall i, j :: 0 <= i < j < |s| ==> s[i] != s[j]
  }

  /** Every item's link is the next item, and the last has none. */
  ghost predicate Chained(s: seq<Item>)
    reads s
  {
    forall i :: 0 <= i < |s| ==> s[i].link == Next(s, i)
  }

  ghost function Next(s: seq<Item>, i: nat): (next: Item?)
    requires i < |s|
  {
    if i + 1 < |s| then s[i + 1] else null
  }

  ghost function With(s: seq<Item>, k: nat, x: Item): (t: seq<Item>)
    requires k <= |s|
    ensures |t| == |s| + 1
  {
    s[..k] + [x] + s[k..]
  }

  ghost function Without(s: seq<Item>, k: nat): (t: seq<Item>)
    requires k < |s|
    ensures |t| == |s| - 1
  {
    s[..k] + s[k + 1..]
  }

  lemma {:induction false} Apart(s: seq<Item>, k: nat)
    requires Distinct(s) && k < |s|
    ensures forall j :: 0 <= j < |s| && j != k ==> s[j] != s[k]
  {
  }

  lemma {:induction false} WithDistinct(s: seq<Item>, k: nat, x: Item)
    requires Distinct(s) && k <= |s| && x !in s
    ensures Distinct(With(s, k, x))
  {
    var t := With(s, k, x);
    assert forall i :: 0 <= i < |t| ==> t[i] == if i < k then s[i] else if i == k then x else s[i - 1];
  }

  lemma {:induction false} WithNext(s: seq<Item>, k: nat, x: Item, i: nat)
    requires 0 < k < |s| && i <= |s|
    ensures With(s, k, x)[0] == s[0] && With(s, k, x)[|s|] == s[|s| - 1]
    ensures With(s, k, x)[i] == if i < k then s[i] else if i == k then x else s[i - 1]
    ensures Next(With(s, k, x), i) ==
      if i + 1 == k then x else if i == k then s[k] else if i < k then Next(s, i) else Next(s, i - 1)
  {
  }

  lemma {:induction false} WithoutDistinct(s: seq<Item>, k: nat)
    requires Distinct(s) && k < |s|
    ensures Distinct(Without(s, k))
  {
    var t := Without(s, k);
    assert forall i :: 0 <= i < |t| ==> t[i] == if i < k then s[i] else s[i + 1];
  }

  lemma {:induction false} WithoutNext(s: seq<Item>, k: nat, i: nat)
    requires 0 < k < |s| && i < |s| - 1
    ensures Without(s, k)[0] == s[0]
    ensures Without(s, k)[|s| - 2] == if k == |s| - 1 then s[k - 1] else s[|s| - 1]
    ensures Without(s, k)[i] == if i < k then s[i] else s[i + 1]
    ensures Next(Without(s, k), i) == if i + 1 == k then Next(s, k) else if i < k then Next(s, i) else Next(s, i + 1)
  {
  }

  ghost predicate Inserted(s: seq<Item>, t: seq<Item>, after: Item, x: Item) {
    exists k :: 0 <= k < |s| && s[k] == after && t == With(s, k + 1, x)
  }

  ghost predicate Removed(s: seq<Item>, t: seq<Item>, x: Item) {
    exists k :: 0 <= k < |s| && s[k] == x && t == Without(s, k)
  }

  ghost function Position(s: seq<Item>, x: Item): (k: nat)
    requires x in s
    ensures k < |s| && s[k] == x
  {
    if s[0] == x then 0 else 1 + Position(s[1..], x)
  }

  /** A queued item has a link unless it is the last one. */
  lemma {:induction false} InItems(s: seq<Item>, x: Item)
    requires Chained(s)
    ensures x in s ==> x.link != null || s[|s| - 1] == x
  {
    if x in s {
      var k := Position(s, x);
    }
  }
}
