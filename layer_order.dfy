/**
 * Moving elements of a list the way the layer list does it
 * (Layers::reorder_layer and Layers::delete_layer in src/layers.rs):
 * remove an element, insert an element, and reorder as remove-then-insert.
 * The menu reorders its layer managers with the same permutation.
 */
module LayerOrder {

  /** Vec::remove: the elements after i shift down by one. */
  function Remove<T>(s: seq<T>, i: nat): (r: seq<T>)
    requires i < |s|
    ensures |r| == |s| - 1
    ensures forall k :: 0 <= k < i ==> r[k] == s[k]
    ensures forall k :: i <= k < |r| ==> r[k] == s[k + 1]
  {
    s[..i] + s[i + 1..]
  }

  /** Vec::insert: x lands at i and the elements from i on shift up by one. */
  function Insert<T>(s: seq<T>, i: nat, x: T): (r: seq<T>)
    requires i <= |s|
    ensures |r| == |s| + 1 && r[i] == x
    ensures forall k :: 0 <= k < i ==> r[k] == s[k]
    ensures forall k :: i < k < |r| ==> r[k] == s[k - 1]
  {
    s[..i] + [x] + s[i..]
  }

  /** Removing index i shifts every later element down by one. */
  lemma RemoveKeeps<T>(s: seq<T>, i: nat, k: nat)
    requires i < |s| && k < |s| && k != i
    ensures var k' := if k < i then k else k - 1;
      k' < |Remove(s, i)| && Remove(s, i)[k'] == s[k]
  {
    if k > i {
      assert Remove(s, i)[k - 1] == s[k - 1 + 1];
    }
  }

  lemma RemoveMultiset<T>(s: seq<T>, i: nat)
    requires i < |s|
    ensures multiset(Remove(s, i)) + multiset{s[i]} == multiset(s)
  {
    assert s == s[..i] + [s[i]] + s[i + 1..];
  }

  lemma InsertMultiset<T>(s: seq<T>, i: nat, x: T)
    requires i <= |s|
    ensures multiset(Insert(s, i, x)) == multiset(s) + multiset{x}
  {
    assert s == s[..i] + s[i..];
  }

  /** Removing what was just inserted, and inserting back what was just removed, restore the list. */
  lemma InsertRemoveInverse<T>(s: seq<T>, i: nat, x: T)
    requires i <= |s|
    ensures Remove(Insert(s, i, x), i) == s
    ensures i < |s| ==> Insert(Remove(s, i), i, s[i]) == s
  {
  }

  /** Take the element at `take` out and insert it at `dest`. */
  function Reorder<T>(s: seq<T>, take: nat, dest: nat): (r: seq<T>)
    requires take < |s| && dest < |s|
    ensures |r| == |s| && r[dest] == s[take]
  {
    Insert(Remove(s, take), dest, s[take])
  }

  /** The position the element at old index a moves to. */
  function NewIndex(take: nat, dest: nat, a: nat): nat
  {
    if a == take then dest
    else
      var shifted := if a < take then a else a - 1;
      if shifted < dest then shifted else shifted + 1
  }

  /** The old index of the element found at position k after the move. */
  function OldIndex(take: nat, dest: nat, k: nat): nat
  {
    if k == dest then take
    else
      var shifted := if k < dest then k else k - 1;
      if shifted < take then shifted else shifted + 1
  }

  /** The element at old index a is found at NewIndex(a). */
  lemma ReorderAt<T>(s: seq<T>, take: nat, dest: nat, a: nat)
    requires take < |s| && dest < |s| && a < |s|
    ensures NewIndex(take, dest, a) < |s| && OldIndex(take, dest, NewIndex(take, dest, a)) == a
    ensures Reorder(s, take, dest)[NewIndex(take, dest, a)] == s[a]
  {
  }

  /** The element found at position k came from OldIndex(k). */
  lemma ReorderFrom<T>(s: seq<T>, take: nat, dest: nat, k: nat)
    requires take < |s| && dest < |s| && k < |s|
    ensures OldIndex(take, dest, k) < |s| && NewIndex(take, dest, OldIndex(take, dest, k)) == k
    ensures Reorder(s, take, dest)[k] == s[OldIndex(take, dest, k)]
  {
  }

  /** The elements other than the moved one keep their relative order. */
  lemma ReorderOrder(take: nat, dest: nat, a: nat, b: nat)
    requires a != take && b != take
    ensures a < b <==> NewIndex(take, dest, a) < NewIndex(take, dest, b)
  {
  }

  /**
   * Reordering moves every element, and only moves it: the element at old
   * index a is found at NewIndex(a), the two index maps are inverse, and
   * the elements other than the moved one keep their relative order.
   */
  lemma ReorderIndices<T>(s: seq<T>, take: nat, dest: nat)
    requires take < |s| && dest < |s|
    ensures forall a :: 0 <= a < |s| ==>
      NewIndex(take, dest, a) < |s| && OldIndex(take, dest, NewIndex(take, dest, a)) == a &&
      Reorder(s, take, dest)[NewIndex(take, dest, a)] == s[a]
    ensures forall k :: 0 <= k < |s| ==>
      OldIndex(take, dest, k) < |s| && NewIndex(take, dest, OldIndex(take, dest, k)) == k &&
      Reorder(s, take, dest)[k] == s[OldIndex(take, dest, k)]
    ensures forall a, b :: 0 <= a < |s| && 0 <= b < |s| && a != take && b != take ==>
      (a < b <==> NewIndex(take, dest, a) < NewIndex(take, dest, b))
  {
    forall a | 0 <= a < |s|
      ensures NewIndex(take, dest, a) < |s| && OldIndex(take, dest, NewIndex(take, dest, a)) == a &&
        Reorder(s, take, dest)[NewIndex(take, dest, a)] == s[a]
    {
      ReorderAt(s, take, dest, a);
    }
    forall k | 0 <= k < |s|
      ensures OldIndex(take, dest, k) < |s| && NewIndex(take, dest, OldIndex(take, dest, k)) == k &&
        Reorder(s, take, dest)[k] == s[OldIndex(take, dest, k)]
    {
      ReorderFrom(s, take, dest, k);
    }
    forall a, b | 0 <= a < |s| && 0 <= b < |s| && a != take && b != take
      ensures a < b <==> NewIndex(take, dest, a) < NewIndex(take, dest, b)
    {
      ReorderOrder(take, dest, a, b);
    }
  }

  /** Reordering is a permutation. */
  lemma ReorderPermutation<T>(s: seq<T>, take: nat, dest: nat)
    requires take < |s| && dest < |s|
    ensures multiset(Reorder(s, take, dest)) == multiset(s)
  {
    RemoveMultiset(s, take);
    InsertMultiset(Remove(s, take), dest, s[take]);
  }

  /** Moving the element back from `dest` to `take` undoes the move. */
  lemma ReorderInverse<T>(s: seq<T>, take: nat, dest: nat)
    requires take < |s| && dest < |s|
    ensures Reorder(Reorder(s, take, dest), dest, take) == s
  {
    var r := Reorder(s, take, dest);
    InsertRemoveInverse(Remove(s, take), dest, s[take]);
    assert Remove(r, dest) == Remove(s, take);
    InsertRemoveInverse(s, take, s[take]);
  }

  /**
   * The menu drops a dragged element into a slot p between elements; a
   * slot below the dragged element keeps its index, one above it loses
   * the element's own place.
   */
  function SlotDest(take: nat, p: nat): nat
  {
    if p > take then p - 1 else p
  }

  /** Exactly the elements that were before the slot end up before the moved element. */
  lemma SlotOrder(take: nat, p: nat, len: nat, a: nat)
    requires take < len && p <= len && p != take && a < len && a != take
    ensures SlotDest(take, p) < len
    ensures a < p <==> NewIndex(take, SlotDest(take, p), a) < SlotDest(take, p)
  {
  }
}
