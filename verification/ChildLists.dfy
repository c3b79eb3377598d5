/**
 The operations that edit a child list in place, against the sequence of its nodes.
 */
module ChildLists {
  import opened CStrings
  import opened Json
  import opened Sorting
  import opened LinkedItems

  /** An array or object item: the head pointer, and the nodes it leads to. */
  class ChildList {
    var child: Node?
    ghost var nodes: seq<Node>

    /** Linked both ways, with nothing in front of the head. */
    ghost predicate Valid()
      reads this, Nodes(nodes)
    {
      Chain(child, nodes) && (child != null ==> child.prev == null)
    }

    /** Linked forwards and between neighbours, whatever the head's `prev` says. */
    ghost predicate Readable()
      reads this, Nodes(nodes)
    {
      Chain(child, nodes)
    }

    constructor ()
      ensures Valid() && nodes == []
    {
      child, nodes := null, [];
    }

    /** get_array_item */
    method GetItem(index: nat) returns (item: Node?)
      requires Readable()
      ensures item == At(nodes, index)
    {
      item := child;
      var left := index;
      while item != null && left > 0
        invariant 0 <= left <= index && item == At(nodes, index - left)
        decreases left
      {
        left := left - 1;
        item := item.next;
      }
      assert item == null ==> index - left >= |nodes|;
    }

    /** add_item_to_array: walks to the last node and links the new one behind it. */
    method Add(item: Node)
      requires Valid() && item !in nodes && item.next == null && item.prev == null
      modifies this, Nodes(nodes), item
      ensures Valid() && nodes == old(nodes) + [item]
    {
      if child == null {
        child := item;
      } else {
        var last := FindLast();
        last.next := item;
        item.prev := last;
      }
      nodes := nodes + [item];
    }

    method FindLast() returns (last: Node)
      requires Valid() && child != null
      ensures last == nodes[|nodes| - 1]
    {
      last := child;
      ghost var i := 0;
      while last.next != null
        invariant 0 <= i < |nodes| && last == nodes[i]
        decreases |nodes| - i
      {
        last := last.next;
        i := i + 1;
      }
    }

    /** cJSON_DetachItemViaPointer */
    method Detach(item: Node, ghost i: nat)
      requires Valid() && i < |nodes| && item == nodes[i]
      modifies this, Nodes(nodes)
      ensures Valid() && nodes == old(nodes)[..i] + old(nodes)[i + 1..]
      ensures item.next == null && item.prev == null
    {
      ghost var ns := nodes;
      assert item in Nodes(ns) && (i > 0 ==> ns[i - 1] in Nodes(ns)) && (i + 1 < |ns| ==> ns[i + 1] in Nodes(ns));
      if item.prev != null {
        item.prev.next := item.next;
      }
      if item.next != null {
        item.next.prev := item.prev;
      }
      if item == child {
        child := item.next;
      }
      item.prev := null;
      item.next := null;
      nodes := ns[..i] + ns[i + 1..];
      RemovedNode(ns, nodes, i);
    }

    /** The linking at the end of insert_item_in_array and cJSON_InsertItemInArray, for an index inside the list. */
    method InsertBefore(item: Node, after: Node, ghost i: nat)
      requires Valid() && i < |nodes| && after == nodes[i]
      requires item !in nodes && item.next == null && item.prev == null
      modifies this, Nodes(nodes), item
      ensures Valid() && nodes == old(nodes)[..i] + [item] + old(nodes)[i..]
    {
      ghost var ns := nodes;
      assert after in Nodes(ns) && (i > 0 ==> ns[i - 1] in Nodes(ns));
      item.next := after;
      item.prev := after.prev;
      after.prev := item;
      if after == child {
        child := item;
      } else {
        item.prev.next := item;
      }
      nodes := ns[..i] + [item] + ns[i..];
    }

    /** cJSON_InsertItemInArray: an index behind the end appends, a negative one does nothing. */
    method Insert(which: int, item: Node)
      requires Valid() && item !in nodes && item.next == null && item.prev == null
      modifies this, Nodes(nodes), item
      ensures Valid()
      ensures nodes == if which < 0 then old(nodes)
                       else if which >= |old(nodes)| then old(nodes) + [item]
                       else old(nodes)[..which] + [item] + old(nodes)[which..]
    {
      if which < 0 {
        return;
      }
      var after := GetItem(which);
      if after == null {
        Add(item);
      } else {
        InsertBefore(item, after, which);
      }
    }

    /** insert_item_in_array: the end of the list appends, an index behind it is refused. */
    method InsertAt(which: nat, item: Node) returns (inserted: bool)
      requires Valid() && item !in nodes && item.next == null && item.prev == null
      modifies this, Nodes(nodes), item
      ensures Valid() && (inserted <==> which <= |old(nodes)|)
      ensures nodes == if which <= |old(nodes)| then old(nodes)[..which] + [item] + old(nodes)[which..] else old(nodes)
    {
      var after, left := child, which;
      while after != null && left > 0
        invariant 0 <= left <= which && which - left <= |nodes| && after == At(nodes, which - left)
        decreases left
      {
        after := after.next;
        left := left - 1;
      }
      if left > 0 {
        return false;
      }
      if after == null {
        assert nodes[..which] == nodes && nodes[which..] == [];
        Add(item);
      } else {
        InsertBefore(item, after, which);
      }
      return true;
    }

    /** cJSON_ReplaceItemViaPointer, with a node of its own or with the very item, which changes nothing. */
    method Replace(item: Node, replacement: Node, ghost i: nat)
      requires Valid() && i < |nodes| && item == nodes[i] && (replacement !in nodes || replacement == item)
      modifies this, Nodes(nodes), replacement
      ensures Valid() && nodes == old(nodes)[i := replacement]
      ensures replacement != item ==> item.next == null && item.prev == null
    {
      if replacement == item {
        return;
      }
      ghost var ns := nodes;
      assert item in Nodes(ns) && (i > 0 ==> ns[i - 1] in Nodes(ns)) && (i + 1 < |ns| ==> ns[i + 1] in Nodes(ns));
      replacement.next := item.next;
      replacement.prev := item.prev;
      if replacement.next != null {
        replacement.next.prev := replacement;
      }
      if replacement.prev != null {
        replacement.prev.next := replacement;
      }
      if child == item {
        child := replacement;
      }
      item.next := null;
      item.prev := null;
      nodes := ns[i := replacement];
    }

    /**
     sort_object: the members come out in sort_list's order, but the list is fit for further
     editing exactly when the head stays in front, because no head's `prev` is ever written.
     */
    method Sort(cs: bool)
      requires Valid()
      modifies this, Nodes(nodes)
      ensures Readable() && multiset(nodes) == multiset(old(nodes))
      ensures Items(nodes) == SortMembers(Items(old(nodes)), cs)
      ensures Valid() <==> HeadStays(Items(old(nodes)), cs)
    {
      child, nodes := SortFromHead(child, cs, nodes);
      assert Readable();
    }

    /**
     cJSONUtils_SortObject: fit for further editing exactly if every other name came strictly behind the first one.
     */
    method SortObject()
      requires Valid()
      modifies this, Nodes(nodes)
      ensures Readable() && multiset(nodes) == multiset(old(nodes))
      ensures Items(nodes) == SortMembers(Items(old(nodes)), false)
      ensures Valid() <==> HeadLeads(Items(old(nodes)))
    {
      HeadStaysIff(Items(nodes));
      Sort(false);
    }
  }

  /** sort_list on a list with nothing in front of its head. */
  method SortFromHead(list: Node?, cs: bool, ghost ns: seq<Node>) returns (result: Node?, ghost sorted: seq<Node>)
    requires Chain(list, ns) && (list != null ==> list.prev == null)
    modifies Nodes(ns)
    ensures Chain(result, sorted) && multiset(sorted) == multiset(ns)
    ensures Items(sorted) == SortMembers(Items(ns), cs)
    ensures result != null ==> (result.prev == null <==> HeadStays(Items(ns), cs))
    ensures result == null ==> list == null
  {
    assert forall k {:trigger ns[k]} :: 0 <= k < |ns| ==> (ns[k].prev == null <==> k == 0);
    result, sorted := SortList(list, cs, ns);
    if result != null {
      ghost var k := HeadIndex(Items(ns), cs);
      assert old(ns[k].prev) == null <==> k == 0;
    } else {
      assert |multiset(sorted)| == |multiset(ns)|;
    }
  }

  lemma RemovedNode(ns: seq<Node>, rs: seq<Node>, i: nat)
    requires i < |ns| && rs == ns[..i] + ns[i + 1..] && Injective(ns)
    ensures Injective(rs) && ns[i] !in rs
  {
    assert forall k :: 0 <= k < |rs| ==> rs[k] == ns[if k < i then k else k + 1];
  }
}
