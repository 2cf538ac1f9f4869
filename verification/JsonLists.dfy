/**
 The sibling list of an object as utility/cjson/cJSON.c changes it: cJSON_GetObjectItem,
 cJSON_DetachItemViaPointer and cJSON_AddItemToArray, detaching after a sort, and the loop of
 cJSONUtils_MergePatch on such a list.
 */
module JsonLists {
  import opened JsonText
  import opened JsonMerge
  import opened JsonOrder
  import opened JsonSort
  import opened JsonUtils

  // ----- detaching a node

  /** The nodes without the k-th. */
  function WithoutNode(nodes: seq<Node>, k: nat): seq<Node>
    requires k < |nodes|
  {
    nodes[..k] + nodes[k + 1..]
  }

  /** Is the back link of the k-th node one that detaching it can trust?  That of the first
      node must not lead to another node of the list. */
  predicate Detachable(nodes: seq<Node>, k: nat)
    requires k < |nodes|
    reads nodes[k]
  {
    k > 0 || nodes[k].prev == null || nodes[k].prev == nodes[k]
  }

  /** cJSON_DetachItemViaPointer for the k-th node of the list child. */
  method Detach(child: Node?, item: Node, ghost nodes: seq<Node>, ghost k: nat) returns (newChild: Node?)
    requires Linked(child, nodes) && k < |nodes| && nodes[k] == item
    requires item.prev == null || item.prev in nodes
    modifies nodes
    ensures item.next == null && item.prev == null
    ensures old(Detachable(nodes, k)) ==> Linked(newChild, WithoutNode(nodes, k))
    ensures old(Detachable(nodes, k)) && newChild != null ==> newChild.prev == old(nodes[0].prev)
    ensures !old(Detachable(nodes, k)) ==> forall chain :: !Linked(newChild, chain)
  {
    ghost var rest := WithoutNode(nodes, k);
    NextOf(nodes, k);
    if k > 0 {
      assert LinkAt(nodes, k - 1);
    }
    if item.prev != null {
      item.prev.next := item.next;
    }
    if item.next != null {
      item.next.prev := item.prev;
    }
    newChild := child;
    if item == child {
      newChild := item.next;
    }
    item.prev, item.next := null, null;
    if old(Detachable(nodes, k)) {
      forall i | 0 <= i < |rest| - 1
        ensures LinkAt(rest, i)
      {
        assert old(LinkAt(nodes, if i < k then i else i + 1));
        if i + 1 == k {
          assert old(LinkAt(nodes, k));
        }
      }
    } else {
      ghost var j :| 0 <= j < |nodes| && nodes[j] == old(item.prev);
      forall i | 1 <= i < j
        ensures NextAt(nodes, i)
      {
        assert old(LinkAt(nodes, i));
      }
      Endless(nodes, j);
    }
  }

  predicate NextAt(nodes: seq<Node>, i: nat)
    requires i + 1 < |nodes|
    reads nodes
  {
    nodes[i].next == nodes[i + 1]
  }

  /** Links that lead from the second node round to it again are no list. */
  lemma Endless(nodes: seq<Node>, j: nat)
    requires 1 <= j < |nodes| && nodes[j].next == nodes[1] && forall i :: 1 <= i < j ==> NextAt(nodes, i)
    ensures forall chain :: !Linked(nodes[1], chain)
  {
    forall chain
      ensures !Linked(nodes[1], chain)
    {
      if Linked(nodes[1], chain) {
        Retraced(nodes, j, chain, j - 1);
        NextOf(chain, j - 1);
      }
    }
  }

  lemma {:induction false} Retraced(nodes: seq<Node>, j: nat, chain: seq<Node>, i: nat)
    requires i < j < |nodes| && Linked(nodes[1], chain) && forall i :: 1 <= i < j ==> NextAt(nodes, i)
    ensures i < |chain| && chain[i] == nodes[1 + i]
  {
    if i > 0 {
      Retraced(nodes, j, chain, i - 1);
      assert NextAt(nodes, i);
      if i < |chain| {
        assert LinkAt(chain, i - 1);
      }
    }
  }

  /** Detaching from a list that has just been sorted.  It goes wrong exactly for the new
      first node, if that was not the first one before. */
  method SortThenDetach(list: Node, item: Node, ghost nodes: seq<Node>)
    returns (sorted: Node?, child: Node?, ghost order: seq<Node>, ghost k: nat)
    requires Linked(list, nodes) && list.prev == null && item in nodes
    modifies nodes
    ensures ChainOf(order) == Sort(ChainOf(nodes)) && multiset(order) == multiset(nodes) && sorted == Head(order)
    ensures k < |order| && order[k] == item
    ensures item != sorted || sorted == list ==> Linked(child, WithoutNode(order, k))
    ensures item == sorted && sorted != list ==> forall chain :: !Linked(child, chain)
  {
    hide Sort, ChainOf, Ascending;
    sorted, order := SortList(list, nodes);
    SameNodes(order, nodes);
    k :| k < |order| && order[k] == item;
    if k > 0 {
      assert LinkAt(order, k - 1);
    } else if item != list {
      ghost var m: nat :| m < |nodes| && nodes[m] == item;
      assert old(LinkAt(nodes, m - 1));
    }
    child := Detach(sorted, item, order, k);
  }

  // ----- what the operations mean for the members

  lemma {:induction false} FoundChain(nodes: seq<Node>, k: nat, key: string)
    requires k <= |nodes| && forall i :: 0 <= i < k ==> Fold(nodes[i].name) != key
    requires k < |nodes| ==> Fold(nodes[k].name) == key
    ensures k == |nodes| ==> Find(ChainOf(nodes), key).None? && Without(ChainOf(nodes), key) == ChainOf(nodes)
    ensures k < |nodes| ==> Find(ChainOf(nodes), key) == Some(nodes[k].value)
    ensures k < |nodes| ==> Without(ChainOf(nodes), key) == ChainOf(WithoutNode(nodes, k))
  {
    hide Fold;
    if nodes != [] {
      var rest := nodes[1..];
      if k > 0 {
        FoundChain(rest, k - 1, key);
        if k < |nodes| {
          assert WithoutNode(nodes, k) == [nodes[0]] + WithoutNode(rest, k - 1);
          assert WithoutNode(nodes, k)[1..] == WithoutNode(rest, k - 1);
        }
      } else {
        assert WithoutNode(nodes, 0) == rest;
      }
    }
  }

  lemma {:induction false} AddedChain(nodes: seq<Node>, item: Node)
    ensures ChainOf(nodes + [item]) == AppendMember(ChainOf(nodes), item.name, item.value)
  {
    if nodes == [] {
      assert nodes + [item] == [item];
    } else {
      assert (nodes + [item])[1..] == nodes[1..] + [item];
      AddedChain(nodes[1..], item);
    }
  }

  /** An object and its list of members. */
  class Parent {
    var child: Node?
    ghost var nodes: seq<Node>

    /** A well-linked list whose first node has no back link. */
    ghost predicate Valid()
      reads this, nodes
    {
      Linked(child, nodes) && (nodes != [] ==> nodes[0].prev == null)
    }

    constructor ()
      ensures Valid() && nodes == []
    {
      child, nodes := null, [];
    }

    /** cJSON_GetObjectItem. */
    method Get(name: string) returns (item: Node?, ghost k: nat)
      requires Valid()
      ensures k <= |nodes| && item == (if k < |nodes| then nodes[k] else null)
      ensures forall i :: 0 <= i < k ==> Fold(nodes[i].name) != Fold(name)
      ensures k < |nodes| ==> Fold(nodes[k].name) == Fold(name)
    {
      hide Fold;
      item, k := child, 0;
      while item != null && Fold(item.name) != Fold(name)
        invariant k <= |nodes| && item == Head(nodes[k..])
        invariant forall i :: 0 <= i < k ==> Fold(nodes[i].name) != Fold(name)
        decreases |nodes| - k
      {
        NextOf(nodes, k);
        item, k := item.next, k + 1;
      }
    }

    /** cJSON_DetachItemFromObject: what is detached is off the list. */
    method Remove(name: string) returns (item: Node?)
      requires Valid()
      modifies this, nodes
      ensures Valid() && (forall i :: 0 <= i < |nodes| ==> nodes[i] in old(nodes))
      ensures ChainOf(nodes) == Without(ChainOf(old(nodes)), Fold(name))
      ensures Find(ChainOf(old(nodes)), Fold(name)) == (if item == null then None else Some(item.value))
      ensures item != null ==> item !in nodes && item.next == null && item.prev == null
    {
      hide ChainOf, Fold, Find, Without;
      ghost var k;
      item, k := Get(name);
      FoundChain(nodes, k, Fold(name));
      if item != null {
        if k > 0 {
          assert LinkAt(nodes, k - 1);
        }
        child := Detach(child, item, nodes, k);
        nodes := WithoutNode(nodes, k);
      }
    }

    /** The walk to the end of the list. */
    method Last() returns (last: Node)
      requires Valid() && child != null
      ensures nodes != [] && last == nodes[|nodes| - 1]
    {
      last := child;
      ghost var k := 0;
      while last.next != null
        invariant 0 <= k < |nodes| && last == nodes[k]
        decreases |nodes| - k
      {
        NextOf(nodes, k);
        last, k := last.next, k + 1;
      }
      NextOf(nodes, k);
    }

    /** cJSON_AddItemToArray for a node that is not on the list. */
    method Add(item: Node)
      requires Valid() && item !in nodes && item.next == null && item.prev == null
      modifies this, nodes, item
      ensures Valid() && nodes == old(nodes) + [item]
    {
      if child == null {
        child, nodes := item, [item];
        return;
      }
      var last := Last();
      Link(last, item);
    }

    /** Puts a node behind the last one, or first on an empty list. */
    method Link(last: Node?, item: Node)
      requires Valid() && item !in nodes && item.next == null && item.prev == null
      requires last == if nodes == [] then null else nodes[|nodes| - 1]
      modifies this, last, item
      ensures Valid() && nodes == old(nodes) + [item]
    {
      if last == null {
        child, nodes := item, [item];
        return;
      }
      last.next := item;
      item.prev := last;
      forall i | 0 <= i < |nodes| - 1
        ensures LinkAt(nodes, i)
      {
        assert old(LinkAt(nodes, i));
      }
      LinksJoin(nodes, [item]);
      nodes := nodes + [item];
    }

    /** The loop of cJSONUtils_MergePatch over the members of a patch. */
    method Merge(patch: Members)
      requires Valid()
      modifies this, nodes
      ensures Valid() && ChainOf(nodes) == MergeMembers(ChainOf(old(nodes)), patch)
      ensures forall i :: 0 <= i < |nodes| ==> nodes[i] in old(nodes) || fresh(nodes[i])
    {
      hide ChainOf, Fold, Find, Without, MergePatch, Linked;
      ghost var all := MergeMembers(ChainOf(nodes), patch);
      var current := patch;
      while current.Member?
        invariant Valid() && MergeMembers(ChainOf(nodes), current) == all
        invariant forall i :: 0 <= i < |nodes| ==> nodes[i] in old(nodes) || fresh(nodes[i])
        decreases current
      {
        ghost var before := ChainOf(nodes);
        var replaceme := Remove(current.name);
        if !current.value.Null? {
          var merged := RunMergePatch(if replaceme == null then None else Some(replaceme.value), current.value);
          var item := new Node(current.name, merged);
          AddedChain(nodes, item);
          Add(item);
        }
        current := current.rest;
      }
    }
  }

  /** The loop of cJSON_Duplicate over the members of an object, whatever the back link of
      the first one is. */
  method Duplicate(list: Node?, ghost nodes: seq<Node>) returns (copy: Parent)
    requires Linked(list, nodes)
    ensures fresh(copy) && copy.Valid() && ChainOf(copy.nodes) == ChainOf(nodes)
    ensures forall i :: 0 <= i < |copy.nodes| ==> fresh(copy.nodes[i])
  {
    hide ChainOf;
    copy := new Parent();
    var child, last: Node? := list, null;
    ghost var k := 0;
    assert nodes[..0] == [];
    while child != null
      invariant 0 <= k <= |nodes| && child == Head(nodes[k..])
      invariant fresh(copy) && copy.Valid() && forall i :: 0 <= i < |copy.nodes| ==> fresh(copy.nodes[i])
      invariant last == if copy.nodes == [] then null else copy.nodes[|copy.nodes| - 1]
      invariant ChainOf(copy.nodes) == ChainOf(nodes[..k])
      decreases |nodes| - k
    {
      NextOf(nodes, k);
      var newchild := new Node(child.name, child.value);
      AddedChain(copy.nodes, newchild);
      AddedChain(nodes[..k], nodes[k]);
      assert nodes[..k] + [nodes[k]] == nodes[..k + 1];
      copy.Link(last, newchild);
      last, child, k := newchild, child.next, k + 1;
    }
    assert nodes[..k] == nodes;
  }
}
