/**
 cJSONUtils_SortList of utility/cjson/cJSON_Utils.c: a merge sort that relinks the nodes of
 a sibling list.
 */
module JsonSort {
  import opened JsonText
  import opened JsonMerge
  import opened JsonOrder

  class Node {
    const name: string
    const value: Json
    var next: Node?
    var prev: Node?

    constructor (name: string, value: Json)
      ensures this.name == name && this.value == value && next == null && prev == null
    {
      this.name, this.value := name, value;
      next, prev := null, null;
    }
  }

  // ----- sequences of nodes

  ghost predicate NoRepeats(nodes: seq<Node>) {
    forall i, j :: 0 <= i < j < |nodes| ==> nodes[i] != nodes[j]
  }

  ghost predicate Within(nodes: seq<Node>, a: seq<Node>, b: seq<Node>) {
    forall i :: 0 <= i < |nodes| ==> nodes[i] in a || nodes[i] in b
  }

  ghost predicate Apart(a: seq<Node>, b: seq<Node>) {
    forall i, j :: 0 <= i < |a| && 0 <= j < |b| ==> a[i] != b[j]
  }

  /** strcasecmp(a, b) <= 0. */
  predicate NotAfter(a: Node, b: Node) {
    !Before(b.name, a.name)
  }

  ghost predicate Ascending(nodes: seq<Node>) {
    forall i :: 0 <= i < |nodes| - 1 ==> InOrder(nodes, i)
  }

  predicate InOrder(nodes: seq<Node>, i: nat)
    requires i + 1 < |nodes|
  {
    NotAfter(nodes[i], nodes[i + 1])
  }

  lemma BeforeIsNotAfter(a: Node, b: Node)
    requires Before(a.name, b.name)
    ensures NotAfter(a, b)
  {
    if Before(b.name, a.name) {
      LessTransitive(Fold(a.name), Fold(b.name), Fold(a.name));
      LessIrreflexive(Fold(a.name));
    }
  }

  lemma NotAfterTransitive(a: Node, b: Node, c: Node)
    requires NotAfter(a, b) && NotAfter(b, c)
    ensures NotAfter(a, c)
  {
    if Before(c.name, a.name) {
      LessTotal(Fold(b.name), Fold(c.name));
      if Fold(b.name) != Fold(c.name) {
        LessTransitive(Fold(b.name), Fold(c.name), Fold(a.name));
      }
    }
  }

  /** In an ascending sequence every earlier name is not after every later one. */
  lemma {:induction false} AscendingAll(nodes: seq<Node>, i: nat, j: nat)
    requires Ascending(nodes) && i < j < |nodes|
    ensures NotAfter(nodes[i], nodes[j])
    decreases j - i
  {
    hide NotAfter;
    assert InOrder(nodes, i);
    if i + 1 < j {
      AscendingAll(nodes, i + 1, j);
      NotAfterTransitive(nodes[i], nodes[i + 1], nodes[j]);
    }
  }

  /** The head of one list moves behind what has been merged. */
  lemma AscendingTake(done: seq<Node>, from: seq<Node>, other: seq<Node>)
    requires from != [] && Ascending(done + from) && Ascending(done + other)
    requires other != [] ==> NotAfter(from[0], other[0])
    ensures Ascending(done + [from[0]] + from[1..]) && Ascending(done + [from[0]] + other)
  {
    assert done + [from[0]] + from[1..] == done + from;
    var all, n := done + [from[0]] + other, |done|;
    forall i | 0 <= i < |all| - 1
      ensures InOrder(all, i)
    {
      if i + 1 < n {
        assert InOrder(done + other, i) && all[i] == done[i] && all[i + 1] == done[i + 1];
      } else if i + 1 == n {
        assert InOrder(done + from, i) && all[i] == done[i] && all[i + 1] == from[0];
      } else if i == n {
        assert all[i] == from[0] && all[i + 1] == other[0];
      } else {
        assert InOrder(done + other, i - 1) && all[i] == (done + other)[i - 1] && all[i + 1] == (done + other)[i];
      }
    }
  }

  // ----- the members that nodes stand for

  function ChainOf(nodes: seq<Node>): Members {
    if nodes == [] then NoMembers else Member(nodes[0].name, nodes[0].value, ChainOf(nodes[1..]))
  }

  lemma {:induction false} ChainJoins(a: seq<Node>, b: seq<Node>)
    ensures ChainOf(a + b) == JoinMembers(ChainOf(a), ChainOf(b))
  {
    if a == [] {
      assert a + b == b;
    } else {
      assert (a + b)[1..] == a[1..] + b;
      ChainJoins(a[1..], b);
    }
  }

  lemma {:induction false} ChainSplits(nodes: seq<Node>, n: nat)
    requires n <= |nodes|
    ensures Length(ChainOf(nodes)) == |nodes|
    ensures Take(ChainOf(nodes), n) == ChainOf(nodes[..n]) && Drop(ChainOf(nodes), n) == ChainOf(nodes[n..])
  {
    if nodes != [] {
      var rest := nodes[1..];
      ChainSplits(rest, if n == 0 then 0 else n - 1);
      if n == 0 {
        assert nodes[0..] == nodes;
      } else {
        assert nodes[..n][1..] == rest[..n - 1] && nodes[n..] == rest[n - 1..];
      }
    }
  }

  lemma {:induction false} ChainSorted(nodes: seq<Node>, n: nat)
    requires n <= |nodes| && forall i :: 0 <= i < n - 1 ==> Strict(nodes, i)
    ensures n == |nodes| ==> Sorted(ChainOf(nodes))
    ensures n < |nodes| && n > 0 && !Strict(nodes, n - 1) ==> !Sorted(ChainOf(nodes))
  {
    if n > 1 {
      assert Strict(nodes, 0);
      forall i | 0 <= i < n - 2
        ensures Strict(nodes[1..], i)
      {
        assert Strict(nodes, i + 1);
      }
      ChainSorted(nodes[1..], n - 1);
      assert ChainOf(nodes).rest == ChainOf(nodes[1..]);
    }
  }

  predicate Strict(nodes: seq<Node>, i: nat)
    requires i + 1 < |nodes|
  {
    Before(nodes[i].name, nodes[i + 1].name)
  }

  // ----- linked nodes

  function Head(nodes: seq<Node>): Node? {
    if nodes == [] then null else nodes[0]
  }

  ghost predicate LinkAt(nodes: seq<Node>, i: nat)
    requires i + 1 < |nodes|
    reads nodes
  {
    nodes[i].next == nodes[i + 1] && nodes[i + 1].prev == nodes[i]
  }

  /** Each node points to the next one and back. */
  ghost predicate Links(nodes: seq<Node>)
    reads nodes
  {
    NoRepeats(nodes) && forall i :: 0 <= i < |nodes| - 1 ==> LinkAt(nodes, i)
  }

  /** list is a forward chain of nodes, with back links inside it. */
  ghost predicate Linked(list: Node?, nodes: seq<Node>)
    reads nodes
  {
    && list == Head(nodes)
    && Links(nodes)
    && (nodes != [] ==> nodes[|nodes| - 1].next == null)
  }

  lemma NextOf(nodes: seq<Node>, i: nat)
    requires Linked(Head(nodes), nodes) && i < |nodes|
    ensures nodes[i].next == Head(nodes[i + 1..])
  {
    if i + 1 < |nodes| {
      assert LinkAt(nodes, i);
    }
  }

  lemma LinksSlice(nodes: seq<Node>, a: nat, b: nat)
    requires Links(nodes) && a <= b <= |nodes|
    ensures Links(nodes[a..b])
  {
    forall i | 0 <= i < b - a - 1
      ensures LinkAt(nodes[a..b], i)
    {
      assert LinkAt(nodes, a + i);
    }
  }

  lemma LinksJoin(a: seq<Node>, b: seq<Node>)
    requires Links(a) && Links(b) && Apart(a, b)
    requires a != [] && b != [] ==> a[|a| - 1].next == b[0] && b[0].prev == a[|a| - 1]
    ensures Links(a + b)
  {
    var all := a + b;
    forall i, j | 0 <= i < j < |all|
      ensures all[i] != all[j]
    {
      if i < |a| <= j {
        assert all[i] in a && all[j] in b;
      }
    }
    forall i | 0 <= i < |all| - 1
      ensures LinkAt(all, i)
    {
      if i + 1 < |a| {
        assert LinkAt(a, i);
      } else if i >= |a| {
        assert LinkAt(b, i - |a|);
      }
    }
  }

  // ----- the parts of the sort

  /** The loop that looks for a pair out of strict order. */
  method IsStrictlySorted(list: Node?, ghost nodes: seq<Node>) returns (sorted: bool)
    requires Linked(list, nodes)
    ensures sorted <==> Sorted(ChainOf(nodes))
    ensures sorted ==> Ascending(nodes)
    ensures !sorted ==> |nodes| >= 2
  {
    hide Before, Sorted, ChainOf, NotAfter;
    var ptr := list;
    ghost var i := 0;
    while ptr != null && ptr.next != null && Before(ptr.name, ptr.next.name)
      invariant 0 <= i <= |nodes| && ptr == Head(nodes[i..])
      invariant forall k :: 0 <= k < i && k + 1 < |nodes| ==> Strict(nodes, k)
      decreases |nodes| - i
    {
      NextOf(nodes, i);
      ptr := ptr.next;
      i := i + 1;
    }
    if i < |nodes| {
      NextOf(nodes, i);
    }
    sorted := ptr == null || ptr.next == null;
    ChainSorted(nodes, if sorted then |nodes| else i + 1);
    forall k | sorted && 0 <= k < |nodes| - 1
      ensures InOrder(nodes, k)
    {
      assert Strict(nodes, k);
      BeforeIsNotAfter(nodes[k], nodes[k + 1]);
    }
  }

  /** The loop that walks two pointers to find the middle. */
  method Middle(list: Node?, ghost nodes: seq<Node>) returns (second: Node?, ghost half: nat)
    requires Linked(list, nodes) && |nodes| >= 2
    ensures half == (|nodes| + 1) / 2 && second == Head(nodes[half..])
  {
    second := list;
    var ptr := list;
    half := 0;
    while ptr != null
      invariant 2 * half <= |nodes| + 1
      invariant half <= |nodes| && second == Head(nodes[half..])
      invariant ptr == if 2 * half < |nodes| then nodes[2 * half] else null
      decreases |nodes| + 2 - 2 * half
    {
      NextOf(nodes, half);
      NextOf(nodes, 2 * half);
      second := second.next;
      ptr := ptr.next;
      if ptr != null {
        NextOf(nodes, 2 * half + 1);
        ptr := ptr.next;
      }
      half := half + 1;
    }
  }

  /** Cuts the list in front of second. */
  method Split(list: Node?, second: Node?, ghost nodes: seq<Node>, ghost half: nat)
    requires Linked(list, nodes) && 0 < half < |nodes| && second == Head(nodes[half..])
    modifies nodes[half - 1]
    ensures Linked(list, nodes[..half]) && Linked(second, nodes[half..])
    ensures nodes[half - 1].prev == old(nodes[half - 1].prev)
  {
    assert LinkAt(nodes, half - 1);
    LinksSlice(nodes, 0, half);
    LinksSlice(nodes, half, |nodes|);
    assert nodes[0..half] == nodes[..half] && nodes[half..|nodes|] == nodes[half..];
    ghost var a, b := nodes[..half], nodes[half..];
    assert second.prev == nodes[half - 1];
    assert forall k :: 0 <= k < |b| ==> b[k] == nodes[half + k];
    if second != null && second.prev != null {
      second.prev.next := null;
    }
    forall i | 0 <= i < |a| - 1
      ensures LinkAt(a, i)
    {
      assert old(LinkAt(nodes[..half], i)) && a[i] != a[|a| - 1];
    }
  }

  /** Links the head of from behind what has been merged. */
  method Attach(list: Node?, ptr: Node?, first: Node,
                ghost done: seq<Node>, ghost from: seq<Node>, ghost other: seq<Node>)
    returns (newList: Node, newPtr: Node)
    requires Linked(first, from) && Links(done) && Linked(Head(other), other)
    requires Apart(done, from) && Apart(done, other) && Apart(from, other)
    requires list == Head(done) && (done != [] ==> ptr == done[|done| - 1])
    modifies done, first
    ensures newList == (done + [first])[0] && newPtr == first
    ensures Links(done + [first]) && Linked(first.next, from[1..]) && Linked(Head(other), other)
    ensures Apart(done + [first], from[1..]) && Apart(done + [first], other) && Apart(from[1..], other)
    ensures newList.prev == old(newList.prev)
  {
    NextOf(from, 0);
    LinksSlice(from, 1, |from|);
    assert from[1..|from|] == from[1..];
    ghost var rest := from[1..];
    assert forall k :: 0 <= k < |rest| ==> rest[k] == from[k + 1];
    assert first in from && first !in rest && first !in done && first !in other;
    assert Linked(first.next, rest);
    assert forall x :: x in rest ==> x in from;
    if done != [] {
      assert ptr in done && ptr !in from && ptr !in other;
    }
    if list == null {
      newList := first;
    } else {
      ptr.next := first;
      first.prev := ptr;
      newList := list;
    }
    newPtr := first;
    forall i | 0 <= i < |done| - 1
      ensures LinkAt(done, i)
    {
      assert old(LinkAt(done, i));
      assert done[i] in done && done[i + 1] in done && done[i] != done[|done| - 1];
    }
    LinksJoin(done, [first]);
  }

  /** Appends the rest of one list to what has been merged. */
  method Finish(list: Node?, ptr: Node?, rest: Node?, ghost done: seq<Node>, ghost nodes: seq<Node>) returns (all: Node?)
    requires Linked(rest, nodes) && Links(done) && Apart(done, nodes) && nodes != []
    requires list == Head(done) && (done != [] ==> ptr == done[|done| - 1])
    modifies done, nodes
    ensures Linked(all, done + nodes)
    ensures all == (if done == [] then rest else list) && all != null && all.prev == old(all.prev)
  {
    if list == null {
      assert done + nodes == nodes;
      return rest;
    }
    assert ptr in done && ptr !in nodes && rest == nodes[0] && rest in nodes && rest !in done;
    ptr.next := rest;
    rest.prev := ptr;
    forall i | 0 <= i < |done| - 1
      ensures LinkAt(done, i)
    {
      assert old(LinkAt(done, i));
      assert done[i] in done && done[i + 1] in done && done[i] != done[|done| - 1];
    }
    forall i | 0 <= i < |nodes| - 1
      ensures LinkAt(nodes, i)
    {
      assert old(LinkAt(nodes, i));
      assert nodes[i] in nodes && nodes[i + 1] in nodes && nodes[i + 1] != nodes[0];
    }
    LinksJoin(done, nodes);
    all := list;
  }

  /** What has been merged, and what merging the rest of the two lists will add to it. */
  ghost predicate Merging(done: seq<Node>, x: seq<Node>, y: seq<Node>, all: Members) {
    JoinMembers(ChainOf(done), Merge(ChainOf(x), ChainOf(y))) == all
  }

  lemma MergingStep(done: seq<Node>, x: seq<Node>, y: seq<Node>, all: Members)
    requires x != [] && y != [] && Merging(done, x, y, all)
    ensures Before(x[0].name, y[0].name) ==> Merging(done + [x[0]], x[1..], y, all)
    ensures !Before(x[0].name, y[0].name) ==> Merging(done + [y[0]], x, y[1..], all)
  {
    var first := Before(x[0].name, y[0].name);
    var n := if first then x[0] else y[0];
    var rest := if first then Merge(ChainOf(x[1..]), ChainOf(y)) else Merge(ChainOf(x), ChainOf(y[1..]));
    ChainJoins(done, [n]);
    assert ChainOf([n]) == Member(n.name, n.value, NoMembers);
    JoinAppendedMember(ChainOf(done), n.name, n.value, rest);
  }

  lemma MergingDone(done: seq<Node>, x: seq<Node>, y: seq<Node>, all: Members)
    requires Merging(done, x, y, all) && (x == [] || y == [])
    ensures y == [] ==> ChainOf(done + x) == all
    ensures x == [] ==> ChainOf(done + y) == all
  {
    ChainJoins(done, x);
    ChainJoins(done, y);
  }

  /** The loop that merges two sorted lists; on equal names the second goes first. */
  method MergeLists(first: Node?, second: Node?, ghost a: seq<Node>, ghost b: seq<Node>)
    returns (list: Node?, ghost order: seq<Node>)
    requires Linked(first, a) && Linked(second, b) && Apart(a, b) && Ascending(a) && Ascending(b)
    requires a != [] && b != []
    modifies a, b
    ensures Linked(list, order) && Ascending(order) && multiset(order) == multiset(a) + multiset(b)
    ensures ChainOf(order) == Merge(ChainOf(a), ChainOf(b))
    ensures (list == first || list == second) && list != null && list.prev == old(list.prev)
  {
    hide NotAfter, Links, Linked, Ascending, Apart, ChainOf, Merge, Before, Placed, Within;
    HeadOf(first, a);
    HeadOf(second, b);
    var f, s := first, second;
    var ptr: Node? := null;
    list := null;
    ghost var done: seq<Node>, x: seq<Node>, y: seq<Node> := [], a, b;
    NothingDone(a, b);
    while f != null && s != null
      invariant Linked(f, x) && Linked(s, y) && Links(done)
      invariant Apart(done, x) && Apart(done, y) && Apart(x, y)
      invariant list == Head(done) && (done != [] ==> ptr == done[|done| - 1])
      invariant list != null ==> (list == first || list == second) && list.prev == old(list.prev)
      invariant done == [] ==> x == a && y == b && f == first && s == second
      invariant done == [] ==> first.prev == old(first.prev) && second.prev == old(second.prev)
      invariant Placed(done, x, y, a, b) && (x != [] || y != [])
      invariant Within(done, a, b) && Within(x, a, b) && Within(y, a, b)
      decreases |x| + |y|
    {
      NotEmpty(f, x);
      NotEmpty(s, y);
      PlacedStep(done, x, y, a, b);
      WithinParts(done, x, y, a, b);
      if Before(f.name, s.name) {
        TakenWithin(done, x, a, b);
        list, ptr := Attach(list, ptr, f, done, x, y);
        done, x, f := done + [f], x[1..], f.next;
      } else {
        TakenWithin(done, y, a, b);
        Swapped(x, y);
        list, ptr := Attach(list, ptr, s, done, y, x);
        Swapped(y[1..], x);
        done, y, s := done + [s], y[1..], s.next;
      }
    }
    HeadOf(f, x);
    HeadOf(s, y);
    WithinParts(done, x, y, a, b);
    if f != null {
      NotEmpty(f, x);
      Empty(s, y);
      order := done + x;
      PlacedDone(done, x, y, a, b);
      list := Finish(list, ptr, f, done, x);
    } else {
      Empty(f, x);
      order := done + y;
      PlacedDone(done, x, y, a, b);
      list := Finish(list, ptr, s, done, y);
    }
  }

  /** The nodes of both lists are in what has been merged and in the two rests, in order. */
  ghost predicate Placed(done: seq<Node>, x: seq<Node>, y: seq<Node>, a: seq<Node>, b: seq<Node>) {
    && Ascending(done + x) && Ascending(done + y)
    && multiset(done) + multiset(x) + multiset(y) == multiset(a) + multiset(b)
    && Merging(done, x, y, Merge(ChainOf(a), ChainOf(b)))
  }

  lemma PlacedStep(done: seq<Node>, x: seq<Node>, y: seq<Node>, a: seq<Node>, b: seq<Node>)
    requires x != [] && y != [] && Placed(done, x, y, a, b)
    ensures Before(x[0].name, y[0].name) ==> Placed(done + [x[0]], x[1..], y, a, b)
    ensures !Before(x[0].name, y[0].name) ==> Placed(done + [y[0]], x, y[1..], a, b)
  {
    hide NotAfter, Ascending, ChainOf, Merge, Merging, Before;
    MergingStep(done, x, y, Merge(ChainOf(a), ChainOf(b)));
    if Before(x[0].name, y[0].name) {
      BeforeIsNotAfter(x[0], y[0]);
      AscendingTake(done, x, y);
      Taken(done, x);
    } else {
      NotBefore(y[0], x[0]);
      AscendingTake(done, y, x);
      Taken(done, y);
      Regroup(multiset(done), multiset(x), multiset(y), multiset(done + [y[0]]), multiset(y[1..]));
    }
  }

  lemma PlacedDone(done: seq<Node>, x: seq<Node>, y: seq<Node>, a: seq<Node>, b: seq<Node>)
    requires Placed(done, x, y, a, b) && (x == [] || y == [])
    ensures var order := if y == [] then done + x else done + y;
      && Ascending(order) && multiset(order) == multiset(a) + multiset(b)
      && ChainOf(order) == Merge(ChainOf(a), ChainOf(b))
  {
    hide Ascending, ChainOf, Merge;
    MergingDone(done, x, y, Merge(ChainOf(a), ChainOf(b)));
  }

  /** Every node of the three is one that the merge may change. */
  lemma WithinParts(done: seq<Node>, x: seq<Node>, y: seq<Node>, a: seq<Node>, b: seq<Node>)
    requires Within(done, a, b) && Within(x, a, b) && Within(y, a, b)
    ensures forall i :: 0 <= i < |done| ==> done[i] in a || done[i] in b
    ensures forall i :: 0 <= i < |x| ==> x[i] in a || x[i] in b
    ensures forall i :: 0 <= i < |y| ==> y[i] in a || y[i] in b
  {
  }

  lemma NothingDone(a: seq<Node>, b: seq<Node>)
    requires Ascending(a) && Ascending(b)
    ensures Links([]) && Apart([], a) && Apart([], b) && Placed([], a, b, a, b)
    ensures Within([], a, b) && Within(a, a, b) && Within(b, a, b)
  {
    assert [] + a == a && [] + b == b;
  }

  lemma HeadOf(list: Node?, nodes: seq<Node>)
    requires Linked(list, nodes)
    ensures list == Head(nodes)
  {
  }

  lemma NotEmpty(list: Node?, nodes: seq<Node>)
    requires Linked(list, nodes) && list != null
    ensures nodes != [] && list == nodes[0]
  {
  }

  lemma Empty(list: Node?, nodes: seq<Node>)
    requires Linked(list, nodes) && list == null
    ensures nodes == []
  {
  }

  lemma NotBefore(a: Node, b: Node)
    requires !Before(b.name, a.name)
    ensures NotAfter(a, b)
  {
  }

  lemma Swapped(a: seq<Node>, b: seq<Node>)
    requires Apart(a, b)
    ensures Apart(b, a)
  {
  }

  lemma Taken(done: seq<Node>, from: seq<Node>)
    requires from != []
    ensures multiset(done + [from[0]]) + multiset(from[1..]) == multiset(done) + multiset(from)
  {
    assert from == [from[0]] + from[1..];
  }

  lemma TakenWithin(done: seq<Node>, from: seq<Node>, a: seq<Node>, b: seq<Node>)
    requires from != [] && Within(done, a, b) && Within(from, a, b)
    ensures Within(done + [from[0]], a, b) && Within(from[1..], a, b)
  {
  }

  lemma Regroup(d: multiset<Node>, x: multiset<Node>, y: multiset<Node>, e: multiset<Node>, z: multiset<Node>)
    requires e + z == d + y
    ensures e + x + z == d + x + y
  {
    assert e + x + z == (e + z) + x;
    assert d + x + y == (d + y) + x;
  }

  /** Sorts the list by relinking its nodes.  The result is a forward chain of the same
      nodes in case-insensitive order with back links inside it; its first node keeps the
      back link it had. */
  method SortList(list: Node?, ghost nodes: seq<Node>) returns (sorted: Node?, ghost order: seq<Node>)
    requires Linked(list, nodes)
    modifies nodes
    ensures Linked(sorted, order) && Ascending(order) && multiset(order) == multiset(nodes)
    ensures ChainOf(order) == Sort(ChainOf(nodes))
    ensures sorted != null ==> sorted in nodes && sorted.prev == old(sorted.prev)
    decreases |nodes|, 1
  {
    hide Sort;
    if list == null || list.next == null {
      if list != null {
        NextOf(nodes, 0);
      }
      ShortSorted(nodes);
      return list, nodes;
    }
    var strict := IsStrictlySorted(list, nodes);
    if strict {
      SortedStays(ChainOf(nodes));
      return list, nodes;
    }
    sorted, order := SortHalves(list, nodes);
  }

  lemma SortedStays(members: Members)
    requires Sorted(members)
    ensures Sort(members) == members
  {
  }

  lemma ShortSorted(nodes: seq<Node>)
    requires |nodes| <= 1
    ensures Sort(ChainOf(nodes)) == ChainOf(nodes)
  {
    ChainSorted(nodes, |nodes|);
  }

  /** Splits the list, sorts the halves and merges them. */
  method SortHalves(list: Node?, ghost nodes: seq<Node>) returns (sorted: Node?, ghost order: seq<Node>)
    requires Linked(list, nodes) && |nodes| >= 2 && !Sorted(ChainOf(nodes))
    modifies nodes
    ensures Linked(sorted, order) && Ascending(order) && multiset(order) == multiset(nodes)
    ensures ChainOf(order) == Sort(ChainOf(nodes))
    ensures sorted != null ==> sorted in nodes && sorted.prev == old(sorted.prev)
    decreases |nodes|, 0
  {
    hide Linked, Ascending, NoRepeats, ChainOf, Merge, Sorted, Sort;
    var second, half := Middle(list, nodes);
    ghost var a, b := nodes[..half], nodes[half..];
    Halves(list, nodes, half);
    Split(list, second, nodes, half);
    var first;
    ghost var left, right;
    first, left := SortList(list, a);
    SameNodes(left, a);
    StillApart(a, b, left, b);
    HeadOf(first, left);
    second, right := SortList(second, b);
    SameNodes(right, b);
    StillApart(left, b, left, right);
    HeadOf(second, right);
    sorted, order := MergeLists(first, second, left, right);
    SortedHalves(nodes, half);
  }

  lemma SortedHalves(nodes: seq<Node>, half: nat)
    requires !Sorted(ChainOf(nodes)) && half == (|nodes| + 1) / 2 <= |nodes|
    ensures Sort(ChainOf(nodes)) == Merge(Sort(ChainOf(nodes[..half])), Sort(ChainOf(nodes[half..])))
  {
    hide Merge, Take, Drop, Sorted, Sort, ChainOf;
    ChainSplits(nodes, half);
    SortUnsorted(ChainOf(nodes));
  }

  lemma StillApart(a: seq<Node>, b: seq<Node>, left: seq<Node>, right: seq<Node>)
    requires Apart(a, b) && forall i :: 0 <= i < |left| ==> left[i] in a
    requires forall i :: 0 <= i < |right| ==> right[i] in b
    ensures Apart(left, right)
  {
  }

  lemma Halves(list: Node?, nodes: seq<Node>, half: nat)
    requires Linked(list, nodes) && half <= |nodes|
    ensures Apart(nodes[..half], nodes[half..]) && multiset(nodes[..half]) + multiset(nodes[half..]) == multiset(nodes)
    ensures forall n :: n in nodes[..half] ==> n in nodes
    ensures forall n :: n in nodes[half..] ==> n in nodes
  {
    assert nodes == nodes[..half] + nodes[half..];
  }

  lemma SameNodes(a: seq<Node>, b: seq<Node>)
    requires multiset(a) == multiset(b)
    ensures |a| == |b| && forall n :: n in a <==> n in b
    ensures forall i :: 0 <= i < |a| ==> a[i] in b
  {
    assert |multiset(a)| == |a| && |multiset(b)| == |b|;
    forall n
      ensures n in a <==> n in b
    {
      assert n in a <==> n in multiset(a);
      assert n in b <==> n in multiset(b);
    }
  }
}
