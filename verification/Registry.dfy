/** The runner's intrusive singly linked lists: registration without duplicates, and the in-place sort. */
module Registry {
  import opened CaseOrder
  import opened Sorting

  class Node<T> {
    const info: T
    var next: Node?<T>

    constructor (info: T)
      ensures this.info == info && next == null
    {
      this.info := info;
      next := null;
    }
  }

  ghost predicate NoDuplicates<T>(nodes: seq<T>) {
    forall i, j :: 0 <= i < j < |nodes| ==> nodes[i] != nodes[j]
  }

  /** Following `next` from `head` visits exactly `nodes` and ends. */
  ghost predicate Links<T>(head: Node?<T>, nodes: seq<Node<T>>)
    reads nodes
  {
    && (if nodes == [] then head == null else head == nodes[0] && nodes[|nodes| - 1].next == null)
    && forall i :: 0 <= i < |nodes| - 1 ==> nodes[i].next == nodes[i + 1]
  }

  /** The list that starts at `head` is exactly `nodes`, no node twice. */
  ghost predicate Chain<T>(head: Node?<T>, nodes: seq<Node<T>>)
    reads nodes
  {
    NoDuplicates(nodes) && Links(head, nodes)
  }

  /** The list after registering the nodes of a section one after another. */
  function Registered<T>(nodes: seq<Node<T>>, section: seq<Node<T>>): seq<Node<T>>
    decreases |section|
  {
    if section == [] then nodes
    else Registered(if section[0] in nodes then nodes else [section[0]] + nodes, section[1..])
  }

  /** Every registered node is there once; collecting the same section again registers nothing. */
  lemma {:induction false} CollectedOnce<T>(nodes: seq<Node<T>>, section: seq<Node<T>>)
    ensures forall n :: n in Registered(nodes, section) <==> n in nodes || n in section
    ensures NoDuplicates(nodes) ==> NoDuplicates(Registered(nodes, section))
    ensures (forall n :: n in section ==> n in nodes) ==> Registered(nodes, section) == nodes
    decreases |section|
  {
    if section == [] {
    } else {
      var next := if section[0] in nodes then nodes else [section[0]] + nodes;
      CollectedOnce(next, section[1..]);
      assert section == [section[0]] + section[1..];
    }
  }

  class List<T> {
    var head: Node?<T>
    ghost var nodes: seq<Node<T>>

    ghost predicate Valid()
      reads this, nodes
    {
      Chain(head, nodes)
    }

    constructor ()
      ensures Valid() && nodes == []
    {
      head, nodes := null, [];
    }

    method AlreadyLinked(node: Node<T>) returns (found: bool)
      requires Valid()
      ensures found <==> node in nodes
    {
      var t := head;
      ghost var k := 0;
      while t != null
        invariant 0 <= k <= |nodes| && t == if k < |nodes| then nodes[k] else null
        invariant node !in nodes[..k]
        decreases |nodes| - k
      {
        if t == node {
          return true;
        }
        assert nodes[..k + 1] == nodes[..k] + [nodes[k]];
        t := t.next;
        k := k + 1;
      }
      assert nodes[..k] == nodes;
      found := false;
    }

    /** Prepends the node unless it is NULL or already there. */
    method Register(node: Node?<T>)
      requires Valid()
      modifies this, {node}
      ensures Valid()
      ensures nodes == if node == null || node in old(nodes) then old(nodes) else [node] + old(nodes)
    {
      if node == null {
        return;
      }
      var linked := AlreadyLinked(node);
      if linked {
        return;
      }
      node.next := head;
      head := node;
      nodes := [node] + nodes;
    }

    /** Registers the nodes of a section one after another. */
    method RegisterAll(section: seq<Node<T>>)
      requires Valid()
      modifies this, set n | n in section
      ensures Valid() && nodes == Registered(old(nodes), section)
    {
      assert section[0..] == section;
      for k := 0 to |section|
        invariant Valid()
        invariant Registered(nodes, section[k..]) == Registered(old(nodes), section)
      {
        assert section[k..][1..] == section[k + 1..] && section[k] in section;
        Register(section[k]);
      }
    }
  }

  /** The position a walk to the first greater item finds is where `Insert` inserts. */
  lemma {:induction false} InsertPosition<T>(id: T -> Ident, s: seq<T>, x: T, k: nat)
    requires k <= |s|
    requires forall i :: 0 <= i < k ==> IdCmp(id(x), id(s[i])) >= 0
    requires k < |s| ==> IdCmp(id(x), id(s[k])) < 0
    ensures Insert(id, s, x) == s[..k] + [x] + s[k..]
  {
    if k == 0 {
    } else {
      InsertPosition(id, s[1..], x, k - 1);
      assert s[..k] + [x] + s[k..] == [s[0]] + (s[1..][..k - 1] + [x] + s[1..][k - 1..]);
    }
  }

  /** The walk behind the last node, counted from the front, that is not greater than `x`. */
  method FindPlace<T>(id: Node<T> -> Ident, sorted: Node<T>, ghost order: seq<Node<T>>, x: Node<T>)
    returns (s: Node<T>, ghost k: nat)
    requires Chain(sorted, order) && IdCmp(id(x), id(sorted)) >= 0
    ensures 1 <= k <= |order| && s == order[k - 1]
    ensures Insert(id, order, x) == order[..k] + [x] + order[k..]
  {
    s, k := sorted, 1;
    while s.next != null && IdCmp(id(x), id(s.next)) >= 0
      invariant 1 <= k <= |order| && s == order[k - 1]
      invariant forall i :: 0 <= i < k ==> IdCmp(id(x), id(order[i])) >= 0
      decreases |order| - k
    {
      s := s.next;
      k := k + 1;
    }
    InsertPosition(id, order, x, k);
  }

  lemma NoDuplicatesWith<T>(nodes: seq<T>, x: T, k: nat)
    requires NoDuplicates(nodes) && x !in nodes && k <= |nodes|
    ensures NoDuplicates(nodes[..k] + [x] + nodes[k..])
  {
  }

  method LinkBehind<T>(s: Node<T>, x: Node<T>, ghost head: Node<T>, ghost order: seq<Node<T>>, ghost k: nat)
    requires Chain(head, order) && x !in order && 1 <= k <= |order| && s == order[k - 1]
    modifies s, x
    ensures Links(head, order[..k] + [x] + order[k..])
  {
    x.next := s.next;
    s.next := x;
  }

  /** Links one node into a sorted list: in front, or behind the place found. */
  method InsertNode<T>(id: Node<T> -> Ident, sorted: Node?<T>, ghost order: seq<Node<T>>, x: Node<T>)
    returns (head: Node?<T>, ghost order': seq<Node<T>>)
    requires Chain(sorted, order) && x !in order
    modifies (set n | n in order), x
    ensures order' == Insert(id, order, x) && Chain(head, order')
  {
    if sorted == null || IdCmp(id(x), id(sorted)) < 0 {
      InsertPosition(id, order, x, 0);
      NoDuplicatesWith(order, x, 0);
      order' := [x] + order;
      x.next := sorted;
      head := x;
    } else {
      var s, k := FindPlace(id, sorted, order, x);
      NoDuplicatesWith(order, x, k);
      order' := order[..k] + [x] + order[k..];
      LinkBehind(s, x, sorted, order, k);
      head := sorted;
    }
  }

  lemma {:induction false} InsertMember<T>(id: T -> Ident, s: seq<T>, x: T, y: T)
    ensures y in Insert(id, s, x) <==> y in s || y == x
  {
    if s == [] || IdCmp(id(x), id(s[0])) < 0 {
    } else {
      InsertMember(id, s[1..], x, y);
      assert s == [s[0]] + s[1..];
    }
  }

  /** The runner's sort: relinks the same nodes, in place, into the stable order. */
  method SortNodes<T>(id: Node<T> -> Ident, list: Node?<T>, ghost nodes: seq<Node<T>>)
    returns (sorted: Node?<T>, ghost order: seq<Node<T>>)
    requires Chain(list, nodes)
    modifies set n | n in nodes
    ensures order == Sort(id, nodes) && Chain(sorted, order)
  {
    var head := list;
    sorted, order := null, [];
    ghost var rest := nodes;
    while head != null
      invariant Chain(head, rest) && Chain(sorted, order)
      invariant forall n :: n in rest ==> n in nodes && n !in order
      invariant forall n :: n in order ==> n in nodes
      invariant InsertAll(id, order, rest) == Sort(id, nodes)
      decreases |rest|
    {
      var next := head.next;
      ghost var later := rest[1..];
      assert head == rest[0] && head in rest && forall n :: n in later ==> n in rest && n != rest[0];
      assert Chain(next, later);
      ghost var before := order;
      sorted, order := InsertNode(id, sorted, order, head);
      forall n | n in order ensures n in nodes {
        InsertMember<Node<T>>(id, before, rest[0], n);
      }
      forall n | n in later ensures n !in order {
        InsertMember<Node<T>>(id, before, rest[0], n);
      }
      rest := later;
      head := next;
    }
  }

  /** Registers a section's nodes, then sorts the list in place. */
  method CollectAndSort<T>(id: Node<T> -> Ident, list: List<T>, section: seq<Node<T>>)
    requires list.Valid()
    modifies list, (set n | n in list.nodes), set n | n in section
    ensures list.Valid() && list.nodes == Sort(id, Registered(old(list.nodes), section))
  {
    CollectedOnce(list.nodes, section);
    list.RegisterAll(section);
    var sorted, order := SortNodes(id, list.head, list.nodes);
    list.head, list.nodes := sorted, order;
  }

  /** What happens to a registry: a node is registered, a section is collected, or a run collects and sorts. */
  datatype Operation<T> = Add(node: Node?<T>) | Collect(section: seq<Node<T>>) | CollectSorted(section: seq<Node<T>>)

  /** The nodes an operation registers. */
  function Brought<T>(op: Operation<T>): seq<Node<T>> {
    match op
    case Add(node) => if node == null then [] else [node]
    case Collect(section) => section
    case CollectSorted(section) => section
  }

  function AllBrought<T>(ops: seq<Operation<T>>): seq<Node<T>> {
    if ops == [] then [] else AllBrought(ops[..|ops| - 1]) + Brought(ops[|ops| - 1])
  }

  function AfterOperation<T>(id: Node<T> -> Ident, nodes: seq<Node<T>>, op: Operation<T>): seq<Node<T>> {
    var registered := Registered(nodes, Brought(op));
    if op.CollectSorted? then Sort(id, registered) else registered
  }

  function AfterAll<T>(id: Node<T> -> Ident, ops: seq<Operation<T>>): seq<Node<T>> {
    if ops == [] then [] else AfterOperation(id, AfterAll(id, ops[..|ops| - 1]), ops[|ops| - 1])
  }

  lemma OperationKeeps<T>(id: Node<T> -> Ident, nodes: seq<Node<T>>, op: Operation<T>)
    requires NoDuplicates(nodes)
    ensures NoDuplicates(AfterOperation(id, nodes, op))
    ensures forall n :: n in AfterOperation(id, nodes, op) <==> n in nodes || n in Brought(op)
  {
    var registered := Registered(nodes, Brought(op));
    CollectedOnce(nodes, Brought(op));
    if op.CollectSorted? {
      SortIsStableSort(id, registered);
      SortKeepsDistinct(id, registered);
    }
  }

  lemma SortKeepsDistinct<T>(id: Node<T> -> Ident, nodes: seq<Node<T>>)
    requires NoDuplicates(nodes)
    ensures NoDuplicates(Sort(id, nodes))
  {
    var sorted := Sort(id, nodes);
    SortIsStableSort(id, nodes);
    forall i, j | 0 <= i < j < |sorted| ensures sorted[i] != sorted[j] {
      OnceOnly(nodes, sorted[i]);
      if sorted[i] == sorted[j] {
        Twice(sorted, i, j);
      }
    }
  }

  lemma {:induction false} OnceOnly<T>(nodes: seq<T>, x: T)
    requires NoDuplicates(nodes)
    ensures multiset(nodes)[x] <= 1
  {
    if nodes == [] {
    } else {
      var n := |nodes| - 1;
      assert nodes == nodes[..n] + [nodes[n]];
      OnceOnly(nodes[..n], x);
      if nodes[n] == x {
        assert x !in nodes[..n];
      }
    }
  }

  lemma Twice<T>(nodes: seq<T>, i: nat, j: nat)
    requires i < j < |nodes| && nodes[i] == nodes[j]
    ensures multiset(nodes)[nodes[i]] >= 2
  {
    assert nodes == nodes[..j] + [nodes[j]] + nodes[j + 1..];
    assert nodes[..j][i] == nodes[i];
    assert nodes[i] in multiset(nodes[..j]);
  }

  /** After any interleaving of registrations, collections and runs the list holds exactly the nodes registered so
      far, each once. */
  lemma {:induction false} RegistryHolds<T>(id: Node<T> -> Ident, ops: seq<Operation<T>>)
    ensures NoDuplicates(AfterAll(id, ops))
    ensures forall n :: n in AfterAll(id, ops) <==> n in AllBrought(ops)
  {
    if ops == [] {
    } else {
      RegistryHolds(id, ops[..|ops| - 1]);
      OperationKeeps(id, AfterAll(id, ops[..|ops| - 1]), ops[|ops| - 1]);
    }
  }

  lemma RegisteredOne<T>(nodes: seq<Node<T>>, node: Node<T>)
    ensures Registered(nodes, [node]) == if node in nodes then nodes else [node] + nodes
  {
    var none: seq<Node<T>> := [node][1..];
    assert none == [];
  }

  method Operate<T>(id: Node<T> -> Ident, list: List<T>, op: Operation<T>)
    requires list.Valid()
    modifies list, (set n | n in list.nodes), set n | n in Brought(op)
    ensures list.Valid() && list.nodes == AfterOperation(id, old(list.nodes), op)
  {
    match op
    case Add(node) =>
      if node != null {
        RegisteredOne(list.nodes, node);
      }
      list.Register(node);
    case Collect(section) => list.RegisterAll(section);
    case CollectSorted(section) => CollectAndSort(id, list, section);
  }

  /** Performing the operations on the linked list itself. */
  method OperateAll<T>(id: Node<T> -> Ident, list: List<T>, ops: seq<Operation<T>>)
    requires list.Valid() && list.nodes == []
    modifies list, set n | n in AllBrought(ops)
    ensures list.Valid() && list.nodes == AfterAll(id, ops)
  {
    assert ops[..0] == [];
    for k := 0 to |ops|
      invariant list.Valid() && list.nodes == AfterAll(id, ops[..k])
    {
      assert ops[..k + 1][..k] == ops[..k];
      RegistryHolds(id, ops[..k]);
      BroughtSoFar(ops, k + 1);
      BroughtSoFar(ops, k);
      Operate(id, list, ops[k]);
    }
    assert ops[..|ops|] == ops;
  }

  lemma {:induction false} BroughtSoFar<T>(ops: seq<Operation<T>>, k: nat)
    requires k <= |ops|
    ensures forall n :: n in AllBrought(ops[..k]) ==> n in AllBrought(ops)
    decreases |ops|
  {
    if k == |ops| {
      assert ops[..k] == ops;
    } else {
      var init := ops[..|ops| - 1];
      assert init[..k] == ops[..k];
      BroughtSoFar(init, k);
    }
  }
}
