// The pointer list and the standard-library list that stands in for it in the build: the
// pointer version refines the version on sequences.

module Lists {

  class ListNode<T> {
    var data: T
    var next: ListNode?<T>

    constructor (data: T)
      ensures this.data == data && next == null
    {
      this.data, next := data, null;
    }
  }

  class List<T> {
    var front: ListNode?<T>
    var back: ListNode?<T>
    var size: nat

    // The nodes of the chain, first to last, and as a set.
    ghost var spine: seq<ListNode<T>>
    ghost var nodes: set<ListNode<T>>

    ghost predicate Valid()
      reads this, nodes
    {
      IsChain(front, back, size, spine, nodes)
    }

    ghost function Contents(): (s: seq<T>)
      requires Within(spine, nodes)
      reads this, nodes
    {
      Data(spine, nodes)
    }

    constructor ()
      ensures Valid() && Contents() == [] && nodes == {}
    {
      front, back, size, spine, nodes := null, null, 0, [], {};
    }

    // Walks the chain to its end and frees each node behind it: all of them, each once.
    method Clear() returns (freed: seq<ListNode<T>>)
      requires Valid()
      modifies this
      ensures Valid() && Contents() == [] && nodes == {}
      ensures freed == old(spine)
    {
      freed := [];
      var ptr := front;
      ghost var i := 0;
      while ptr != null
        invariant 0 <= i <= size
        invariant ptr == NodeAt(spine, i) && freed == spine[..i]
        decreases size - i
      {
        var last: ListNode<T> := ptr;
        ptr := ptr.next;
        freed := freed + [last];
        i := i + 1;
      }
      front, back, size, spine, nodes := null, null, 0, [], {};
    }

    // What the given function gets to see, in order.
    method ForEach() returns (visited: seq<T>)
      requires Valid()
      ensures visited == Contents()
    {
      visited := [];
      var ptr := front;
      ghost var i := 0;
      while ptr != null
        invariant 0 <= i <= size
        invariant ptr == NodeAt(spine, i)
        invariant visited == Contents()[..i]
        decreases size - i
      {
        visited := visited + [ptr.data];
        ptr := ptr.next;
        i := i + 1;
      }
    }

    method EmplaceFront(x: T)
      requires Valid()
      modifies this
      ensures Valid() && fresh(nodes - old(nodes))
      ensures Contents() == [x] + old(Contents())
    {
      var node := new ListNode(x);
      if front == null {
        StartWith(node);
      } else {
        PutFirst(node);
      }
    }

    method EmplaceBack(x: T)
      requires Valid()
      modifies this, nodes
      ensures Valid() && fresh(nodes - old(nodes))
      ensures Contents() == old(Contents()) + [x]
    {
      var node := new ListNode(x);
      if back == null {
        StartWith(node);
      } else {
        PutLast(node);
      }
    }

    method PutFirst(node: ListNode<T>)
      requires Valid() && front != null && node !in nodes
      modifies this, node
      ensures Valid() && nodes == {node} + old(nodes) && Contents() == old([node.data]) + old(Contents())
    {
      node.next := front;
      JoinedChain([node], {node}, spine, nodes);
      front := node;
      size := size + 1;
      spine, nodes := [node] + spine, {node} + nodes;
    }

    method PutLast(node: ListNode<T>)
      requires Valid() && back != null && node !in nodes && node.next == null
      modifies this, back
      ensures Valid() && nodes == old(nodes) + {node} && Contents() == old(Contents()) + old([node.data])
    {
      LeadTo(node);
      JoinedChain(spine, nodes, [node], {node});
      back := node;
      size := size + 1;
      spine, nodes := spine + [node], nodes + {node};
    }

    // The first node of an empty list.
    method StartWith(node: ListNode<T>)
      requires Valid() && spine == [] && node.next == null
      modifies this
      ensures Valid() && nodes == {node} && Contents() == [node.data]
    {
      front, back, size := node, node, 1;
      spine, nodes := [node], {node};
    }

    // Lets the last node lead out of the chain.
    method LeadTo(out: ListNode<T>)
      requires Valid() && back != null
      modifies back
      ensures Linked(spine, out, nodes) && Data(spine, nodes) == old(Data(spine, nodes))
    {
      back.next := out;
    }

    method Front() returns (x: T)
      requires Valid() && size > 0
      ensures x == Contents()[0]
    {
      x := front.data;
    }

    method Back() returns (x: T)
      requires Valid() && size > 0
      ensures x == Contents()[size - 1]
    {
      x := back.data;
    }

    // The element at a position.
    method At(pos: nat) returns (x: T)
      requires Valid() && pos < size
      ensures x == Contents()[pos]
    {
      var ptr: ListNode<T> := front;
      var left := pos;
      while left > 0
        invariant 0 <= left <= pos && ptr == spine[pos - left]
      {
        left := left - 1;
        ptr := ptr.next;
      }
      x := ptr.data;
    }

    // On an empty list, nothing.
    method PopFront()
      requires Valid()
      modifies this
      ensures Valid() && nodes == old(nodes)
      ensures Contents() == Tail(old(Contents()))
    {
      if front == null {
        return;
      }
      front := front.next;
      if front == null {
        back := null;
      }
      size := size - 1;
      spine := spine[1..];
    }

    method Swap(other: List<T>)
      requires Valid() && other.Valid()
      modifies this, other
      ensures Valid() && other.Valid() && nodes == old(other.nodes) && other.nodes == old(nodes)
      ensures Contents() == old(other.Contents()) && other.Contents() == old(Contents())
    {
      front, other.front := other.front, front;
      back, other.back := other.back, back;
      size, other.size := other.size, size;
      spine, other.spine := other.spine, spine;
      nodes, other.nodes := other.nodes, nodes;
      assert unchanged(nodes) && unchanged(other.nodes);
    }

    // Moves all of the other list behind this one, in order; the other ends up empty.
    method Append(other: List<T>)
      requires this != other && Valid() && other.Valid() && nodes !! other.nodes
      modifies this, other, nodes
      ensures Valid() && other.Valid() && nodes + other.nodes <= old(nodes) + old(other.nodes) && nodes !! other.nodes
      ensures Contents() == old(Contents()) + old(other.Contents()) && other.Contents() == []
    {
      if other.size == 0 {
        return;
      }
      LinkTo(other);
      other.Reset();
    }

    // Gives the chain up without walking it.
    method Reset()
      modifies this
      ensures Valid() && Contents() == [] && nodes == {}
    {
      front, back, size, spine, nodes := null, null, 0, [], {};
    }

    // Lets this chain lead into the other one.
    method LinkTo(other: List<T>)
      requires this != other && Valid() && other.Valid() && nodes !! other.nodes && other.spine != []
      modifies this, nodes
      ensures Valid() && nodes <= old(nodes) + other.nodes && spine == old(spine) + other.spine
      ensures Data(spine, nodes) == old(Data(spine, nodes)) + old(Data(other.spine, other.nodes))
    {
      if back != null {
        PutBehind(other);
      } else {
        StartAs(other);
      }
    }

    method PutBehind(other: List<T>)
      requires this != other && Valid() && other.Valid() && nodes !! other.nodes && back != null && other.spine != []
      modifies this, back
      ensures Valid() && nodes == old(nodes) + other.nodes && spine == old(spine) + other.spine
      ensures Data(spine, nodes) == old(Data(spine, nodes)) + old(Data(other.spine, other.nodes))
    {
      LeadTo(other.front);
      JoinedChain(spine, nodes, other.spine, other.nodes);
      back := other.back;
      size := size + other.size;
      spine, nodes := spine + other.spine, nodes + other.nodes;
    }

    method StartAs(other: List<T>)
      requires this != other && Valid() && other.Valid() && back == null
      modifies this
      ensures Valid() && nodes == other.nodes && spine == other.spine
    {
      front := other.front;
      back := other.back;
      size := size + other.size;
      spine, nodes := other.spine, other.nodes;
    }
  }

  // The node at a position of the chain, null beyond its ends.
  ghost function NodeAt<T>(spine: seq<ListNode<T>>, i: int): ListNode?<T> {
    if 0 <= i < |spine| then spine[i] else null
  }

  ghost predicate Within<T>(spine: seq<ListNode<T>>, nodes: set<ListNode<T>>) {
    forall i :: 0 <= i < |spine| ==> spine[i] in nodes
  }

  // The chain runs through the spine and ends there, so it has no cycle; front, back and
  // size agree with it.
  ghost predicate IsChain<T>(front: ListNode?<T>, back: ListNode?<T>, size: nat, spine: seq<ListNode<T>>,
                             nodes: set<ListNode<T>>)
    reads nodes
  {
    && size == |spine|
    && front == NodeAt(spine, 0)
    && back == NodeAt(spine, |spine| - 1)
    && Within(spine, nodes) && Distinct(spine)
    && Linked(spine, null, nodes)
  }

  ghost function Data<T>(spine: seq<ListNode<T>>, nodes: set<ListNode<T>>): (s: seq<T>)
    requires Within(spine, nodes)
    reads nodes
    ensures |s| == |spine| && forall i :: 0 <= i < |s| ==> s[i] == spine[i].data
  {
    seq(|spine|, i requires 0 <= i < |spine| && spine[i] in nodes reads nodes => spine[i].data)
  }

  ghost predicate Distinct<T>(spine: seq<ListNode<T>>) {
    forall i, j :: 0 <= i < j < |spine| ==> spine[i] != spine[j]
  }

  // Each node leads to the next, and the last one out of the spine to the given place.
  ghost predicate Linked<T>(spine: seq<ListNode<T>>, out: ListNode?<T>, nodes: set<ListNode<T>>)
    requires Within(spine, nodes)
    reads nodes
  {
    forall i {:trigger spine[i].next} :: 0 <= i < |spine| ==>
      spine[i].next == if i + 1 == |spine| then out else NodeAt(spine, i + 1)
  }

  // A chain that leads into another one makes one chain with it.
  lemma JoinedChain<T>(a: seq<ListNode<T>>, inA: set<ListNode<T>>, b: seq<ListNode<T>>, inB: set<ListNode<T>>)
    requires Within(a, inA) && Within(b, inB) && inA !! inB && Distinct(a) && Distinct(b)
    requires Linked(a, NodeAt(b, 0), inA) && Linked(b, null, inB)
    ensures IsChain(NodeAt(a + b, 0), NodeAt(a + b, |a + b| - 1), |a + b|, a + b, inA + inB)
    ensures Data(a + b, inA + inB) == Data(a, inA) + Data(b, inB)
  {
    var c := a + b;
    forall i | 0 <= i < |c| ensures c[i].next == if i + 1 == |c| then null else NodeAt(c, i + 1) {
      if i < |a| {
        assert a[i].next == if i + 1 == |a| then NodeAt(b, 0) else NodeAt(a, i + 1);
      } else {
        assert b[i - |a|].next == if i + 1 == |c| then null else NodeAt(b, i - |a| + 1);
      }
    }
  }

  function Tail<X>(s: seq<X>): seq<X> {
    if s == [] then [] else s[1..]
  }

  // The list in the build, a standard-library list: a sequence of elements. Taking the first
  // element of an empty one is undefined there.
  class LiveList<T> {
    var items: seq<T>

    constructor ()
      ensures items == []
    {
      items := [];
    }

    method EmplaceFront(x: T)
      modifies this
      ensures items == [x] + old(items)
    {
      items := [x] + items;
    }

    method EmplaceBack(x: T)
      modifies this
      ensures items == old(items) + [x]
    {
      items := items + [x];
    }

    method PopFront()
      requires items != []
      modifies this
      ensures items == old(items)[1..]
    {
      items := items[1..];
    }

    method Clear()
      modifies this
      ensures items == []
    {
      items := [];
    }

    method Swap(other: LiveList<T>)
      modifies this, other
      ensures items == old(other.items) && other.items == old(items)
    {
      items, other.items := other.items, items;
    }

    method Append(other: LiveList<T>)
      requires this != other
      modifies this, other
      ensures items == old(items) + old(other.items) && other.items == []
    {
      if other.items == [] {
        return;
      }
      items := items + other.items;
      other.Clear();
    }

    method ForEach() returns (visited: seq<T>)
      ensures visited == items
    {
      visited := [];
      for i := 0 to |items|
        invariant visited == items[..i]
      {
        visited := visited + [items[i]];
      }
    }
  }

  // ---------- runs over any number of lists ----------

  // An operation on one of the lists, some with another one as partner.
  datatype Op<T> =
    | EmplaceFront(list: nat, x: T)
    | EmplaceBack(list: nat, x: T)
    | PopFront(list: nat)
    | Clear(list: nat)
    | Swap(list: nat, other: nat)
    | Append(list: nat, other: nat)
  {
    predicate HasPartner() {
      Swap? || Append?
    }

    // There are that many lists; a list may be swapped with itself but not appended to itself.
    predicate Fits(n: nat) {
      list < n && (HasPartner() ==> other < n) && (Append? ==> list != other)
    }
  }

  // The effect on the sequence of the list, for operations without a partner.
  function OnOne<T>(s: seq<T>, op: Op<T>): seq<T>
    requires !op.HasPartner()
  {
    match op
    case EmplaceFront(_, x) => [x] + s
    case EmplaceBack(_, x) => s + [x]
    case PopFront(_) => Tail(s)
    case Clear(_) => []
  }

  // The effect on the sequences of the list and its partner.
  function OnTwo<T>(s: seq<T>, t: seq<T>, op: Op<T>): (seq<T>, seq<T>)
    requires op.HasPartner()
  {
    match op
    case Swap(_, _) => (t, s)
    case Append(_, _) => (s + t, [])
  }

  function On<T>(ss: seq<seq<T>>, op: Op<T>): (r: seq<seq<T>>)
    requires op.Fits(|ss|)
    ensures |r| == |ss|
  {
    if op.HasPartner() then
      var (s, t) := OnTwo(ss[op.list], ss[op.other], op);
      ss[op.list := s][op.other := t]
    else
      ss[op.list := OnOne(ss[op.list], op)]
  }

  ghost predicate AllFit<T>(ops: seq<Op<T>>, n: nat) {
    forall i :: 0 <= i < |ops| ==> ops[i].Fits(n)
  }

  ghost function AllOn<T>(ss: seq<seq<T>>, ops: seq<Op<T>>): (r: seq<seq<T>>)
    requires AllFit(ops, |ss|)
    ensures |r| == |ss|
    decreases |ops|
  {
    if ops == [] then ss else On(AllOn(ss, ops[..|ops| - 1]), ops[|ops| - 1])
  }

  // The lists, but for two of them, have these contents, each in a sound chain of its own:
  // no list occurs twice and no two share a node. All nodes are in the pool.
  ghost predicate FamilyBut<T>(ls: seq<List<T>>, ss: seq<seq<T>>, pool: set<ListNode<T>>, i: nat, j: nat)
    reads ls, pool
  {
    && |ls| == |ss|
    && (forall k :: 0 <= k < |ls| && k != i && k != j ==> ls[k].nodes <= pool)
    && (forall k :: 0 <= k < |ls| && k != i && k != j ==> ls[k].Valid() && ls[k].Contents() == ss[k])
    && (forall k, m :: 0 <= k < m < |ls| && k != i && k != j && m != i && m != j ==>
          ls[k] != ls[m] && ls[k].nodes !! ls[m].nodes)
  }

  // All of them.
  ghost predicate Family<T>(ls: seq<List<T>>, ss: seq<seq<T>>, pool: set<ListNode<T>>)
    reads ls, pool
  {
    FamilyBut(ls, ss, pool, |ls|, |ls|)
  }

  // A list that is none of the others and shares no node with them.
  ghost predicate Alone<T>(ls: seq<List<T>>, i: nat, j: nat)
    requires i < |ls|
    reads ls
  {
    forall k :: 0 <= k < |ls| && k != i && k != j ==> ls[k] != ls[i] && ls[k].nodes !! ls[i].nodes
  }

  lemma Joins<T>(ls: seq<List<T>>, ss: seq<seq<T>>, pool: set<ListNode<T>>, i: nat, j: nat, s: seq<T>)
    requires i < |ls| && FamilyBut(ls, ss, pool, i, j) && Alone(ls, i, j)
    requires ls[i].Valid() && ls[i].Contents() == s
    ensures FamilyBut(ls, ss[i := s], pool + ls[i].nodes, |ls|, j)
  {
  }

  ghost predicate LiveFamily<T>(ls: seq<LiveList<T>>, ss: seq<seq<T>>)
    reads ls
  {
    && |ls| == |ss|
    && (forall k :: 0 <= k < |ls| ==> ls[k].items == ss[k])
    && (forall j, k :: 0 <= j < k < |ls| ==> ls[j] != ls[k])
  }

  twostate lemma Untouched<T>(l: List<T>)
    requires old(l.Valid()) && unchanged(l) && unchanged(old(l.nodes))
    ensures l.Valid() && l.Contents() == old(l.Contents())
  {
  }

  method ExecuteOne<T>(l: List<T>, op: Op<T>)
    requires l.Valid() && !op.HasPartner()
    modifies l, l.nodes
    ensures l.Valid() && fresh(l.nodes - old(l.nodes))
    ensures l.Contents() == OnOne(old(l.Contents()), op)
  {
    match op
    case EmplaceFront(_, x) => l.EmplaceFront(x);
    case EmplaceBack(_, x) => l.EmplaceBack(x);
    case PopFront(_) => l.PopFront();
    case Clear(_) => var _ := l.Clear();
  }

  method ExecuteTwo<T>(l: List<T>, other: List<T>, op: Op<T>)
    requires l.Valid() && other.Valid() && op.HasPartner() && l != other && l.nodes !! other.nodes
    modifies l, other, l.nodes
    ensures l.Valid() && other.Valid() && l.nodes !! other.nodes
    ensures l.nodes + other.nodes <= old(l.nodes) + old(other.nodes)
    ensures (l.Contents(), other.Contents()) == OnTwo(old(l.Contents()), old(other.Contents()), op)
  {
    match op
    case Swap(_, _) => l.Swap(other);
    case Append(_, _) => l.Append(other);
  }

  method StepOne<T>(ls: seq<List<T>>, op: Op<T>, ghost ss: seq<seq<T>>, ghost pool: set<ListNode<T>>)
    returns (ghost wider: set<ListNode<T>>)
    requires op.Fits(|ls|) && Family(ls, ss, pool) && !op.HasPartner()
    modifies ls, pool
    ensures Family(ls, On(ss, op), wider) && pool <= wider && fresh(wider - pool)
  {
    ChangeOne(ls, op, ss, pool);
    var i := op.list;
    wider := pool + ls[i].nodes;
    Joins(ls, ss, pool, i, |ls|, OnOne(ss[i], op));
  }

  method ChangeOne<T>(ls: seq<List<T>>, op: Op<T>, ghost ss: seq<seq<T>>, ghost pool: set<ListNode<T>>)
    requires op.Fits(|ls|) && Family(ls, ss, pool) && !op.HasPartner()
    modifies ls, pool
    ensures FamilyBut(ls, ss, pool, op.list, |ls|) && Alone(ls, op.list, |ls|)
    ensures fresh(ls[op.list].nodes - pool)
    ensures ls[op.list].Valid() && ls[op.list].Contents() == OnOne(ss[op.list], op)
  {
    var l := ls[op.list];
    ExecuteOne(l, op);
    forall k | 0 <= k < |ls| && k != op.list
      ensures ls[k].Valid() && ls[k].Contents() == ss[k] && ls[k].nodes == old(ls[k].nodes)
    {
      Untouched(ls[k]);
    }
    assert Alone(ls, op.list, |ls|);
  }

  method StepTwo<T>(ls: seq<List<T>>, op: Op<T>, ghost ss: seq<seq<T>>, ghost pool: set<ListNode<T>>)
    requires op.Fits(|ls|) && Family(ls, ss, pool) && op.HasPartner() && op.list != op.other
    modifies ls, pool
    ensures Family(ls, On(ss, op), pool)
  {
    ChangeTwo(ls, op, ss, pool);
    var i, j := op.list, op.other;
    ghost var r := OnTwo(ss[i], ss[j], op);
    Joins(ls, ss, pool, i, j, r.0);
    Joins(ls, ss[i := r.0], pool + ls[i].nodes, j, |ls|, r.1);
    assert pool + ls[i].nodes + ls[j].nodes == pool;
  }

  method ChangeTwo<T>(ls: seq<List<T>>, op: Op<T>, ghost ss: seq<seq<T>>, ghost pool: set<ListNode<T>>)
    requires op.Fits(|ls|) && Family(ls, ss, pool) && op.HasPartner() && op.list != op.other
    modifies ls, pool
    ensures FamilyBut(ls, ss, pool, op.list, op.other)
    ensures Alone(ls, op.list, op.other) && Alone(ls, op.other, |ls|)
    ensures ls[op.list].nodes + ls[op.other].nodes <= pool
    ensures ls[op.list].Valid() && ls[op.other].Valid()
    ensures (ls[op.list].Contents(), ls[op.other].Contents()) == OnTwo(ss[op.list], ss[op.other], op)
  {
    ExecuteTwo(ls[op.list], ls[op.other], op);
    forall k | 0 <= k < |ls| && k != op.list && k != op.other
      ensures ls[k].Valid() && ls[k].Contents() == ss[k] && ls[k].nodes == old(ls[k].nodes)
    {
      Untouched(ls[k]);
    }
  }

  method SwapWithItself<T>(ls: seq<List<T>>, i: nat, ghost ss: seq<seq<T>>, ghost pool: set<ListNode<T>>)
    requires i < |ls| && Family(ls, ss, pool)
    modifies ls
    ensures Family(ls, ss, pool)
  {
    ls[i].Swap(ls[i]);
    forall k | 0 <= k < |ls| && k != i
      ensures ls[k].Valid() && ls[k].Contents() == ss[k] && ls[k].nodes == old(ls[k].nodes)
    {
      Untouched(ls[k]);
    }
  }

  // One operation: its effect on the sequences, and every chain stays sound and apart from
  // all others. The nodes that are new to the pool are new altogether.
  method Step<T>(ls: seq<List<T>>, op: Op<T>, ghost ss: seq<seq<T>>, ghost pool: set<ListNode<T>>)
    returns (ghost wider: set<ListNode<T>>)
    requires op.Fits(|ls|) && Family(ls, ss, pool)
    modifies ls, pool
    ensures Family(ls, On(ss, op), wider) && pool <= wider && fresh(wider - pool)
  {
    wider := pool;
    if !op.HasPartner() {
      wider := StepOne(ls, op, ss, pool);
    } else if op.list != op.other {
      StepTwo(ls, op, ss, pool);
    } else {
      SwapWithItself(ls, op.list, ss, pool);
    }
  }

  method LiveStep<T>(live: seq<LiveList<T>>, op: Op<T>, ghost ss: seq<seq<T>>)
    requires op.Fits(|live|) && LiveFamily(live, ss)
    modifies live
    ensures LiveFamily(live, On(ss, op))
  {
    var l := live[op.list];
    match op
    case EmplaceFront(_, x) => l.EmplaceFront(x);
    case EmplaceBack(_, x) => l.EmplaceBack(x);
    case PopFront(_) => if l.items != [] { l.PopFront(); }
    case Clear(_) => l.Clear();
    case Swap(_, other) => l.Swap(live[other]);
    case Append(_, other) => l.Append(live[other]);
  }

  method StepBoth<T>(ls: seq<List<T>>, live: seq<LiveList<T>>, op: Op<T>,
                     ghost ss: seq<seq<T>>, ghost pool: set<ListNode<T>>)
    returns (ghost wider: set<ListNode<T>>)
    requires op.Fits(|ls|) && Family(ls, ss, pool) && LiveFamily(live, ss)
    modifies ls, pool, live
    ensures Family(ls, On(ss, op), wider) && LiveFamily(live, On(ss, op))
    ensures pool <= wider && fresh(wider - pool)
  {
    wider := Step(ls, op, ss, pool);
    label stepped:
    LiveStep(live, op, ss);
    assert Family(ls, On(ss, op), wider) == old@stepped(Family(ls, On(ss, op), wider));
  }

  lemma SameContents<T>(ls: seq<List<T>>, live: seq<LiveList<T>>, ss: seq<seq<T>>, pool: set<ListNode<T>>)
    requires Family(ls, ss, pool) && LiveFamily(live, ss)
    ensures |ls| == |live| && forall k :: 0 <= k < |ls| ==> ls[k].Valid() && ls[k].Contents() == live[k].items
  {
  }

  // Over every run of operations on any number of lists the linked lists and the live ones
  // go in lock-step: the same contents at every moment, and every chain sound, without a
  // cycle, and apart from all others.
  method InLockstep<T>(ls: seq<List<T>>, live: seq<LiveList<T>>, ops: seq<Op<T>>,
                       ghost ss: seq<seq<T>>, ghost pool: set<ListNode<T>>)
    returns (ghost wider: set<ListNode<T>>)
    requires AllFit(ops, |ls|) && Family(ls, ss, pool) && LiveFamily(live, ss)
    modifies ls, pool, live
    ensures Family(ls, AllOn(ss, ops), wider) && LiveFamily(live, AllOn(ss, ops))
    ensures pool <= wider && fresh(wider - pool)
    ensures |ls| == |live| && forall k :: 0 <= k < |ls| ==> ls[k].Valid() && ls[k].Contents() == live[k].items
  {
    wider := pool;
    for m := 0 to |ops|
      invariant pool <= wider && fresh(wider - pool)
      invariant Family(ls, AllOn(ss, ops[..m]), wider) && LiveFamily(live, AllOn(ss, ops[..m]))
    {
      wider := StepBoth(ls, live, ops[m], AllOn(ss, ops[..m]), wider);
      assert ops[..m + 1][..m] == ops[..m];
    }
    assert ops[..|ops|] == ops;
    SameContents(ls, live, AllOn(ss, ops), wider);
  }
}
