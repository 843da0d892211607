/** The linked list: elements linked and unlinked at the place where a cutting condition first holds, sorting by moving
    the elements one by one into a new list, and walking with removal. */
module Lists {

  // ----- Places and orders ---------------------------------------------------------------------------------

  /** The first place from `i` on where the condition holds, or the end. */
  function Cut<T>(s: seq<T>, i: nat, stop: (T, nat) -> bool): (k: nat)
    requires i <= |s|
    ensures i <= k <= |s|
    decreases |s| - i
  {
    if i == |s| || stop(s[i], i) then i else Cut(s, i + 1, stop)
  }

  function InsertAt<T>(s: seq<T>, k: nat, x: T): (r: seq<T>)
    requires k <= |s|
    ensures |r| == |s| + 1
    ensures forall i :: 0 <= i < |r| ==> r[i] == if i < k then s[i] else if i == k then x else s[i - 1]
  {
    s[..k] + [x] + s[k..]
  }

  function RemoveAt<T>(s: seq<T>, k: nat): (r: seq<T>)
    requires k < |s|
    ensures |r| == |s| - 1
    ensures forall i :: 0 <= i < |r| ==> r[i] == if i < k then s[i] else s[i + 1]
  {
    s[..k] + s[k + 1..]
  }

  /** Whether the comparator does not put an element in front of `x`. */
  function NotBefore<T>(less: (T, T) -> bool, x: T): (T, nat) -> bool {
    (y, i) => !less(y, x)
  }

  /** Before the first element that the comparator does not put in front of `x`. */
  function InsertBy<T>(less: (T, T) -> bool, x: T, s: seq<T>): seq<T> {
    InsertAt(s, Cut(s, 0, NotBefore(less, x)), x)
  }

  function SortInto<T>(less: (T, T) -> bool, sorted: seq<T>, s: seq<T>): seq<T>
    decreases |s|
  {
    if s == [] then sorted else SortInto(less, InsertBy(less, s[0], sorted), s[1..])
  }

  function Sorted<T>(less: (T, T) -> bool, s: seq<T>): seq<T> {
    SortInto(less, [], s)
  }

  // ----- What sorting gives --------------------------------------------------------------------------------------

  /** A comparator by a key: strict, or reflexive. */
  ghost predicate Compares<T(!new)>(less: (T, T) -> bool, key: T -> int, strict: bool) {
    forall a, b {:trigger less(a, b)} :: less(a, b) <==> if strict then key(a) < key(b) else key(a) <= key(b)
  }

  ghost predicate InOrder<T>(key: T -> int, s: seq<T>) {
    forall i, j :: 0 <= i < j < |s| ==> key(s[i]) <= key(s[j])
  }

  /** The elements with key `v`, in their order. */
  function With<T>(key: T -> int, v: int, s: seq<T>): seq<T> {
    if s == [] then []
    else With(key, v, s[..|s| - 1]) + if key(s[|s| - 1]) == v then [s[|s| - 1]] else []
  }

  function Reversed<T>(s: seq<T>): seq<T> {
    if s == [] then [] else [s[|s| - 1]] + Reversed(s[..|s| - 1])
  }

  lemma {:induction false} WithJoin<T>(key: T -> int, v: int, a: seq<T>, b: seq<T>)
    ensures With(key, v, a + b) == With(key, v, a) + With(key, v, b)
    decreases |b|
  {
    if b == [] {
      assert a + b == a;
    } else {
      assert (a + b)[..|a + b| - 1] == a + b[..|b| - 1];
      WithJoin(key, v, a, b[..|b| - 1]);
    }
  }

  lemma {:induction false} WithNone<T>(key: T -> int, v: int, s: seq<T>)
    requires forall i :: 0 <= i < |s| ==> key(s[i]) != v
    ensures With(key, v, s) == []
  {
    if s != [] {
      WithNone(key, v, s[..|s| - 1]);
    }
  }

  lemma {:induction false} CutIs<T>(s: seq<T>, i: nat, stop: (T, nat) -> bool)
    requires i <= |s|
    ensures forall j :: i <= j < Cut(s, i, stop) ==> !stop(s[j], j)
    ensures Cut(s, i, stop) < |s| ==> stop(s[Cut(s, i, stop)], Cut(s, i, stop))
    decreases |s| - i
  {
    if i < |s| && !stop(s[i], i) {
      CutIs(s, i + 1, stop);
    }
  }

  lemma InsertOrdered<T(!new)>(less: (T, T) -> bool, key: T -> int, strict: bool, x: T, s: seq<T>)
    requires Compares(less, key, strict) && InOrder(key, s)
    ensures InOrder(key, InsertBy(less, x, s))
  {
    var stop := NotBefore(less, x);
    var k := Cut(s, 0, stop);
    CutIs(s, 0, stop);
    forall j | 0 <= j < k ensures key(s[j]) <= key(x) {
      assert !stop(s[j], j);
    }
    forall j | k <= j < |s| ensures key(x) <= key(s[j]) {
      assert stop(s[k], k) && !less(s[k], x);
    }
  }

  /** Insertion puts an element after its equals when the comparator is reflexive, before them when it is strict. */
  lemma InsertPlace<T(!new)>(less: (T, T) -> bool, key: T -> int, strict: bool, x: T, s: seq<T>, v: int)
    requires Compares(less, key, strict) && InOrder(key, s)
    ensures With(key, v, InsertBy(less, x, s)) ==
            if key(x) != v then With(key, v, s)
            else if strict then [x] + With(key, v, s) else With(key, v, s) + [x]
  {
    hide With, InOrder;
    var stop := NotBefore(less, x);
    var k := Cut(s, 0, stop);
    WithInserted(key, v, s, k, x);
    if key(x) == v {
      if strict {
        BeforeCut(less, key, x, s);
        WithNone(key, v, s[..k]);
      } else {
        AfterCut(less, key, x, s);
        WithNone(key, v, s[k..]);
      }
    }
  }

  lemma WithInserted<T>(key: T -> int, v: int, s: seq<T>, k: nat, x: T)
    requires k <= |s|
    ensures With(key, v, s) == With(key, v, s[..k]) + With(key, v, s[k..])
    ensures With(key, v, InsertAt(s, k, x)) == With(key, v, s[..k]) + (if key(x) == v then [x] else []) + With(key, v, s[k..])
  {
    WithJoin(key, v, s[..k] + [x], s[k..]);
    WithJoin(key, v, s[..k], [x]);
    WithJoin(key, v, s[..k], s[k..]);
    assert s[..k] + s[k..] == s;
    assert [x][..0] == [];
  }

  lemma BeforeCut<T(!new)>(less: (T, T) -> bool, key: T -> int, x: T, s: seq<T>)
    requires Compares(less, key, true)
    ensures forall j :: 0 <= j < Cut(s, 0, NotBefore(less, x)) ==> key(s[j]) != key(x)
  {
    var stop := NotBefore(less, x);
    CutIs(s, 0, stop);
    forall j | 0 <= j < Cut(s, 0, stop) ensures key(s[j]) != key(x) {
      assert !stop(s[j], j);
    }
  }

  lemma AfterCut<T(!new)>(less: (T, T) -> bool, key: T -> int, x: T, s: seq<T>)
    requires Compares(less, key, false) && InOrder(key, s)
    ensures forall j :: Cut(s, 0, NotBefore(less, x)) <= j < |s| ==> key(s[j]) != key(x)
  {
    var stop := NotBefore(less, x);
    CutIs(s, 0, stop);
    forall j | Cut(s, 0, stop) <= j < |s| ensures key(s[j]) != key(x) {
      var k := Cut(s, 0, stop);
      assert stop(s[k], k) && !less(s[k], x);
    }
  }

  /** Sorting puts the elements in order; equal ones keep their order under a reflexive comparator, and come out reversed
      under a strict one. */
  lemma {:induction false} SortedIs<T(!new)>(less: (T, T) -> bool, key: T -> int, strict: bool, sorted: seq<T>, s: seq<T>, v: int)
    requires Compares(less, key, strict) && InOrder(key, sorted)
    ensures InOrder(key, SortInto(less, sorted, s))
    ensures With(key, v, SortInto(less, sorted, s)) ==
            if strict then Reversed(With(key, v, s)) + With(key, v, sorted) else With(key, v, sorted) + With(key, v, s)
    decreases |s|
  {
    hide With, Reversed, InOrder, InsertBy;
    if s == [] {
      NoneWith(key, v);
    } else {
      InsertOrdered(less, key, strict, s[0], sorted);
      InsertPlace(less, key, strict, s[0], sorted, v);
      SortedIs(less, key, strict, InsertBy(less, s[0], sorted), s[1..], v);
      WithFirst(key, v, s);
      var before, rest := With(key, v, sorted), With(key, v, s[1..]);
      ReversedFirst(s[0], rest);
      if key(s[0]) != v {
        assert [] + rest == rest;
      } else if strict {
        assert Reversed(rest) + ([s[0]] + before) == Reversed(rest) + [s[0]] + before;
      } else {
        assert before + [s[0]] + rest == before + ([s[0]] + rest);
      }
    }
  }

  lemma NoneWith<T>(key: T -> int, v: int)
    ensures With<T>(key, v, []) == [] && Reversed<T>([]) == []
  {
  }

  lemma WithFirst<T>(key: T -> int, v: int, s: seq<T>)
    requires s != []
    ensures With(key, v, s) == (if key(s[0]) == v then [s[0]] else []) + With(key, v, s[1..])
  {
    WithJoin(key, v, [s[0]], s[1..]);
    assert [s[0]] + s[1..] == s;
    assert [s[0]][..0] == [];
  }

  lemma {:induction false} ReversedFirst<T>(x: T, s: seq<T>)
    ensures Reversed([x] + s) == Reversed(s) + [x]
  {
    if s == [] {
      assert [x] + s == [x] && [x][..0] == [];
    } else {
      assert ([x] + s)[..|s|] == [x] + s[..|s| - 1];
      ReversedFirst(x, s[..|s| - 1]);
    }
  }

  // ----- The linked list -----------------------------------------------------------------------------------------

  class Node<T> {
    var data: T
    var next: Node?<T>

    constructor (data: T)
      ensures this.data == data && next == null
    {
      this.data, next := data, null;
    }
  }

  /** These are the nodes reached from `head`, each once. */
  ghost predicate Linked<T>(head: Node?<T>, nodes: seq<Node<T>>)
    reads set n | n in nodes
  {
    && (forall i :: 0 <= i < |nodes| ==> LinkAt(head, nodes, i))
    && (nodes == [] ==> head == null)
    && (forall i, j :: 0 <= i < j < |nodes| ==> nodes[i] != nodes[j])
  }

  ghost predicate LinkAt<T>(head: Node?<T>, nodes: seq<Node<T>>, i: nat)
    requires i < |nodes|
    reads set n | n in nodes
  {
    && (i == 0 ==> head == nodes[0])
    && nodes[i].next == if i + 1 < |nodes| then nodes[i + 1] else null
  }

  ghost function DataOf<T>(nodes: seq<Node<T>>): (r: seq<T>)
    reads set n | n in nodes
    ensures |r| == |nodes| && forall i :: 0 <= i < |nodes| ==> r[i] == nodes[i].data
  {
    seq(|nodes|, i requires 0 <= i < |nodes| reads set n | n in nodes => nodes[i].data)
  }

  class List<T> {
    var head: Node?<T>
    var count: nat
    ghost var nodes: seq<Node<T>>

    ghost function Repr(): set<Node<T>>
      reads this
    {
      set n | n in nodes
    }

    ghost predicate Valid()
      reads this, Repr()
    {
      Linked(head, nodes) && count == |nodes|
    }

    ghost function Contents(): seq<T>
      reads this, Repr()
    {
      DataOf(nodes)
    }

    constructor ()
      ensures Valid() && nodes == []
    {
      head, count, nodes := null, 0, [];
    }

    /** Links an element in at the first place where the condition holds, or at the end. */
    method AddElement(e: Node<T>, stop: (T, nat) -> bool) returns (index: nat)
      requires Valid() && e !in nodes
      modifies this, Repr()`next, e`next
      ensures Valid() && index == Cut(old(Contents()), 0, stop) && nodes == InsertAt(old(nodes), index, e)
      ensures Contents() == InsertAt(old(Contents()), index, old(e.data))
    {
      var previous: Node?<T>, aux := null, head;
      index := 0;
      assert |nodes| > 0 ==> LinkAt(head, nodes, 0);
      while aux != null && !stop(aux.data, index)
        invariant index <= |nodes| && aux == if index < |nodes| then nodes[index] else null
        invariant index > 0 ==> previous == nodes[index - 1]
        invariant Cut(Contents(), 0, stop) == Cut(Contents(), index, stop)
        decreases |nodes| - index
      {
        assert LinkAt(head, nodes, index);
        previous := aux;
        aux := aux.next;
        index := index + 1;
      }
      Link(previous, e, index);
    }

    method Link(previous: Node?<T>, e: Node<T>, index: nat)
      requires Valid() && e !in nodes && index <= |nodes| && (index > 0 ==> previous == nodes[index - 1])
      modifies this, Repr()`next, e`next
      ensures Valid() && nodes == InsertAt(old(nodes), index, e)
      ensures Contents() == InsertAt(old(Contents()), index, old(e.data))
    {
      if index == 0 {
        LinkFirst(e);
      } else {
        LinkAfter(previous, e, index);
      }
    }

    method LinkFirst(e: Node<T>)
      requires Valid() && e !in nodes
      modifies this, e`next
      ensures Valid() && nodes == InsertAt(old(nodes), 0, e)
      ensures Contents() == InsertAt(old(Contents()), 0, old(e.data))
    {
      assert |nodes| > 0 ==> LinkAt(head, nodes, 0);
      e.next := head;
      head := e;
      count := count + 1;
      nodes := InsertAt(nodes, 0, e);
      forall i | 0 <= i < |nodes| ensures LinkAt(head, nodes, i) {
        if i > 0 {
          assert old(LinkAt(head, nodes, i - 1));
        }
      }
    }

    method LinkAfter(previous: Node<T>, e: Node<T>, index: nat)
      requires Valid() && e !in nodes && 0 < index <= |nodes| && previous == nodes[index - 1]
      modifies this`count, this`nodes, previous`next, e`next
      ensures Valid() && nodes == InsertAt(old(nodes), index, e)
      ensures Contents() == InsertAt(old(Contents()), index, old(e.data))
    {
      assert LinkAt(head, nodes, index - 1);
      e.next := previous.next;
      previous.next := e;
      count := count + 1;
      nodes := InsertAt(nodes, index, e);
      forall i | 0 <= i < |nodes| ensures LinkAt(head, nodes, i) {
        if i < index {
          assert old(LinkAt(head, nodes, i));
        } else if i > index {
          assert old(LinkAt(head, nodes, i - 1));
        }
      }
    }

    /** Unlinks the element at a place. */
    method Unlink(previous: Node?<T>, e: Node<T>, index: nat)
      requires Valid() && index < |nodes| && e == nodes[index] && (index > 0 ==> previous == nodes[index - 1])
      modifies this, Repr()`next
      ensures Valid() && nodes == RemoveAt(old(nodes), index) && e.next == null
      ensures Contents() == RemoveAt(old(Contents()), index)
    {
      if index == 0 {
        UnlinkFirst(e);
      } else {
        UnlinkAfter(previous, e, index);
      }
    }

    method UnlinkFirst(e: Node<T>)
      requires Valid() && |nodes| > 0 && e == nodes[0]
      modifies this, e`next
      ensures Valid() && nodes == RemoveAt(old(nodes), 0) && e.next == null
      ensures Contents() == RemoveAt(old(Contents()), 0)
    {
      assert LinkAt(head, nodes, 0);
      head := e.next;
      e.next := null;
      count := count - 1;
      nodes := RemoveAt(nodes, 0);
      forall i | 0 <= i < |nodes| ensures LinkAt(head, nodes, i) {
        assert old(LinkAt(head, nodes, i + 1));
      }
    }

    method UnlinkAfter(previous: Node<T>, e: Node<T>, index: nat)
      requires Valid() && 0 < index < |nodes| && e == nodes[index] && previous == nodes[index - 1]
      modifies this`count, this`nodes, previous`next, e`next
      ensures Valid() && nodes == RemoveAt(old(nodes), index) && e.next == null
      ensures Contents() == RemoveAt(old(Contents()), index)
    {
      assert LinkAt(head, nodes, index) && LinkAt(head, nodes, index - 1);
      previous.next := e.next;
      e.next := null;
      count := count - 1;
      nodes := RemoveAt(nodes, index);
      forall i | 0 <= i < |nodes| ensures LinkAt(head, nodes, i) {
        if i < index {
          assert old(LinkAt(head, nodes, i));
        } else {
          assert old(LinkAt(head, nodes, i + 1));
        }
      }
    }

    method Add(data: T) returns (index: nat)
      requires Valid()
      modifies this, Repr()`next
      ensures Valid() && index == |old(nodes)| && Contents() == old(Contents()) + [data]
    {
      var e := new Node(data);
      var never := (d, i) => false;
      index := AddElement(e, never);
      CutNever(old(Contents()), 0, never);
    }

    /** Takes the first element out. */
    method RemoveFirst() returns (e: Node<T>)
      requires Valid() && count > 0
      modifies this, Repr()`next
      ensures Valid() && e == old(nodes)[0] && nodes == old(nodes)[1..] && e.data == old(Contents())[0] && e !in nodes
      ensures Contents() == old(Contents())[1..]
    {
      assert LinkAt(head, nodes, 0);
      e := head;
      Unlink(null, e, 0);
      assert RemoveAt(old(nodes), 0) == old(nodes)[1..];
    }

    /** Sorting: the elements move one by one into a new list, whose nodes then become this list's. */
    method Sort(less: (T, T) -> bool)
      requires Valid()
      modifies this, Repr()`next
      ensures Valid() && Contents() == Sorted(less, old(Contents()))
    {
      if count > 1 {
        var sorted := new List<T>();
        while count > 0
          invariant Valid() && sorted.Valid() && fresh(sorted)
          invariant Repr() <= old(Repr()) && sorted.Repr() <= old(Repr()) && Repr() !! sorted.Repr()
          invariant SortInto(less, sorted.Contents(), Contents()) == Sorted(less, old(Contents()))
          decreases count
        {
          MoveFirst(sorted, less);
        }
        head, count, nodes := sorted.head, sorted.count, sorted.nodes;
      } else {
        OneSorted(less, Contents());
      }
    }

    method MoveFirst(sorted: List<T>, less: (T, T) -> bool)
      requires Valid() && sorted.Valid() && sorted != this && count > 0
      requires Repr() !! sorted.Repr()
      modifies this, Repr()`next, sorted, sorted.Repr()`next
      ensures Valid() && sorted.Valid() && count == old(count) - 1
      ensures Repr() <= old(Repr()) && sorted.Repr() <= old(Repr()) + old(sorted.Repr()) && Repr() !! sorted.Repr()
      ensures SortInto(less, sorted.Contents(), Contents()) == old(SortInto(less, sorted.Contents(), Contents()))
    {
      assert nodes[0] in Repr();
      var removed := RemoveFirst();
      assert removed !in sorted.Repr();
      var index := sorted.AddElement(removed, NotBefore(less, removed.data));
    }
  }

  lemma {:induction false} CutNever<T>(s: seq<T>, i: nat, stop: (T, nat) -> bool)
    requires i <= |s| && forall j :: i <= j < |s| ==> !stop(s[j], j)
    ensures Cut(s, i, stop) == |s|
    decreases |s| - i
  {
    if i < |s| {
      CutNever(s, i + 1, stop);
    }
  }

  lemma OneSorted<T>(less: (T, T) -> bool, s: seq<T>)
    requires |s| <= 1
    ensures Sorted(less, s) == s
  {
    if s != [] {
      var none: seq<T> := [];
      assert InsertBy(less, s[0], none) == [s[0]];
      assert SortInto(less, none, s) == SortInto(less, [s[0]], s[1..]) && s[1..] == [] && [s[0]] == s;
    }
  }

  // ----- Walking with removal ---------------------------------------------------------------------------------------

  /** A walk over a list. `element` is the one returned last, at place `index`, and `prev` the one before it. */
  class Iterator<T> {
    const list: List<T>
    var prev: Node?<T>
    var element: Node?<T>
    var index: int

    ghost predicate Valid()
      reads this, list, list.Repr()
    {
      && list.Valid() && -1 <= index < |list.nodes|
      && element == (if index >= 0 then list.nodes[index] else null)
    }

    /** Removing needs the element before: it is known after a step and forgotten by a removal. */
    ghost predicate CanRemove()
      requires Valid()
      reads this, list, list.Repr()
    {
      index >= 0 && prev == if index > 0 then list.nodes[index - 1] else null
    }

    constructor (list: List<T>)
      requires list.Valid()
      ensures Valid() && this.list == list && index == -1
    {
      this.list := list;
      prev, element, index := null, null, -1;
    }

    predicate HasNext()
      reads this, list
    {
      index < list.count as int - 1
    }

    method Next() returns (data: T)
      requires Valid() && HasNext()
      modifies this
      ensures Valid() && CanRemove() && index == old(index) + 1 && data == list.Contents()[index]
    {
      assert LinkAt(list.head, list.nodes, 0);
      assert index >= 0 ==> LinkAt(list.head, list.nodes, index);
      prev := element;
      element := if index == -1 then list.head else prev.next;
      index := index + 1;
      data := element.data;
    }

    method Remove()
      requires Valid() && CanRemove()
      modifies this, list, list.Repr()`next
      ensures Valid() && index == old(index) - 1 && list.nodes == RemoveAt(old(list.nodes), old(index))
      ensures list.Contents() == RemoveAt(old(list.Contents()), old(index)) && list.Repr() <= old(list.Repr())
    {
      list.Unlink(prev, element, index);
      element := prev;
      prev := null;
      index := index - 1;
    }
  }

  /** The elements that the condition does not hold of, in their order. */
  function Kept<T>(s: seq<T>, drop: T -> bool): seq<T> {
    if s == [] then [] else Kept(s[..|s| - 1], drop) + if drop(s[|s| - 1]) then [] else [s[|s| - 1]]
  }

  lemma KeptNext<T>(s: seq<T>, p: nat, drop: T -> bool)
    requires p < |s|
    ensures var k := Kept(s[..p], drop);
            && (k + s[p..])[|k|] == s[p]
            && (drop(s[p]) ==> Kept(s[..p + 1], drop) == k && RemoveAt(k + s[p..], |k|) == k + s[p + 1..])
            && (!drop(s[p]) ==> Kept(s[..p + 1], drop) == k + [s[p]] && k + s[p..] == k + [s[p]] + s[p + 1..])
  {
    assert s[..p + 1][..p] == s[..p];
  }

  /** A walk that removes what the condition holds of leaves the rest, in its order: no element is skipped. */
  method RemoveAll<T>(list: List<T>, drop: T -> bool)
    requires list.Valid()
    modifies list, list.Repr()`next
    ensures list.Valid() && list.Contents() == Kept(old(list.Contents()), drop)
  {
    var it := new Iterator(list);
    hide Linked, Kept, Walked;
    ghost var was, p := list.Contents(), 0;
    WalkBegins(was, drop);
    while it.HasNext()
      invariant it.Valid() && it.list == list && fresh(it) && list.Repr() <= old(list.Repr())
      invariant p <= |was| && Walked(list.Contents(), was, p, it.index, drop)
      decreases |was| - p
    {
      WalkGoesOn(list.Contents(), was, p, it.index, drop);
      WalkStep(it, drop, was, p);
      p := p + 1;
    }
    WalkEnds(list.Contents(), was, p, it.index, drop);
  }

  lemma WalkBegins<T>(was: seq<T>, drop: T -> bool)
    ensures Walked(was, was, 0, -1, drop)
  {
    assert was[..0] == [] && [] + was[0..] == was;
  }

  lemma WalkGoesOn<T>(now: seq<T>, was: seq<T>, p: nat, index: int, drop: T -> bool)
    requires p <= |was| && Walked(now, was, p, index, drop) && index + 1 < |now|
    ensures p < |was|
  {
  }

  lemma WalkEnds<T>(now: seq<T>, was: seq<T>, p: nat, index: int, drop: T -> bool)
    requires p <= |was| && Walked(now, was, p, index, drop) && |now| <= index + 1
    ensures now == Kept(was, drop)
  {
    assert was[..|was|] == was && now + [] == now;
  }

  /** The elements before `p` have been looked at, and the walk stands at the last one that was kept. */
  ghost predicate Walked<T>(now: seq<T>, was: seq<T>, p: nat, index: int, drop: T -> bool)
    requires p <= |was|
  {
    now == Kept(was[..p], drop) + was[p..] && index + 1 == |Kept(was[..p], drop)|
  }

  method WalkStep<T>(it: Iterator<T>, drop: T -> bool, ghost was: seq<T>, ghost p: nat)
    requires it.Valid() && it.HasNext() && p < |was| && Walked(it.list.Contents(), was, p, it.index, drop)
    modifies it, it.list, it.list.Repr()`next
    ensures it.Valid() && it.list.Repr() <= old(it.list.Repr())
    ensures Walked(it.list.Contents(), was, p + 1, it.index, drop)
  {
    hide Kept, Linked;
    KeptNext(was, p, drop);
    var data := it.Next();
    if drop(data) {
      it.Remove();
    }
  }
}
