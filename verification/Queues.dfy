/** The planner's bounded queues of crew members, and walking over one while removing from it. */
module Queues {
  import opened Memory
  import opened CrewTable
  import opened Schedule
  import Lists

  class Queue {
    const maxSize: nat
    var data: seq<Word>
    var count: nat

    /** The count is the length, and a bounded queue keeps its bound. */
    ghost predicate Valid()
      reads this
    {
      count == |data| && (maxSize != 0 ==> count <= maxSize)
    }

    constructor (maxSize: nat)
      ensures Valid() && data == [] && this.maxSize == maxSize
    {
      this.maxSize := maxSize;
      data := [];
      count := 0;
    }

    predicate IsFull()
      reads this
    {
      maxSize != 0 && maxSize == count
    }

    /** A full queue swallows what is pushed. */
    method Push(tid: Word)
      requires Valid()
      modifies this
      ensures Valid() && data == if maxSize == 0 || |old(data)| < maxSize then old(data) + [tid] else old(data)
    {
      if maxSize == 0 || maxSize > count {
        count := count + 1;
        data := data + [tid];
      }
    }

    method Pop() returns (r: Option<Word>)
      requires Valid()
      modifies this
      ensures Valid()
      ensures if old(data) == [] then r == None && data == [] else r == Some(old(data)[0]) && data == old(data)[1..]
    {
      if count == 0 {
        return None;
      }
      count := count - 1;
      r := Some(data[0]);
      data := data[1..];
    }

    /** Takes the first member with this tid out of the queue. */
    method PopByTid(tid: Word) returns (r: Option<Word>)
      requires Valid()
      modifies this
      ensures Valid()
      ensures if tid in old(data) then r == Some(tid) && data == Without(old(data), tid) else r == None && data == old(data)
    {
      if count == 0 {
        return None;
      }
      var i := 0;
      while i < |data|
        invariant i <= |data| && data == old(data) && Valid() && tid !in data[..i]
      {
        if data[i] == tid {
          IndexIs(data, tid, i);
          count := count - 1;
          data := RemoveAt(data, i);
          return Some(tid);
        }
        assert data[..i + 1] == data[..i] + [data[i]];
        i := i + 1;
      }
      assert data[..i] == data;
      r := None;
    }

    /** Sorting as the list does it: the elements go one after the other into a new list, each before the first one that
        is not smaller. */
    method SortByLowestTid()
      requires Valid()
      modifies this`data
      ensures Valid() && data == SortTids(old(data))
    {
      var sorted := [];
      SortSize([], data);
      while data != []
        invariant SortInto(sorted, data) == SortTids(old(data)) && |sorted| + |data| == count
        decreases |data|
      {
        var tid := data[0];
        data := data[1..];
        sorted := InsertSorted(sorted, tid);
      }
      data := sorted;
    }
  }

  method InsertSorted(q: seq<Word>, tid: Word) returns (r: seq<Word>)
    ensures r == InsertTid(tid, q) && |r| == |q| + 1
  {
    var i := 0;
    while i < |q| && q[i] < tid
      invariant i <= |q| && InsertTid(tid, q) == q[..i] + InsertTid(tid, q[i..])
    {
      assert q[i..][1..] == q[i + 1..] && q[..i + 1] == q[..i] + [q[i]];
      i := i + 1;
    }
    assert q[..i] + ([tid] + q[i..]) == q[..i] + [tid] + q[i..];
    r := q[..i] + [tid] + q[i..];
  }

  lemma {:induction false} InsertSize(tid: Word, q: seq<Word>)
    ensures |InsertTid(tid, q)| == |q| + 1
  {
    if q != [] && q[0] < tid {
      InsertSize(tid, q[1..]);
    }
  }

  lemma {:induction false} SortSize(sorted: seq<Word>, q: seq<Word>)
    ensures |SortInto(sorted, q)| == |sorted| + |q|
    decreases |q|
  {
    if q != [] {
      InsertSize(q[0], sorted);
      SortSize(InsertTid(q[0], sorted), q[1..]);
    }
  }

  /** This is the list's own sort, by the comparator that the planner gives it. */
  lemma {:induction false} SortIsTheLists(sorted: seq<Word>, q: seq<Word>)
    ensures SortInto(sorted, q) == Lists.SortInto(TidBefore, sorted, q)
    decreases |q|
  {
    if q != [] {
      InsertIsTheLists(sorted, 0, q[0]);
      assert sorted[..0] == [] && sorted[0..] == sorted && [] + InsertTid(q[0], sorted) == InsertTid(q[0], sorted);
      SortIsTheLists(InsertTid(q[0], sorted), q[1..]);
    }
  }

  predicate TidBefore(a: Word, b: Word) {
    a < b
  }

  lemma {:induction false} InsertIsTheLists(s: seq<Word>, i: nat, tid: Word)
    requires i <= |s|
    ensures s[..i] + InsertTid(tid, s[i..]) == Lists.InsertAt(s, Lists.Cut(s, i, Lists.NotBefore(TidBefore, tid)), tid)
    decreases |s| - i
  {
    if i < |s| {
      assert Lists.NotBefore(TidBefore, tid)(s[i], i) <==> s[i] >= tid;
    }
    if i < |s| && s[i] < tid {
      InsertIsTheLists(s, i + 1, tid);
      assert InsertTid(tid, s[i..]) == [s[i]] + InsertTid(tid, s[i + 1..]);
      assert s[..i + 1] == s[..i] + [s[i]];
      assert s[..i] + ([s[i]] + InsertTid(tid, s[i + 1..])) == s[..i] + [s[i]] + InsertTid(tid, s[i + 1..]);
    } else {
      assert s[..i] + ([tid] + s[i..]) == s[..i] + [tid] + s[i..];
    }
  }

  lemma IndexIs(q: seq<Word>, tid: Word, i: nat)
    requires i < |q| && q[i] == tid && tid !in q[..i]
    ensures IndexOf(q, tid) == i
  {
    forall j | 0 <= j < i ensures q[j] != tid {
      assert q[..i][j] == q[j];
    }
  }

  /** A walk over a queue. `at` is the position of the member returned last; removing it takes the walk back by one, so
      that the next member is not skipped. */
  class Walk {
    const queue: Queue
    var at: int

    ghost predicate Valid()
      reads this, queue
    {
      queue.Valid() && -1 <= at < |queue.data|
    }

    /** The position of the next member. */
    function Next(): int
      reads this
    {
      at + 1
    }

    constructor (queue: Queue)
      requires queue.Valid()
      ensures Valid() && this.queue == queue && Next() == 0
    {
      this.queue := queue;
      at := -1;
    }

    predicate HasNext()
      reads this, queue
    {
      at < queue.count as int - 1
    }

    method Advance() returns (tid: Word)
      requires Valid() && HasNext()
      modifies this
      ensures Valid() && at == old(at) + 1 && at >= 0 && tid == queue.data[at]
    {
      at := at + 1;
      tid := queue.data[at];
    }

    method Remove()
      requires Valid() && at >= 0
      modifies this, queue
      ensures Valid() && at == old(at) - 1 && old(at) < |old(queue.data)| && queue.data == RemoveAt(old(queue.data), old(at))
    {
      queue.count := queue.count - 1;
      queue.data := RemoveAt(queue.data, at);
      at := at - 1;
    }
  }

  /** Walks over a queue and removes the member if it is there. */
  method RemoveFrom(q: Queue, tid: Word) returns (found: bool)
    requires q.Valid()
    modifies q
    ensures q.Valid() && found == (tid in old(q.data))
    ensures q.data == if found then Without(old(q.data), tid) else old(q.data)
  {
    var it := new Walk(q);
    found := false;
    while it.HasNext() && !found
      invariant it.Valid() && it.queue == q && fresh(it)
      invariant if found then tid in old(q.data) && q.data == Without(old(q.data), tid)
                else q.data == old(q.data) && tid !in q.data[..it.Next()]
      decreases !found, |q.data| - it.at
    {
      var next := it.Advance();
      if next == tid {
        IndexIs(q.data, tid, it.at);
        it.Remove();
        found := true;
      } else {
        assert q.data[..it.at + 1] == q.data[..it.at] + [next];
      }
    }
    if !found {
      assert q.data[..it.Next()] == q.data;
    }
  }
}
