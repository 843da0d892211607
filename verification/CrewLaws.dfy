/** What the operations on the crew table do, in terms of what can be read back from it: who is there, each member's
    record, the next task, and the listing. */
module CrewLaws {
  import opened Memory
  import opened CrewTable
  import Text

  /** No pid and no tid of a patota occurs twice. */
  ghost predicate Distinct(t: Table) {
    DistinctPids(t) && forall i :: 0 <= i < |t| ==> DistinctTids(t[i])
  }

  /** How many seats of a patota nobody has taken yet. */
  function SeatsLeft(t: Table, pid: Word): int
    requires HasPid(t, pid)
  {
    var i := FindPid(Pids(t), pid);
    t[i].capacity - t[i].started
  }

  /** The task text of a patota. */
  function TasksOf(t: Table, pid: Word): seq<Byte>
    requires HasPid(t, pid)
  {
    t[FindPid(Pids(t), pid)].tasks
  }

  /** Patotas, their texts and the members are the same; records may differ. */
  ghost predicate SameCrews(t: Table, t': Table) {
    && (forall p {:trigger HasPid(t', p)} :: HasPid(t', p) <==> HasPid(t, p))
    && (forall p {:trigger TasksOf(t', p)} :: HasPid(t, p) && HasPid(t', p) ==>
          TasksOf(t', p) == TasksOf(t, p) && SeatsLeft(t', p) == SeatsLeft(t, p))
    && (forall p, q {:trigger HasMember(t', p, q)} :: HasMember(t', p, q) <==> HasMember(t, p, q))
  }

  /** The records of all members but this one are the same. */
  ghost predicate SameBut(t: Table, t': Table, pid: Word, tid: Word) {
    forall p, q {:trigger Lookup(t', p, q)} :: (p != pid || q != tid) && HasMember(t, p, q) && HasMember(t', p, q) ==>
      Lookup(t', p, q) == Lookup(t, p, q)
  }

  // ----- Changing a record ----------------------------------------------------------------------------------

  lemma {:induction false} SameTids(crew: seq<Member>, crew': seq<Member>, tid: Word)
    requires |crew'| == |crew| && forall k :: 0 <= k < |crew| ==> crew'[k].tid == crew[k].tid
    ensures FindTid(crew', tid) == FindTid(crew, tid)
  {
  }

  /** Replacing a member's record by one with the same tid. */
  lemma RecordSet(t: Table, pid: Word, tid: Word, m: Member, t': Table)
    requires HasMember(t, pid, tid) && m.tid == tid
    requires var i := FindPid(Pids(t), pid); t' == SetMember(t, i, FindTid(t[i].crew, tid), m)
    ensures SameCrews(t, t') && SameBut(t, t', pid, tid)
    ensures HasMember(t', pid, tid) && Lookup(t', pid, tid) == m
  {
    assert Pids(t') == Pids(t);
    var i := FindPid(Pids(t), pid);
    forall q ensures FindTid(t'[i].crew, q) == FindTid(t[i].crew, q) {
      SameTids(t[i].crew, t'[i].crew, q);
    }
    hide FindTid, Pids, SeatsLeft;
    assert forall p :: HasPid(t, p) && HasPid(t', p) ==> SeatsLeft(t', p) == SeatsLeft(t, p) by {
      SeatsSame(t, t');
    }
  }

  lemma SeatsSame(t: Table, t': Table)
    requires Pids(t') == Pids(t) && |t'| == |t|
    requires forall i :: 0 <= i < |t| ==> t'[i].capacity == t[i].capacity && t'[i].started == t[i].started
    ensures forall p :: HasPid(t, p) && HasPid(t', p) ==> SeatsLeft(t', p) == SeatsLeft(t, p)
  {
  }

  /** After an update of its position a member is where the update says; all else is read back as before. */
  lemma MoveLaw(t: Table, pid: Word, tid: Word, x: Word, y: Word)
    requires HasMember(t, pid, tid)
    ensures var t', m := Move(t, pid, tid, x, y), Lookup(t, pid, tid);
      && SameCrews(t, t') && SameBut(t, t', pid, tid)
      && HasMember(t', pid, tid) && Lookup(t', pid, tid) == Member(tid, m.state, x, y, m.next)
      && NextTask(t', pid, tid) == NextTask(t, pid, tid)
  {
    RecordSet(t, pid, tid, Lookup(t, pid, tid).(x := x, y := y), Move(t, pid, tid, x, y));
    assert TasksOf(Move(t, pid, tid, x, y), pid) == TasksOf(t, pid);
  }

  /** The same for its state. */
  lemma SetStateLaw(t: Table, pid: Word, tid: Word, state: Byte)
    requires HasMember(t, pid, tid)
    ensures var t', m := SetState(t, pid, tid, state), Lookup(t, pid, tid);
      && SameCrews(t, t') && SameBut(t, t', pid, tid)
      && HasMember(t', pid, tid) && Lookup(t', pid, tid) == Member(tid, state, m.x, m.y, m.next)
      && NextTask(t', pid, tid) == NextTask(t, pid, tid)
  {
    RecordSet(t, pid, tid, Lookup(t, pid, tid).(state := state), SetState(t, pid, tid, state));
    assert TasksOf(SetState(t, pid, tid, state), pid) == TasksOf(t, pid);
  }

  /** Handing out a task moves this member on by one, if there was a task, and nobody else. */
  lemma AdvanceLaw(t: Table, pid: Word, tid: Word)
    requires HasMember(t, pid, tid) && Lookup(t, pid, tid).next + 1 < 0x1_0000_0000
    ensures var t', m := Advance(t, pid, tid), Lookup(t, pid, tid);
      && SameCrews(t, t') && SameBut(t, t', pid, tid) && HasMember(t', pid, tid)
      && Lookup(t', pid, tid) == Member(tid, m.state, m.x, m.y, if NextTask(t, pid, tid).Some? then m.next + 1 else m.next)
  {
    if NextTask(t, pid, tid).Some? {
      RecordSet(t, pid, tid, Lookup(t, pid, tid).(next := Lookup(t, pid, tid).next + 1), Advance(t, pid, tid));
    }
  }

  // ----- Arriving and leaving -----------------------------------------------------------------------------------

  /** A new patota has its seats free and nobody in it; nothing else has changed. */
  lemma AdmitLaw(t: Table, pid: Word, capacity: nat, tasks: seq<Byte>)
    requires !HasPid(t, pid)
    ensures var t' := Admit(t, pid, capacity, tasks);
      && HasPid(t', pid) && TasksOf(t', pid) == tasks && SeatsLeft(t', pid) == capacity
      && (forall q :: !HasMember(t', pid, q) && (CanStart(t', pid, q) <==> capacity > 0))
      && (forall p :: p != pid ==> (HasPid(t', p) <==> HasPid(t, p)))
      && (forall p :: HasPid(t, p) ==> TasksOf(t', p) == TasksOf(t, p) && SeatsLeft(t', p) == SeatsLeft(t, p))
      && (forall p, q :: HasMember(t', p, q) <==> HasMember(t, p, q))
      && (forall p, q :: HasMember(t, p, q) ==> Lookup(t', p, q) == Lookup(t, p, q))
      && Listing(t') == Listing(t)
  {
    var g := Group(pid, capacity, tasks, 0, []);
    assert Pids(Admit(t, pid, capacity, tasks)) == Pids(t) + [pid];
    forall p ensures FindPid(Pids(t) + [pid], p) == if HasPid(t, p) || p != pid then
                       (if HasPid(t, p) then FindPid(Pids(t), p) else |t| + 1) else |t| {
      FindAppended(Pids(t), pid, p);
    }
    ListingSnoc(t, g);
    assert Listing(t) + CrewEntries(pid, []) == Listing(t);
  }

  lemma FindAppended(pids: seq<Word>, pid: Word, p: Word)
    ensures FindPid(pids + [pid], p) ==
            if FindPid(pids, p) < |pids| then FindPid(pids, p) else if p == pid then |pids| else |pids| + 1
  {
    assert forall k :: 0 <= k < |pids| ==> (pids + [pid])[k] == pids[k];
    assert (pids + [pid])[|pids|] == pid;
  }

  /** A started member is there, in state 'N', at its place, with the first task to come; a seat has been taken, and nothing
      else has changed. */
  lemma StartLaw(t: Table, pid: Word, tid: Word, x: Word, y: Word)
    requires CanStart(t, pid, tid)
    ensures HasPid(t, pid) && !HasMember(t, pid, tid)
    ensures var t' := Start(t, pid, tid, x, y);
      && HasMember(t', pid, tid) && Lookup(t', pid, tid) == Member(tid, 78, x, y, 0)
      && SameBut(t, t', pid, tid)
      && (forall p :: HasPid(t', p) <==> HasPid(t, p))
      && (forall p :: HasPid(t, p) ==>
            TasksOf(t', p) == TasksOf(t, p) && SeatsLeft(t', p) == SeatsLeft(t, p) - if p == pid then 1 else 0)
      && (forall p, q :: HasMember(t', p, q) <==> HasMember(t, p, q) || (p == pid && q == tid))
  {
    var i, t' := FindPid(Pids(t), pid), Start(t, pid, tid, x, y);
    assert Pids(t') == Pids(t);
    forall q ensures FindTid(t'[i].crew, q) ==
                     if FindTid(t[i].crew, q) < |t[i].crew| then FindTid(t[i].crew, q)
                     else if q == tid then |t[i].crew| else |t[i].crew| + 1 {
      TidAppended(t[i].crew, Member(tid, STATE_NEW, x, y, 0), q);
    }
  }

  lemma TidAppended(crew: seq<Member>, m: Member, q: Word)
    ensures FindTid(crew + [m], q) ==
            if FindTid(crew, q) < |crew| then FindTid(crew, q) else if q == m.tid then |crew| else |crew| + 1
  {
    assert forall k :: 0 <= k < |crew| ==> (crew + [m])[k] == crew[k];
    assert (crew + [m])[|crew|] == m;
  }

  /** An expelled member is gone, with the last one the patota; everybody else is read back as before. */
  lemma ExpelLaw(t: Table, pid: Word, tid: Word)
    requires Distinct(t) && HasMember(t, pid, tid)
    ensures var t' := Expel(t, pid, tid);
      && Distinct(t') && SameBut(t, t', pid, tid)
      && (forall p, q :: HasMember(t', p, q) <==> HasMember(t, p, q) && !(p == pid && q == tid))
      && (forall p :: p != pid ==> (HasPid(t', p) <==> HasPid(t, p)))
      && (HasPid(t', pid) <==> exists q :: q != tid && HasMember(t, pid, q))
      && (forall p :: HasPid(t', p) && HasPid(t, p) ==> TasksOf(t', p) == TasksOf(t, p) && SeatsLeft(t', p) == SeatsLeft(t, p))
  {
    if |t[FindPid(Pids(t), pid)].crew| == 1 {
      LastGone(t, pid, tid);
    } else {
      OneGone(t, pid, tid);
    }
  }

  lemma LastGone(t: Table, pid: Word, tid: Word)
    requires Distinct(t) && HasMember(t, pid, tid) && |t[FindPid(Pids(t), pid)].crew| == 1
    ensures var t' := Expel(t, pid, tid);
      && Distinct(t') && SameBut(t, t', pid, tid) && !HasPid(t', pid) && !(exists q :: q != tid && HasMember(t, pid, q))
      && (forall p :: p != pid ==> (HasPid(t', p) <==> HasPid(t, p)))
      && (forall p :: p != pid && HasPid(t, p) ==> TasksOf(t', p) == TasksOf(t, p) && SeatsLeft(t', p) == SeatsLeft(t, p))
      && (forall p, q :: HasMember(t', p, q) <==> HasMember(t, p, q) && !(p == pid && q == tid))
  {
    var i, t' := FindPid(Pids(t), pid), Expel(t, pid, tid);
    assert t' == t[..i] + t[i + 1..];
    hide Expel;
    RemovedGroup(t, t', i);
    forall p ensures p == pid ==> !HasPid(t', p)
      ensures p != pid ==> (HasPid(t', p) <==> HasPid(t, p))
      ensures p != pid && HasPid(t, p) && HasPid(t', p) ==> t'[FindPid(Pids(t'), p)] == t[FindPid(Pids(t), p)] {
      GroupRemoved(t, t', i, p);
    }
  }

  lemma RemovedGroup(t: Table, t': Table, i: nat)
    requires Distinct(t) && i < |t| && t' == t[..i] + t[i + 1..]
    ensures Distinct(t')
  {
    forall k | 0 <= k < |t'| ensures DistinctTids(t'[k]) {
      assert t'[k] == t[if k < i then k else k + 1];
    }
  }

  lemma GroupRemoved(t: Table, t': Table, i: nat, p: Word)
    requires DistinctPids(t) && i < |t| && t' == t[..i] + t[i + 1..]
    ensures p == t[i].pid ==> !HasPid(t', p)
    ensures p != t[i].pid ==> (HasPid(t', p) <==> HasPid(t, p))
    ensures p != t[i].pid && HasPid(t, p) && HasPid(t', p) ==> t'[FindPid(Pids(t'), p)] == t[FindPid(Pids(t), p)]
  {
    forall k | 0 <= k < |t'| ensures t'[k] == t[if k < i then k else k + 1] && Pids(t')[k] == t'[k].pid {
    }
    var k := FindPid(Pids(t), p);
    if k < |t| && k != i {
      assert Pids(t')[if k < i then k else k - 1] == p;
    }
  }

  lemma OneGone(t: Table, pid: Word, tid: Word)
    requires Distinct(t) && HasMember(t, pid, tid) && |t[FindPid(Pids(t), pid)].crew| > 1
    ensures var t' := Expel(t, pid, tid);
      && Distinct(t') && SameBut(t, t', pid, tid) && HasPid(t', pid) && (exists q :: q != tid && HasMember(t, pid, q))
      && (forall p :: HasPid(t', p) <==> HasPid(t, p))
      && (forall p :: HasPid(t, p) ==> TasksOf(t', p) == TasksOf(t, p) && SeatsLeft(t', p) == SeatsLeft(t, p))
      && (forall p, q :: HasMember(t', p, q) <==> HasMember(t, p, q) && !(p == pid && q == tid))
  {
    var i := FindPid(Pids(t), pid);
    var crew, k := t[i].crew, FindTid(t[i].crew, tid);
    var crew' := crew[..k] + crew[k + 1..];
    var t' := t[i := t[i].(crew := crew')];
    assert Expel(t, pid, tid) == t' && DistinctTids(t[i]);
    hide Expel;
    forall q ensures FindTid(crew', q) < |crew'| <==> FindTid(crew, q) < |crew| && q != tid
      ensures FindTid(crew', q) < |crew'| && FindTid(crew, q) < |crew| ==> crew'[FindTid(crew', q)] == crew[FindTid(crew, q)] {
      TidRemoved(crew, k, q);
    }
    CrewShrunk(t, t', i, tid, crew');
    RemovedDistinct(t, t', i, k);
    Another(t, pid, tid);
  }

  lemma RemovedDistinct(t: Table, t': Table, i: nat, k: nat)
    requires Distinct(t) && i < |t| && k < |t[i].crew| && t' == t[i := t[i].(crew := t[i].crew[..k] + t[i].crew[k + 1..])]
    ensures Distinct(t')
  {
    forall j | 0 <= j < |t'| ensures DistinctTids(t'[j]) {
      assert DistinctTids(t[j]);
    }
  }

  lemma Another(t: Table, pid: Word, tid: Word)
    requires Distinct(t) && HasMember(t, pid, tid) && |t[FindPid(Pids(t), pid)].crew| > 1
    ensures exists q :: q != tid && HasMember(t, pid, q)
  {
    var i := FindPid(Pids(t), pid);
    var k := if FindTid(t[i].crew, tid) == 0 then 1 else 0;
    assert DistinctTids(t[i]);
    FoundAt(t, i, k);
    assert HasMember(t, pid, t[i].crew[k].tid);
  }

  /** One patota's crew without this member. */
  lemma CrewShrunk(t: Table, t': Table, i: nat, tid: Word, crew': seq<Member>)
    requires i < |t| && i == FindPid(Pids(t), t[i].pid) && t' == t[i := t[i].(crew := crew')]
    requires forall q :: FindTid(crew', q) < |crew'| <==> FindTid(t[i].crew, q) < |t[i].crew| && q != tid
    requires forall q :: FindTid(crew', q) < |crew'| && FindTid(t[i].crew, q) < |t[i].crew| ==>
               crew'[FindTid(crew', q)] == t[i].crew[FindTid(t[i].crew, q)]
    ensures SameBut(t, t', t[i].pid, tid)
    ensures forall p :: HasPid(t', p) <==> HasPid(t, p)
    ensures forall p :: HasPid(t, p) ==> TasksOf(t', p) == TasksOf(t, p) && SeatsLeft(t', p) == SeatsLeft(t, p)
    ensures forall p, q :: HasMember(t', p, q) <==> HasMember(t, p, q) && !(p == t[i].pid && q == tid)
  {
    assert Pids(t') == Pids(t);
  }

  lemma TidRemoved(crew: seq<Member>, k: nat, q: Word)
    requires k < |crew| && forall a, b :: 0 <= a < b < |crew| ==> crew[a].tid != crew[b].tid
    ensures var crew' := crew[..k] + crew[k + 1..];
      && (FindTid(crew', q) < |crew'| <==> FindTid(crew, q) < |crew| && q != crew[k].tid)
      && (FindTid(crew', q) < |crew'| && FindTid(crew, q) < |crew| ==> crew'[FindTid(crew', q)] == crew[FindTid(crew, q)])
  {
    var crew' := crew[..k] + crew[k + 1..];
    forall n | 0 <= n < |crew'| ensures crew'[n] == crew[if n < k then n else n + 1] {
    }
    var a := FindTid(crew, q);
    if a < |crew| && a != k {
      assert crew'[if a < k then a else a - 1] == crew[a];
    }
  }

  // ----- The listing --------------------------------------------------------------------------------------------

  /** How many members the first `n` patotas have together. */
  function Before(t: Table, n: nat): nat
    requires n <= |t|
  {
    if n == 0 then 0 else Before(t, n - 1) + |t[n - 1].crew|
  }

  lemma {:induction false} BeforeCons(t: Table, n: nat)
    requires t != [] && n < |t|
    ensures Before(t, n + 1) == |t[0].crew| + Before(t[1..], n)
  {
    if n > 0 {
      BeforeCons(t, n - 1);
    }
  }

  /** The listing has every member once: patotas in admission order, and in each the members in starting order. */
  lemma {:induction false} ListingAt(t: Table, i: nat, k: nat)
    requires i < |t| && k < |t[i].crew|
    ensures Before(t, i) + k < |Listing(t)|
    ensures var m := t[i].crew[k]; Listing(t)[Before(t, i) + k] == Entry(t[i].pid, m.tid, m.state, m.x, m.y)
  {
    if i > 0 {
      BeforeCons(t, i - 1);
      ListingAt(t[1..], i - 1, k);
    }
  }

  lemma {:induction false} ListingSize(t: Table)
    ensures |Listing(t)| == Before(t, |t|)
  {
    if t != [] {
      BeforeCons(t, |t| - 1);
      ListingSize(t[1..]);
    }
  }

  /** Every place of the listing is some member's. */
  lemma {:induction false} ListingFrom(t: Table, n: nat) returns (i: nat, k: nat)
    requires n < |Listing(t)|
    ensures i < |t| && k < |t[i].crew| && n == Before(t, i) + k
  {
    if n < |t[0].crew| {
      i, k := 0, n;
    } else {
      i, k := ListingFrom(t[1..], n - |t[0].crew|);
      BeforeCons(t, i);
      i := i + 1;
    }
  }

  /** A member's record as it is listed. */
  function EntryOf(t: Table, pid: Word, tid: Word): Entry
    requires HasMember(t, pid, tid)
  {
    var m := Lookup(t, pid, tid);
    Entry(pid, tid, m.state, m.x, m.y)
  }

  /** What the listing says of somebody is what a lookup says, and it says it of everybody. */
  lemma ListingIs(t: Table, e: Entry)
    requires Distinct(t)
    ensures e in Listing(t) <==> HasMember(t, e.pid, e.tid) && e == EntryOf(t, e.pid, e.tid)
  {
    if e in Listing(t) {
      var n :| 0 <= n < |Listing(t)| && Listing(t)[n] == e;
      var i, k := ListingFrom(t, n);
      ListingAt(t, i, k);
      FoundAt(t, i, k);
    }
    if HasMember(t, e.pid, e.tid) {
      var i := FindPid(Pids(t), e.pid);
      ListingAt(t, i, FindTid(t[i].crew, e.tid));
    }
  }

  lemma FoundAt(t: Table, i: nat, k: nat)
    requires Distinct(t) && i < |t| && k < |t[i].crew|
    ensures HasMember(t, t[i].pid, t[i].crew[k].tid) && Lookup(t, t[i].pid, t[i].crew[k].tid) == t[i].crew[k]
    ensures FindPid(Pids(t), t[i].pid) == i && FindTid(t[i].crew, t[i].crew[k].tid) == k
  {
    assert Pids(t)[i] == t[i].pid && DistinctTids(t[i]);
  }

  /** Where a record has been replaced, the listing changes in that member's place only. */
  lemma RecordListed(t: Table, pid: Word, tid: Word, m: Member, t': Table)
    requires Distinct(t) && HasMember(t, pid, tid) && m.tid == tid
    requires var i := FindPid(Pids(t), pid); t' == SetMember(t, i, FindTid(t[i].crew, tid), m)
    ensures Distinct(t') && |Listing(t')| == |Listing(t)|
    ensures forall n :: 0 <= n < |Listing(t)| ==>
      Listing(t')[n] == if Listing(t)[n].pid == pid && Listing(t)[n].tid == tid then Entry(pid, tid, m.state, m.x, m.y)
                        else Listing(t)[n]
  {
    var i := FindPid(Pids(t), pid);
    var k := FindTid(t[i].crew, tid);
    hide Listing, CrewEntries;
    ListingSize(t);
    ListingSize(t');
    BeforeSame(t, t', |t|);
    forall n | 0 <= n < |Listing(t)|
      ensures Listing(t')[n] == if Listing(t)[n].pid == pid && Listing(t)[n].tid == tid then Entry(pid, tid, m.state, m.x, m.y)
                                else Listing(t)[n]
    {
      RecordListedAt(t, t', i, k, m, n);
    }
    RecordDistinct(t, t', i, k, m);
  }

  lemma RecordListedAt(t: Table, t': Table, i: nat, k: nat, m: Member, n: nat)
    requires Distinct(t) && i < |t| && k < |t[i].crew| && m.tid == t[i].crew[k].tid && t' == SetMember(t, i, k, m)
    requires n < |Listing(t)| && |Listing(t')| == |Listing(t)|
    ensures Listing(t')[n] == if Listing(t)[n].pid == t[i].pid && Listing(t)[n].tid == m.tid
                              then Entry(t[i].pid, m.tid, m.state, m.x, m.y) else Listing(t)[n]
  {
    hide Listing, CrewEntries;
    var a, b := ListingFrom(t, n);
    ListingAt(t, a, b);
    BeforeSame(t, t', a);
    ListingAt(t', a, b);
    FoundAt(t, a, b);
    FoundAt(t, i, k);
  }

  lemma RecordDistinct(t: Table, t': Table, i: nat, k: nat, m: Member)
    requires Distinct(t) && i < |t| && k < |t[i].crew| && m.tid == t[i].crew[k].tid && t' == SetMember(t, i, k, m)
    ensures Distinct(t')
  {
    forall j | 0 <= j < |t'| ensures DistinctTids(t'[j]) {
      assert DistinctTids(t[j]);
    }
  }

  lemma {:induction false} BeforeSame(t: Table, t': Table, n: nat)
    requires |t'| == |t| && n <= |t| && forall i :: 0 <= i < |t| ==> |t'[i].crew| == |t[i].crew|
    ensures Before(t', n) == Before(t, n)
  {
    if n > 0 {
      BeforeSame(t, t', n - 1);
    }
  }

  /** The listing shows an updated position in the member's place, and everything else as before. */
  lemma MoveListed(t: Table, pid: Word, tid: Word, x: Word, y: Word)
    requires Distinct(t) && HasMember(t, pid, tid)
    ensures var l, l' := Listing(t), Listing(Move(t, pid, tid, x, y));
      && Distinct(Move(t, pid, tid, x, y)) && |l'| == |l|
      && forall n :: 0 <= n < |l| ==>
           l'[n] == if l[n].pid == pid && l[n].tid == tid then Entry(pid, tid, Lookup(t, pid, tid).state, x, y) else l[n]
  {
    RecordListed(t, pid, tid, Lookup(t, pid, tid).(x := x, y := y), Move(t, pid, tid, x, y));
  }

  lemma SetStateListed(t: Table, pid: Word, tid: Word, state: Byte)
    requires Distinct(t) && HasMember(t, pid, tid)
    ensures var l, l', m := Listing(t), Listing(SetState(t, pid, tid, state)), Lookup(t, pid, tid);
      && Distinct(SetState(t, pid, tid, state)) && |l'| == |l|
      && forall n :: 0 <= n < |l| ==> l'[n] == if l[n].pid == pid && l[n].tid == tid then Entry(pid, tid, state, m.x, m.y) else l[n]
  {
    RecordListed(t, pid, tid, Lookup(t, pid, tid).(state := state), SetState(t, pid, tid, state));
  }

  /** A task handed out does not show. */
  lemma AdvanceListed(t: Table, pid: Word, tid: Word)
    requires Distinct(t) && HasMember(t, pid, tid) && Lookup(t, pid, tid).next + 1 < 0x1_0000_0000
    ensures Distinct(Advance(t, pid, tid)) && Listing(Advance(t, pid, tid)) == Listing(t)
  {
    if NextTask(t, pid, tid).Some? {
      var m := Lookup(t, pid, tid);
      RecordListed(t, pid, tid, m.(next := m.next + 1), Advance(t, pid, tid));
      forall n | 0 <= n < |Listing(t)| ensures Listing(Advance(t, pid, tid))[n] == Listing(t)[n] {
        ListingIs(t, Listing(t)[n]);
      }
    }
  }

  lemma {:induction false} ListingConcat(a: Table, b: Table)
    ensures Listing(a + b) == Listing(a) + Listing(b)
  {
    if a == [] {
      assert a + b == b;
    } else {
      assert (a + b)[1..] == a[1..] + b;
      ListingConcat(a[1..], b);
    }
  }

  lemma ListingOne(g: Group)
    ensures Listing([g]) == CrewEntries(g.pid, g.crew)
  {
    assert [g][1..] == [] && CrewEntries(g.pid, g.crew) + [] == CrewEntries(g.pid, g.crew);
  }

  lemma CutAt<T>(s: seq<T>, i: nat)
    requires i < |s|
    ensures s == s[..i] + [s[i]] + s[i + 1..]
  {
  }

  lemma ListingCut(t: Table, i: nat)
    requires i < |t|
    ensures Listing(t) == Listing(t[..i]) + CrewEntries(t[i].pid, t[i].crew) + Listing(t[i + 1..])
  {
    hide Listing, CrewEntries;
    CutAt(t, i);
    ListingConcat(t[..i] + [t[i]], t[i + 1..]);
    ListingConcat(t[..i], [t[i]]);
    ListingOne(t[i]);
  }

  lemma EntriesConcat(pid: Word, a: seq<Member>, b: seq<Member>)
    ensures CrewEntries(pid, a + b) == CrewEntries(pid, a) + CrewEntries(pid, b)
  {
  }

  lemma EntriesOne(pid: Word, m: Member)
    ensures CrewEntries(pid, [m]) == [Entry(pid, m.tid, m.state, m.x, m.y)]
  {
  }

  /** A started member is listed behind the others of its patota. */
  lemma StartListed(t: Table, pid: Word, tid: Word, x: Word, y: Word) returns (front: seq<Entry>, back: seq<Entry>)
    requires Distinct(t) && CanStart(t, pid, tid)
    ensures Distinct(Start(t, pid, tid, x, y))
    ensures Listing(t) == front + back && Listing(Start(t, pid, tid, x, y)) == front + [Entry(pid, tid, 78, x, y)] + back
    ensures forall e :: e in back ==> e.pid != pid
  {
    var i, t' := FindPid(Pids(t), pid), Start(t, pid, tid, x, y);
    StartedDistinct(t, pid, tid, x, y);
    var m := Member(tid, STATE_NEW, x, y, 0);
    assert t'[i].crew == t[i].crew + [m] && t'[i].pid == t[i].pid == pid;
    assert t'[..i] == t[..i] && t'[i + 1..] == t[i + 1..];
    hide Listing, CrewEntries, Start;
    ListingCut(t, i);
    ListingCut(t', i);
    EntriesConcat(pid, t[i].crew, [m]);
    EntriesOne(pid, m);
    front, back := Listing(t[..i]) + CrewEntries(pid, t[i].crew), Listing(t[i + 1..]);
    AddedBetween(Listing(t[..i]), CrewEntries(pid, t[i].crew), Entry(pid, tid, 78, x, y), back);
    OthersBehind(t, i);
  }

  lemma AddedBetween(a: seq<Entry>, b: seq<Entry>, e: Entry, c: seq<Entry>)
    ensures a + (b + [e]) + c == a + b + [e] + c
  {
  }

  lemma StartedDistinct(t: Table, pid: Word, tid: Word, x: Word, y: Word)
    requires Distinct(t) && CanStart(t, pid, tid)
    ensures Distinct(Start(t, pid, tid, x, y))
  {
    var t' := Start(t, pid, tid, x, y);
    forall j | 0 <= j < |t'| ensures DistinctTids(t'[j]) {
      assert DistinctTids(t[j]);
    }
  }

  lemma OthersBehind(t: Table, i: nat)
    requires DistinctPids(t) && i < |t|
    ensures forall e :: e in Listing(t[i + 1..]) ==> e.pid != t[i].pid
  {
    var rest := t[i + 1..];
    forall e | e in Listing(rest) ensures e.pid != t[i].pid {
      var n :| 0 <= n < |Listing(rest)| && Listing(rest)[n] == e;
      var j, k := ListingFrom(rest, n);
      ListingAt(rest, j, k);
      assert rest[j] == t[i + 1 + j];
    }
  }

  /** An expelled member is taken out of the listing, and the others stay in order. */
  lemma ExpelListed(t: Table, pid: Word, tid: Word) returns (front: seq<Entry>, back: seq<Entry>)
    requires Distinct(t) && HasMember(t, pid, tid)
    ensures Listing(t) == front + [EntryOf(t, pid, tid)] + back && Listing(Expel(t, pid, tid)) == front + back
  {
    var i := FindPid(Pids(t), pid);
    var crew, k := t[i].crew, FindTid(t[i].crew, tid);
    var a, b := crew[..k], crew[k + 1..];
    front, back := Listing(t[..i]) + CrewEntries(pid, a), CrewEntries(pid, b) + Listing(t[i + 1..]);
    assert crew == a + [crew[k]] + b && t[i].pid == pid;
    ExpelCuts(t, pid, tid, i, a + b);
    hide Listing, CrewEntries, Expel;
    ListingCut(t, i);
    EntriesConcat(pid, a + [crew[k]], b);
    EntriesConcat(pid, a, [crew[k]]);
    EntriesOne(pid, crew[k]);
    EntriesConcat(pid, a, b);
    CutOut(Listing(t[..i]), CrewEntries(pid, a), [EntryOf(t, pid, tid)], CrewEntries(pid, b), Listing(t[i + 1..]));
  }

  lemma CutOut(p: seq<Entry>, a: seq<Entry>, e: seq<Entry>, b: seq<Entry>, q: seq<Entry>)
    ensures p + (a + e + b) + q == p + a + e + (b + q)
    ensures p + (a + b) + q == p + a + (b + q)
  {
  }

  lemma ExpelCuts(t: Table, pid: Word, tid: Word, i: nat, rest: seq<Member>)
    requires HasMember(t, pid, tid) && i == FindPid(Pids(t), pid)
    requires var k := FindTid(t[i].crew, tid); rest == t[i].crew[..k] + t[i].crew[k + 1..]
    ensures Listing(Expel(t, pid, tid)) == Listing(t[..i]) + CrewEntries(pid, rest) + Listing(t[i + 1..])
  {
    var t' := Expel(t, pid, tid);
    if |t[i].crew| == 1 {
      assert CrewEntries(pid, rest) == [];
      assert Listing(t[..i]) + [] == Listing(t[..i]);
      hide Listing, CrewEntries;
      ListingConcat(t[..i], t[i + 1..]);
    } else {
      assert t'[..i] == t[..i] && t'[i + 1..] == t[i + 1..] && t'[i].crew == rest && t'[i].pid == pid;
      hide Listing, CrewEntries, Expel;
      ListingCut(t', i);
    }
  }

  // ----- Tasks ------------------------------------------------------------------------------------------------------

  /** The pieces with a separator between them. */
  function Join<T>(pieces: seq<seq<T>>, sep: T): seq<T> {
    if pieces == [] then [] else if |pieces| == 1 then pieces[0] else pieces[0] + [sep] + Join(pieces[1..], sep)
  }

  /** The lines are the text: put together with newlines they give it back, and no line has one. */
  lemma LinesAreText(text: seq<Byte>)
    ensures Join(Lines(text), 10) == text
    ensures forall k :: 0 <= k < |Lines(text)| ==> 10 !in Lines(text)[k]
  {
    SplitJoins(text, NEWLINE);
    forall k | 0 <= k < |Lines(text)| ensures 10 !in Lines(text)[k] {
      LinesClean(text, k);
    }
  }

  lemma {:induction false} SplitJoins<T>(s: seq<T>, sep: T)
    ensures Join(Text.Split(s, sep), sep) == s
  {
    if s != [] {
      SplitJoins(s[1..], sep);
      var rest := Text.Split(s[1..], sep);
      assert s == [s[0]] + s[1..];
      if s[0] == sep {
        assert ([[]] + rest)[1..] == rest;
      } else {
        JoinHead(s[0], rest, sep);
      }
    }
  }

  lemma JoinHead<T>(x: T, rest: seq<seq<T>>, sep: T)
    requires |rest| >= 1
    ensures Join([[x] + rest[0]] + rest[1..], sep) == [x] + Join(rest, sep)
  {
    var pieces := [[x] + rest[0]] + rest[1..];
    assert pieces[1..] == rest[1..] && pieces[0] == [x] + rest[0];
    if |rest| > 1 {
      var tail := Join(rest[1..], sep);
      assert Join(pieces, sep) == pieces[0] + [sep] + tail && Join(rest, sep) == rest[0] + [sep] + tail;
      hide Join;
      Regroup([x], rest[0], [sep], tail);
    }
  }

  lemma Regroup<T>(a: seq<T>, b: seq<T>, c: seq<T>, d: seq<T>)
    ensures a + b + c + d == a + (b + c + d)
  {
  }

  /** The table after `n` requests for this member's next task. */
  function Requested(t: Table, pid: Word, tid: Word, n: nat): (r: Table)
    requires HasMember(t, pid, tid) && Lookup(t, pid, tid).next == 0 && n + 1 < 0x1_0000_0000
    ensures HasMember(r, pid, tid) && HasPid(r, pid) && HasPid(t, pid) && TasksOf(r, pid) == TasksOf(t, pid)
    ensures var count := |Lines(TasksOf(t, pid))|; Lookup(r, pid, tid).next == if n <= count then n else count
  {
    if n == 0 then t
    else
      var before := Requested(t, pid, tid, n - 1);
      AdvanceLaw(before, pid, tid);
      Advance(before, pid, tid)
  }

  /** A member that begins gets the lines of its patota's text in order, each once, and then none any more. */
  lemma TasksInOrder(t: Table, pid: Word, tid: Word, n: nat)
    requires HasMember(t, pid, tid) && Lookup(t, pid, tid).next == 0 && n + 1 < 0x1_0000_0000
    ensures HasPid(t, pid)
    ensures var lines := Lines(TasksOf(t, pid));
      NextTask(Requested(t, pid, tid, n), pid, tid) == if n < |lines| then Some(lines[n]) else None
  {
  }
}
