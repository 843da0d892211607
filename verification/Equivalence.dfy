/** Paging and segmentation give the same answers: any history of operations, run on both, leaves both with the
    crew table that the operations describe. The run goes on for as long as both take the operations. */
module Equivalence {
  import opened Memory
  import opened CrewTable
  import Paging
  import opened PagingLayout
  import Segments
  import SegmentTables
  import Segmentation

  datatype Op =
    | AdmitOp(pid: Word, capacity: nat, tasks: seq<Byte>)
    | StartOp(pid: Word, tid: Word, x: Word, y: Word)
    | MoveOp(pid: Word, tid: Word, x: Word, y: Word)
    | StateOp(pid: Word, tid: Word, state: Byte)
    | TaskOp(pid: Word, tid: Word)
    | InfoOp(pid: Word, tid: Word)
    | ListOp
    | ExpelOp(pid: Word, tid: Word)
    | CompactOp

  datatype Answer =
    | Done
    | Admitted(ok: bool)
    | Task(task: Option<seq<Byte>>)
    | Info(member: Member)
    | Entries(entries: seq<Entry>)

  /** What an operation means for the crew table, and the answer it gives. Only whether an admission is granted
      depends on the memory. */
  ghost predicate Meaning(t: Table, op: Op, t': Table, a: Answer) {
    match op
    case AdmitOp(pid, capacity, tasks) => a.Admitted? && t' == if a.ok then Admit(t, pid, capacity, tasks) else t
    case StartOp(pid, tid, x, y) => CanStart(t, pid, tid) && t' == Start(t, pid, tid, x, y) && a == Done
    case MoveOp(pid, tid, x, y) => HasMember(t, pid, tid) && t' == Move(t, pid, tid, x, y) && a == Done
    case StateOp(pid, tid, state) => HasMember(t, pid, tid) && t' == SetState(t, pid, tid, state) && a == Done
    case TaskOp(pid, tid) =>
      && HasMember(t, pid, tid) && Lookup(t, pid, tid).next + 1 < 0x1_0000_0000
      && t' == Advance(t, pid, tid) && a == Task(NextTask(t, pid, tid))
    case InfoOp(pid, tid) => HasMember(t, pid, tid) && t' == t && a == Info(Lookup(t, pid, tid))
    case ListOp => t' == t && a == Entries(Listing(t))
    case ExpelOp(pid, tid) => HasMember(t, pid, tid) && t' == Expel(t, pid, tid) && a == Done
    case CompactOp => t' == t && a == Done
  }

  /** The last answer of a history is one the table before it implies: tables and answers fit all along. */
  ghost predicate History(ops: seq<Op>, tables: seq<Table>, answers: seq<Answer>) {
    && |tables| == |answers| + 1 <= |ops| + 1
    && forall k {:trigger tables[k]} :: 0 <= k < |answers| ==> Meaning(tables[k], ops[k], tables[k + 1], answers[k])
  }

  lemma HistorySnoc(ops: seq<Op>, tables: seq<Table>, answers: seq<Answer>, t: Table, a: Answer)
    requires History(ops, tables, answers) && |answers| < |ops|
    requires Meaning(tables[|answers|], ops[|answers|], t, a)
    ensures History(ops, tables + [t], answers + [a])
  {
  }

  /** A paging and a segmentation scheme side by side, and the table that both should stand for. */
  class Comparison {
    const paging: Paging.Paging
    const segmentation: Segmentation.Segmentation
    var table: Table

    ghost function Footprint(): set<object> {
      {this, paging, paging.memory, paging.memory.ram, paging.memory.swap, segmentation, segmentation.mem}
    }

    ghost predicate Valid()
      reads Footprint()
    {
      && paging.memory.ram != segmentation.mem && paging.memory.swap != segmentation.mem
      && paging.Valid() && segmentation.Valid()
      && paging.table == table == segmentation.Table()
    }

    constructor (paging: Paging.Paging, segmentation: Segmentation.Segmentation)
      requires paging.Valid() && paging.table == [] && segmentation.Valid() && segmentation.Table() == []
      requires paging.memory.ram != segmentation.mem && paging.memory.swap != segmentation.mem
      ensures Valid() && this.paging == paging && this.segmentation == segmentation && table == []
    {
      this.paging := paging;
      this.segmentation := segmentation;
      table := [];
    }

    /** Both grant the admission, segmentation as its list is or after compacting it first, or both refuse it. */
    predicate CanAdmit(pid: Word, capacity: nat, tasks: seq<Byte>)
      reads Footprint()
    {
      var size := SeatAddress(capacity) + |tasks| + 1;
      && !HasPid(table, pid) && 0 !in tasks && size < 0x8000_0000
      && paging.memory.pageSize > 0 && OffsetOf(SeatAddress(capacity), paging.memory.pageSize) != 0
      && (size <= (FreeCount(paging.memory.ramUsed) + FreeCount(paging.memory.swapUsed)) * paging.memory.pageSize
          <==> size <= segmentation.free)
      && (size <= segmentation.free ==> segmentation.CanPlace(pid, capacity, |tasks| + 1))
    }

    method AdmitBoth(pid: Word, capacity: nat, tasks: seq<Byte>) returns (a: Answer, b: Answer)
      requires Valid() && CanAdmit(pid, capacity, tasks)
      modifies Footprint()
      ensures Valid() && a == b && Meaning(old(table), AdmitOp(pid, capacity, tasks), table, a)
    {
      hide FreeCount, FindPid, TableOk, SegmentTables.Groups, SegmentTables.StoreOk, Segmentation.Requests;
      if SeatAddress(capacity) + |tasks| + 1 <= segmentation.free {
        segmentation.CanPlaceIs(pid, capacity, |tasks| + 1);
      }
      var p := paging.InitPatota(pid, capacity, tasks);
      var s := segmentation.InitPatota(pid, capacity, tasks);
      if p {
        table := Admit(table, pid, capacity, tasks);
      }
      a, b := Admitted(p), Admitted(s);
    }

    method StartBoth(pid: Word, tid: Word, x: Word, y: Word) returns (a: Answer, b: Answer)
      requires Valid() && CanStart(table, pid, tid) && AllStay(table, pid) && tid != Segments.NONE
      modifies Footprint()
      ensures Valid() && a == b && Meaning(old(table), StartOp(pid, tid, x, y), table, a)
    {
      paging.NextSeatIs(pid);
      paging.InitMember(pid, tid, x, y);
      segmentation.InitMember(pid, tid, x, y);
      table := Start(table, pid, tid, x, y);
      a, b := Done, Done;
    }

    method MoveBoth(pid: Word, tid: Word, x: Word, y: Word) returns (a: Answer, b: Answer)
      requires Valid() && HasMember(table, pid, tid)
      modifies Footprint()
      ensures Valid() && a == b && Meaning(old(table), MoveOp(pid, tid, x, y), table, a)
    {
      paging.UpdatePosition(pid, tid, x, y);
      segmentation.UpdatePosition(pid, tid, x, y);
      table := Move(table, pid, tid, x, y);
      a, b := Done, Done;
    }

    method StateBoth(pid: Word, tid: Word, state: Byte) returns (a: Answer, b: Answer)
      requires Valid() && HasMember(table, pid, tid)
      modifies Footprint()
      ensures Valid() && a == b && Meaning(old(table), StateOp(pid, tid, state), table, a)
    {
      paging.UpdateState(pid, tid, state);
      segmentation.UpdateState(pid, tid, state);
      table := SetState(table, pid, tid, state);
      a, b := Done, Done;
    }

    /** The next task, as a C string without the newline that paging keeps at its end. */
    method TaskBoth(pid: Word, tid: Word) returns (a: Answer, b: Answer)
      requires Valid() && HasMember(table, pid, tid) && !segmentation.CounterWraps(pid, tid)
      requires NextTask(table, pid, tid).None? || paging.CounterSafe(pid, tid) || !paging.CounterHit(pid, tid)
      modifies Footprint()
      ensures Valid() && a == b && Meaning(old(table), TaskOp(pid, tid), table, a)
    {
      var p := paging.NextTask(pid, tid);
      var s := segmentation.NextTask(pid, tid);
      table := Advance(table, pid, tid);
      a, b := Task(if p.Some? then Some(Chomp(CString(p.value))) else None), Task(s);
    }

    /** A member's information, the task counter up to the number of tasks. */
    method InfoBoth(pid: Word, tid: Word) returns (a: Answer, b: Answer)
      requires Valid() && HasMember(table, pid, tid)
      modifies Footprint()
      ensures Valid() && a == b && Meaning(old(table), InfoOp(pid, tid), table, a)
    {
      var p := paging.GetMember(pid, tid);
      var s := segmentation.GetMember(pid, tid);
      a, b := Info(p), Info(SegmentTables.Capped(s, |Lines(table[FindPid(Pids(table), pid)].tasks)|));
    }

    method ListBoth() returns (a: Answer, b: Answer)
      requires Valid()
      modifies Footprint()
      ensures Valid() && a == b && Meaning(old(table), ListOp, table, a)
    {
      var p := paging.ListAll();
      var s := segmentation.ListAll();
      a, b := Entries(p), Entries(s);
    }

    method ExpelBoth(pid: Word, tid: Word) returns (a: Answer, b: Answer)
      requires Valid() && HasMember(table, pid, tid) && paging.ExpelIsClean(pid)
      modifies Footprint()
      ensures Valid() && a == b && Meaning(old(table), ExpelOp(pid, tid), table, a)
    {
      hide FindPid, FindTid, TableOk, SegmentTables.Groups, SegmentTables.StoreOk;
      paging.Expel(pid, tid);
      segmentation.Expel(pid, tid);
      table := Expel(table, pid, tid);
      a, b := Done, Done;
    }

    /** Compaction on demand; paging has nothing to compact. */
    method CompactBoth() returns (a: Answer, b: Answer)
      requires Valid() && segmentation.CanCompact()
      modifies Footprint()
      ensures Valid() && a == b && Meaning(old(table), CompactOp, table, a)
    {
      segmentation.CanCompactIs();
      segmentation.Compact();
      a, b := Done, Done;
    }

    /** When both take an operation: what each demands of its caller, as far as a caller can check it. */
    ghost predicate Takes(op: Op)
      requires Valid()
      reads Footprint()
    {
      match op
      case AdmitOp(pid, capacity, tasks) => CanAdmit(pid, capacity, tasks)
      case StartOp(pid, tid, x, y) => CanStart(table, pid, tid) && AllStay(table, pid) && tid != Segments.NONE
      case MoveOp(pid, tid, x, y) => HasMember(table, pid, tid)
      case StateOp(pid, tid, state) => HasMember(table, pid, tid)
      case TaskOp(pid, tid) =>
        && HasMember(table, pid, tid) && !segmentation.CounterWraps(pid, tid)
        && (NextTask(table, pid, tid).None? || paging.CounterSafe(pid, tid))
      case InfoOp(pid, tid) => HasMember(table, pid, tid)
      case ListOp => true
      case ExpelOp(pid, tid) => HasMember(table, pid, tid) && paging.LooksClean(pid)
      case CompactOp => segmentation.CanCompact()
    }

    /** One operation on both, exactly when both take it. */
    method Step(op: Op) returns (taken: bool, a: Answer, b: Answer)
      requires Valid()
      modifies Footprint()
      ensures Valid() && taken == old(Takes(op))
      ensures taken ==> a == b && Meaning(old(table), op, table, a)
      ensures !taken ==> table == old(table) && !Takes(op)
    {
      taken, a, b := false, Done, Done;
      match op
      case AdmitOp(pid, capacity, tasks) =>
        if CanAdmit(pid, capacity, tasks) {
          taken := true;
          a, b := AdmitBoth(pid, capacity, tasks);
        }
      case StartOp(pid, tid, x, y) =>
        if CanStart(table, pid, tid) && AllStay(table, pid) && tid != Segments.NONE {
          taken := true;
          a, b := StartBoth(pid, tid, x, y);
        }
      case MoveOp(pid, tid, x, y) =>
        if HasMember(table, pid, tid) {
          taken := true;
          a, b := MoveBoth(pid, tid, x, y);
        }
      case StateOp(pid, tid, state) =>
        if HasMember(table, pid, tid) {
          taken := true;
          a, b := StateBoth(pid, tid, state);
        }
      case TaskOp(pid, tid) =>
        if HasMember(table, pid, tid) {
          taken, a, b := TaskStep(pid, tid);
        }
      case InfoOp(pid, tid) =>
        if HasMember(table, pid, tid) {
          taken := true;
          a, b := InfoBoth(pid, tid);
        }
      case ListOp =>
        taken := true;
        a, b := ListBoth();
      case ExpelOp(pid, tid) =>
        if HasMember(table, pid, tid) && paging.LooksClean(pid) {
          taken := true;
          paging.LooksCleanIs(pid);
          a, b := ExpelBoth(pid, tid);
        }
      case CompactOp =>
        if segmentation.CanCompact() {
          taken := true;
          a, b := CompactBoth();
        }
    }

    method TaskStep(pid: Word, tid: Word) returns (taken: bool, a: Answer, b: Answer)
      requires Valid() && HasMember(table, pid, tid)
      modifies Footprint()
      ensures Valid() && taken == old(Takes(TaskOp(pid, tid)))
      ensures taken ==> a == b && Meaning(old(table), TaskOp(pid, tid), table, a)
      ensures !taken ==> table == old(table) && !Takes(TaskOp(pid, tid))
    {
      taken, a, b := false, Done, Done;
      if NextTask(table, pid, tid).None? || paging.CounterSafe(pid, tid) {
        var m := segmentation.GetMember(pid, tid);
        if m.next != Segments.NONE {
          taken := true;
          a, b := TaskBoth(pid, tid);
        }
      }
    }

    /** A whole history: both schemes give the same answers, and they are those of the crew table, up to the first
        operation that one of the two does not take; a history of operations that both take is run to its end. */
    method Run(ops: seq<Op>) returns (a: seq<Answer>, b: seq<Answer>, ghost tables: seq<Table>)
      requires Valid()
      modifies Footprint()
      ensures Valid() && a == b && History(ops, tables, a)
      ensures tables[0] == old(table) && tables[|a|] == table
      ensures |a| < |ops| ==> !Takes(ops[|a|])
    {
      a, b, tables := [], [], [table];
      var taken := true;
      while taken && |a| < |ops|
        invariant Valid() && a == b && History(ops, tables, a)
        invariant tables[0] == old(table) && tables[|a|] == table
        invariant !taken ==> |a| < |ops| && !Takes(ops[|a|])
        decreases |ops| - |a|, taken
      {
        var x, y;
        taken, x, y := Step(ops[|a|]);
        if taken {
          HistorySnoc(ops, tables, a, table, x);
          a, b, tables := a + [x], b + [y], tables + [table];
        }
      }
    }
  }
}
