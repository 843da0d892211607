/** Where the paging scheme goes wrong, in states that a few calls lead to. */
module PagingFailures {
  import opened Memory
  import opened CrewTable
  import opened PageTables
  import opened PageLifecycle
  import opened PagedMemory
  import opened PagingLayout
  import Paging

  // ----- A stale swap frame ----------------------------------------------------------------------------------

  const SIZE: nat := 32

  /** A patota of one member without tasks, all of it on one page of 32 bytes. */
  function Alone(pid: Word): Group {
    Group(pid, 1, [], 1, [Newcomer(pid)])
  }

  function Newcomer(pid: Word): Member {
    Member(pid, STATE_NEW, 0, 0, 0)
  }

  function Line(pid: Word): seq<Byte> {
    WordBytes(pid) + WordBytes(29) + TcbBytes(Newcomer(pid)) + [0] + [0, 0]
  }

  function Entry(pid: Word, row: Row): Patota {
    Patota(pid, [row], 1, 1, [TcbAddress(pid, 8)], [0])
  }

  /** One frame of RAM, one of swap, LRU: what is left by admitting two such patotas and starting their members. The
      second one's page came into RAM in exchange for the first one's, and still names the swap frame it came from. */
  function Crowded(): Control {
    Control([Entry(1, Row(-1, 0, 2, 1, 3)), Entry(2, Row(0, 0, 6, 1, 3))], [true], [true], 0, 7,
            [Of(Page(1, 0))], [Of(Page(0, 0))], {},
            [Touch(1, 0), Touch(1, 0), Touch(1, 0), Touch(2, 0), Touch(2, 0), Touch(2, 0), Touch(2, 0)], 3)
  }

  lemma AloneInOrder(pid: Word, row: Row, i: nat)
    requires row.occupants == 3
    ensures PatotaOk(Entry(pid, row), Line(pid), Alone(pid), i, {}, SIZE) && |Line(pid)| == SIZE
  {
    var p, g, line := Entry(pid, row), Alone(pid), Line(pid);
    assert line[..4] == WordBytes(pid) && line[4..8] == WordBytes(29) && line[8..29] == TcbBytes(Newcomer(pid)) && line[29..30] == [0];
    assert TaskOffsets([]) == [0] && |Lines([])| == 1;
    assert g.tasks + [0] == [0];
    assert TcbOk(p, line, g, 0);
    forall j | 0 <= j < |p.rows| ensures CountOk(p, g, j, SIZE) {
      assert p.tcbs[1..] == [];
      assert Overlaps(0, 0, PCB_SIZE, SIZE) && Overlaps(0, 29, 1, SIZE) && Overlaps(0, 8, TCB_SIZE, SIZE);
    }
  }

  lemma CrowdedFrames()
    ensures FramesOk(Crowded()) && StampsOk(Crowded()) && DistinctOwners(Crowded().patotas)
  {
    var c := Crowded();
    forall pg | IsPage(c.patotas, pg) ensures Placed(c, pg) {
      assert pg == Page(0, 0) || pg == Page(1, 0);
    }
    forall pg | Resident(c.patotas, pg) ensures Stamped(c, pg) {
      assert pg == Page(1, 0) && c.touches[6] == Touch(2, 0);
    }
  }

  /** The memory is sound and stands for a crew table, and then the expulsion of the second member frees the swap frame
      that the first patota's page lives in. */
  lemma ClashHappens()
    ensures MemoryOk(Crowded(), [Line(1), Line(2)], Line(2), Line(1), SIZE)
    ensures TableOk(Crowded(), [Line(1), Line(2)], [Alone(1), Alone(2)], SIZE)
    ensures !NoStaleClash(Crowded(), 1)
    ensures FramesOk(Crowded()) && Placed(Crowded(), Page(1, 0)) && FramesOk(LeavePage(Crowded(), Page(1, 0)))
    ensures !LiveFramesUsed(RemovePatota(LeavePage(Crowded(), Page(1, 0)), 1))
  {
    var c := Crowded();
    CrowdedFrames();
    AloneInOrder(1, c.patotas[0].rows[0], 0);
    AloneInOrder(2, c.patotas[1].rows[0], 1);
    forall pg | IsPage(c.patotas, pg) ensures Stored(c, pg, [Line(1), Line(2)], Line(2), Line(1), SIZE) {
      assert pg == Page(0, 0) || pg == Page(1, 0);
    }
    assert Placed(c, Page(1, 0));
    assert !HarmlessRow(c, 1, c.patotas[1].rows[0]);
    var d := LeavePage(c, Page(1, 0));
    LeavePageFrames(c, Page(1, 0));
    assert RowAt(d.patotas, Page(1, 0)) == d.patotas[1].rows[0];
    assert !HarmlessRow(d, 1, d.patotas[1].rows[0]);
    RemoveRightIff(d, 1);
  }

  // ----- A counter that is hit ---------------------------------------------------------------------------------------

  lemma Sizes()
    ensures BlockOf(24, 24) == 1 && OffsetOf(SeatAddress(1), 24) != 0 && FramesNeeded(30, 24) == 2
    ensures OffsetOf(21, 24) + 4 > 24
  {
    assert BlockOf(30, 24) == 1 && OffsetOf(30, 24) == 6;
  }

  lemma OneFrame(c: Control, flat: seq<seq<Byte>>, ram: seq<Byte>, swap: seq<Byte>)
    requires MemoryOk(c, flat, ram, swap, 24) && |ram| == 24 && |c.ramUsed| > 0
    ensures |c.ramUsed| == 1
  {
    if |c.ramUsed| > 1 {
      BlocksOrdered(1, |c.ramUsed|, 24);
    }
  }

  lemma FirstSeat(p: Patota, line: seq<Byte>, g: Group, released: set<Page>)
    requires PatotaOk(p, line, g, 0, released, 24) && g.started == 1 == |g.crew| && g.crew[0].tid == 1
    ensures |p.tcbs| == 1 && p.tcbs[0] == TcbAddress(1, 8) && p.pid == g.pid
  {
    assert TcbOk(p, line, g, 0);
  }

  lemma Tables()
    ensures var g := Group(1, 1, [], 0, []);
            CanStart([g], 1, 1) && AllStay([g], 1) && !HasPid([], 1) && Admit([], 1, 1, []) == [g] && Start([g], 1, 1, 0, 0) == [Alone(1)]
    ensures HasMember([Alone(1)], 1, 1) && Lookup([Alone(1)], 1, 1).next == 0 && NextTask([Alone(1)], 1, 1) == Some([])
    ensures Advance([Alone(1)], 1, 1) == [Group(1, 1, [], 1, [Newcomer(1).(next := 1)])]
  {
    var g := Group(1, 1, [], 0, []);
    assert Pids([g]) == [1] && Pids([Alone(1)]) == [1] && Pids([]) == [];
    assert g.crew + [Newcomer(1)] == [Newcomer(1)];
    assert Lines([]) == [[]];
    var m := Newcomer(1).(next := 1);
    assert [Newcomer(1)][0 := m] == [m];
    assert [Alone(1)][0 := Group(1, 1, [], 1, [m])] == [Group(1, 1, [], 1, [m])];
    assert Advance([Alone(1)], 1, 1) == SetMember([Alone(1)], 0, 0, m);
  }

  /** One patota of one member, a single RAM frame of 24 bytes: the counter straddles the first two pages. */
  method SmallScheme(policy: Policy) returns (scheme: Paging.Paging)
    ensures fresh(scheme) && fresh(scheme.memory) && fresh(scheme.memory.ram) && fresh(scheme.memory.swap)
    ensures scheme.Valid() && scheme.table == [Alone(1)] && scheme.memory.pageSize == 24 && scheme.memory.policy == policy
    ensures scheme.CounterLost(1, 1)
  {
    hide FramesOk, StampsOk, ContentOk, Start, Admit, CanStart, AllStay, HasPid, Lines, BlockOf, OffsetOf, FreeCount;
    Sizes();
    Tables();
    scheme := new Paging.Paging(24, 24, 24, policy);
    var ok := scheme.InitPatota(1, 1, []);
    scheme.NextSeatIs(1);
    scheme.InitMember(1, 1, 0, 0);
    OneFrame(scheme.memory.C(), scheme.memory.flat, scheme.memory.ram[..], scheme.memory.swap[..]);
    assert PatotaOk(scheme.memory.patotas[0], scheme.memory.flat[0], scheme.table[0], 0, scheme.memory.released, 24);
    FirstSeat(scheme.memory.patotas[0], scheme.memory.flat[0], scheme.table[0], scheme.memory.released);
    assert scheme.Find(1) == 0 && FindTcb(scheme.memory.patotas[0].tcbs, 1) == 0;
  }

  /** Under either policy the first task handed out leaves the counter wrong; the text is right all the same. */
  method CounterRun(policy: Policy) returns (scheme: Paging.Paging, task: Option<seq<Byte>>)
    ensures fresh(scheme) && task.Some? && Chomp(CString(task.value)) == []
    ensures scheme.memory.pageSize == 24 && scheme.memory.policy == policy
    ensures !TableOk(scheme.memory.C(), scheme.memory.flat, [Group(1, 1, [], 1, [Newcomer(1).(next := 1)])], 24)
  {
    hide FramesOk, StampsOk, ContentOk, HasMember, Advance, Lookup, NextTask, TableOk, CString, Chomp;
    scheme := SmallScheme(policy);
    Tables();
    task := scheme.NextTask(1, 1);
  }
}
