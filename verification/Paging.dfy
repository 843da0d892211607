/** The paging scheme as its clients use it: patotas and crew members come, move, ask for tasks and go,
    and at every moment the scheme stands for one crew table. */
module Paging {
  import opened Memory
  import opened CrewTable
  import CrewLaws
  import opened PageTables
  import opened PageLifecycle
  import opened PagedMemory
  import opened PagingLayout

  class Paging {
    const memory: PagedMemory
    ghost var table: Table

    ghost predicate Valid()
      reads this, memory, memory.ram, memory.swap
    {
      && memory.Valid()
      && (memory.patotas != [] ==> memory.admitted < memory.counter)
      && TableOk(memory.C(), memory.flat, table, memory.pageSize)
    }

    constructor (memorySize: nat, swapSize: nat, pageSize: nat, policy: Policy)
      requires 4 <= pageSize <= memorySize
      ensures Valid() && table == [] && fresh(memory) && fresh(memory.ram) && fresh(memory.swap)
      ensures memory.pageSize == pageSize && memory.policy == policy && memory.ram.Length == memorySize
      ensures memory.HasFreeFrames(BlockOf(memorySize, pageSize) + BlockOf(swapSize, pageSize))
    {
      memory := new PagedMemory(memorySize, swapSize, pageSize, policy);
      table := [];
    }

    /** Position of a patota in the list, and of a member among its TCBs. */
    function Find(pid: Word): (i: nat)
      reads memory
    {
      FindPid(PatotaPids(memory.patotas), pid)
    }

    lemma FindAgrees(pid: Word, tid: Word)
      requires Valid()
      ensures Find(pid) == FindPid(Pids(table), pid)
      ensures Find(pid) < |table| ==>
                FindTcb(memory.patotas[Find(pid)].tcbs, tid) == FindTid(table[Find(pid)].crew, tid)
                && |memory.patotas[Find(pid)].tcbs| == |table[Find(pid)].crew|
    {
      PidsAgree(memory.C(), memory.flat, table, memory.pageSize);
      var i := Find(pid);
      if i < |table| {
        assert PatotaOk(memory.patotas[i], memory.flat[i], table[i], i, memory.released, memory.pageSize);
        TidsAgree(memory.patotas[i], memory.flat[i], table[i], tid);
      }
    }

    /** No pid, and no tid of a patota, is there twice. */
    lemma TableDistinct()
      requires Valid()
      ensures CrewLaws.Distinct(table)
    {
      PidsAgree(memory.C(), memory.flat, table, memory.pageSize);
      forall i | 0 <= i < |table| ensures DistinctTids(table[i]) && table[i].pid == memory.patotas[i].pid {
        assert PatotaOk(memory.patotas[i], memory.flat[i], table[i], i, memory.released, memory.pageSize);
      }
    }

    // ----- Finding one's way into a TCB ------------------------------------------------------------------

    /** Places a cursor `n` bytes into a readable stretch that begins at `at`. */
    method SeekField(i: nat, at: nat, n: nat, ghost to: nat) returns (cur: Cursor, ghost num: nat)
      requires memory.Valid() && n < to && Readable(memory.C(), i, at, at + to, memory.pageSize)
      modifies memory, memory.ram, memory.swap
      ensures memory.Valid() && memory.flat == old(memory.flat) && Quiet(old(memory.C()), memory.C())
      ensures CursorOn(memory.C(), i, num, cur, memory.pageSize) && cur.logical == at + n
      ensures Readable(memory.C(), i, at, at + to, memory.pageSize)
      ensures Latest(memory.C(), Page(i, num)) && memory.counter > old(memory.counter)
      ensures num == BlockOf(if n > 0 then at + n - 1 else at, memory.pageSize) && (n > 0 ==> cur.offset > 0)
      ensures Route(memory.policy, old(memory.C()), StretchPages(i, at, n, memory.pageSize), memory.C())
    {
      hide Route, Entered;
      ghost var c := memory.C();
      ghost var p := memory.pageSize;
      AddressJoins(at, p);
      num := BlockOf(at, p);
      assert LiveAt(c, i, at, p);
      cur := memory.Seek(i, at, Modification, num, OffsetOf(at, p));
      ghost var c1 := memory.C();
      ReadableKept(c, c1, i, num - 1, num, 0, at, at + to, p);
      ReadablePart(c1, i, at, at + to, at, at + n, p);
      ghost var num0: int := num;
      cur, num := memory.Skip(cur, n, Modification, i, num);
      ReadableKept(c1, memory.C(), i, num0, num, 0, at, at + to, p);
      FollowsQuiet(c, c1, i, num0 - 1, num0);
      QuietStep(c, c1, memory.C(), i, num0, num);
      if n > 0 {
        PageOfLastByte(num, cur.offset, cur.logical, p);
      }
      RunOne(memory.policy, c, i, num0, c1);
      RunJoin(memory.policy, c, c1, memory.C(), i, num0, num0 + 1, num + 1);
    }

    // ----- Position and state ------------------------------------------------------------------------------

    method UpdatePosition(pid: Word, tid: Word, x: Word, y: Word)
      requires Valid() && HasMember(table, pid, tid)
      modifies this, memory, memory.ram, memory.swap
      ensures Valid() && table == Move(old(table), pid, tid, x, y)
    {
      hide Route, StretchPages, FramesOk, StampsOk, Lines;
      FindAgrees(pid, tid);
      var i := Find(pid);
      var k := FindTcb(memory.patotas[i].tcbs, tid);
      var at := memory.patotas[i].tcbs[k].address;
      ghost var c, f := memory.C(), memory.flat;
      ghost var m := table[i].crew[k];
      MemberReadable(i, k);
      var cur;
      ghost var num;
      cur, num := SeekField(i, at, 5, TCB_SIZE);
      ghost var c1, num1 := memory.C(), num;
      cur, num1 := WriteTwoWords(WordBytes(x), WordBytes(y), cur, Modification, i, num, at, at + TCB_SIZE);
      QuietStep(c, c1, memory.C(), i, num, num1);
      TcbSetPosition(m, x, y);
      assert PatotaOk(c.patotas[i], f[i], table[i], i, c.released, memory.pageSize);
      assert TcbOk(c.patotas[i], f[i], table[i], k);
      MemberRewritten(c, memory.C(), f, memory.flat, table, i, k, 5, WordBytes(x) + WordBytes(y), m.(x := x, y := y), memory.pageSize);
      table := SetMember(table, i, k, m.(x := x, y := y));
    }

    lemma MemberReadable(i: nat, k: nat)
      requires Valid() && i < |table| && k < |table[i].crew|
      ensures k < |memory.patotas[i].tcbs|
      ensures Readable(memory.C(), i, memory.patotas[i].tcbs[k].address, memory.patotas[i].tcbs[k].address + TCB_SIZE, memory.pageSize)
    {
      assert PatotaOk(memory.patotas[i], memory.flat[i], table[i], i, memory.released, memory.pageSize);
      TcbReadable(memory.C(), memory.flat[i], table[i], i, k, memory.pageSize);
    }

    /** Writes two words one after the other, wherever the page boundaries fall. */
    method WriteTwoWords(x: seq<Byte>, y: seq<Byte>, cur: Cursor, kind: WriteKind, i: nat, ghost num: nat, ghost from: nat, ghost to: nat)
      returns (next: Cursor, ghost num': nat)
      requires |x| == |y| == 4 && from <= cur.logical && cur.logical + 8 <= to
      requires memory.Valid() && CursorOn(memory.C(), i, num, cur, memory.pageSize)
      requires Readable(memory.C(), i, from, to, memory.pageSize)
      modifies memory, memory.ram, memory.swap
      ensures memory.Valid() && Readable(memory.C(), i, from, to, memory.pageSize)
      ensures Stepped(old(memory.C()), memory.C(), i, num, num', cur, next, 8, kind, memory.pageSize)
      ensures Wrote(old(memory.flat), memory.flat, i, cur.logical, x + y)
    {
      ghost var c0, f0 := memory.C(), memory.flat;
      ghost var num1;
      var middle;
      middle, num1 := memory.WriteWord(x, cur, kind, i, num, from, to);
      ghost var c1, f1 := memory.C(), memory.flat;
      next, num' := memory.WriteWord(y, middle, kind, i, num1, from, to);
      WroteJoin(f0, f1, memory.flat, i, cur.logical, x, y);
      SteppedJoin(c0, c1, memory.C(), i, num, num1, num', cur, middle, next, 4, 4, kind, memory.pageSize);
    }

    method ReadTwoWords(cur: Cursor, kind: WriteKind, i: nat, ghost num: nat, ghost from: nat, ghost to: nat)
      returns (x: seq<Byte>, y: seq<Byte>, next: Cursor, ghost num': nat)
      requires from <= cur.logical && cur.logical + 8 <= to
      requires memory.Valid() && CursorOn(memory.C(), i, num, cur, memory.pageSize)
      requires Readable(memory.C(), i, from, to, memory.pageSize)
      modifies memory, memory.ram, memory.swap
      ensures memory.Valid() && memory.flat == old(memory.flat) && Readable(memory.C(), i, from, to, memory.pageSize)
      ensures Stepped(old(memory.C()), memory.C(), i, num, num', cur, next, 8, kind, memory.pageSize)
      ensures |x| == |y| == 4 && i < |memory.flat| && cur.logical + 8 <= |memory.flat[i]|
      ensures x == memory.flat[i][cur.logical..cur.logical + 4] && y == memory.flat[i][cur.logical + 4..cur.logical + 8]
      ensures Went(memory.policy, old(memory.C()), memory.C(), i, num, num', kind)
    {
      hide FramesOk, StampsOk, Route, Entered;
      ghost var c0 := memory.C();
      ghost var num1;
      var middle;
      x, middle, num1 := memory.LoadWord(cur, kind, i, num, from, to);
      ghost var c1 := memory.C();
      y, next, num' := memory.LoadWord(middle, kind, i, num1, from, to);
      SteppedJoin(c0, c1, memory.C(), i, num, num1, num', cur, middle, next, 4, 4, kind, memory.pageSize);
      WentOn(memory.policy, c0, c1, memory.C(), i, num, num1, num', kind);
    }

    method UpdateState(pid: Word, tid: Word, state: Byte)
      requires Valid() && HasMember(table, pid, tid)
      modifies this, memory, memory.ram, memory.swap
      ensures Valid() && table == SetState(old(table), pid, tid, state)
    {
      hide Route, StretchPages, FramesOk, StampsOk, Lines;
      FindAgrees(pid, tid);
      var i := Find(pid);
      var k := FindTcb(memory.patotas[i].tcbs, tid);
      var at := memory.patotas[i].tcbs[k].address;
      ghost var c, f := memory.C(), memory.flat;
      ghost var m := table[i].crew[k];
      MemberReadable(i, k);
      var cur;
      ghost var num, num1;
      cur, num := SeekField(i, at, 4, TCB_SIZE);
      ghost var c1 := memory.C();
      cur, num1 := memory.StoreChar(state, cur, Modification, i, num, at, at + TCB_SIZE);
      QuietStep(c, c1, memory.C(), i, num, num1);
      TcbSetState(m, state);
      assert PatotaOk(c.patotas[i], f[i], table[i], i, c.released, memory.pageSize);
      assert TcbOk(c.patotas[i], f[i], table[i], k);
      MemberRewritten(c, memory.C(), f, memory.flat, table, i, k, 4, [state], m.(state := state), memory.pageSize);
      table := SetMember(table, i, k, m.(state := state));
    }

    // ----- Admission -----------------------------------------------------------------------------------------

    /** Admits a patota if there are frames enough in RAM and swap together. The task text must not begin exactly
        at a page boundary: the code would then record its first occupant on a page that is not the text's. */
    method InitPatota(pid: Word, capacity: nat, tasks: seq<Byte>) returns (ok: bool)
      requires Valid() && !HasPid(table, pid) && 0 !in tasks
      requires SeatAddress(capacity) + |tasks| + 1 < 0x8000_0000
      requires OffsetOf(SeatAddress(capacity), memory.pageSize) != 0
      modifies this, memory, memory.ram, memory.swap
      ensures Valid()
      ensures ok == (PCB_SIZE + TCB_SIZE * capacity + |tasks| + 1
                     <= (FreeCount(old(memory.ramUsed)) + FreeCount(old(memory.swapUsed))) * memory.pageSize)
      ensures ok ==> |memory.patotas| == |old(memory.patotas)| + 1
      ensures ok ==> var pages := |memory.patotas[|old(memory.patotas)|].rows|;
        (pages - 1) * memory.pageSize < PCB_SIZE + TCB_SIZE * capacity + |tasks| + 1 <= pages * memory.pageSize
      ensures table == if ok then Admit(old(table), pid, capacity, tasks) else old(table)
      ensures !ok ==> memory.C() == old(memory.C()) && memory.flat == old(memory.flat)
    {
      hide FramesNeeded, FreeCount, FirstFree;
      var frames := FramesNeeded(SeatAddress(capacity) + |tasks| + 1, memory.pageSize);
      FramesNeededIff(SeatAddress(capacity) + |tasks| + 1, memory.pageSize, FreeCount(memory.ramUsed) + FreeCount(memory.swapUsed));
      if !memory.HasFreeFrames(frames) {
        return false;
      }
      ghost var c, f, p := memory.C(), memory.flat, memory.pageSize;
      ghost var g := Group(pid, capacity, tasks, 0, []);
      PidsAgree(c, f, table, p);
      FramesNeededFit(SeatAddress(capacity) + |tasks| + 1, p);
      FramesNeededLeast(SeatAddress(capacity) + |tasks| + 1, p);
      memory.AddPatota(pid, frames, |tasks| + 1);
      var i := |memory.patotas| - 1;
      ghost var c1, f1 := memory.C(), memory.flat;
      assert |f1[i]| == Base(|c1.patotas[i].rows|, p);
      WholeReadable(c1, |f1[i]|, i, p);
      WriteAdmission(i, pid, capacity, tasks);
      AdmittedTable(c, c1, memory.C(), f, f1, memory.flat, table, g, p);
      table := Admit(table, pid, capacity, tasks);
      ok := true;
    }

    method WriteAdmission(i: nat, pid: Word, capacity: nat, tasks: seq<Byte>)
      requires memory.Valid() && i < |memory.flat| == |memory.patotas|
      requires SeatAddress(capacity) + |tasks| + 1 < 0x8000_0000 && SeatAddress(capacity) + |tasks| + 1 <= |memory.flat[i]|
      requires OffsetOf(SeatAddress(capacity), memory.pageSize) != 0
      requires Readable(memory.C(), i, 0, |memory.flat[i]|, memory.pageSize)
      modifies memory, memory.ram, memory.swap
      ensures memory.Valid() && memory.counter > old(memory.counter)
      ensures AdmissionWritten(old(memory.C()), memory.C(), old(memory.flat), memory.flat, i,
                               WordBytes(pid), WordBytes(SeatAddress(capacity)), SeatAddress(capacity), tasks, memory.pageSize)
    {
      WriteAdmissionBytes(i, WordBytes(pid), WordBytes(SeatAddress(capacity)), capacity, tasks);
    }

    method WriteAdmissionBytes(i: nat, pid: seq<Byte>, base: seq<Byte>, capacity: nat, tasks: seq<Byte>)
      requires |pid| == |base| == 4
      requires memory.Valid() && i < |memory.flat| == |memory.patotas|
      requires SeatAddress(capacity) + |tasks| + 1 <= |memory.flat[i]|
      requires OffsetOf(SeatAddress(capacity), memory.pageSize) != 0
      requires Readable(memory.C(), i, 0, |memory.flat[i]|, memory.pageSize)
      modifies memory, memory.ram, memory.swap
      ensures memory.Valid() && memory.counter > old(memory.counter)
      ensures AdmissionWritten(old(memory.C()), memory.C(), old(memory.flat), memory.flat, i,
                               pid, base, SeatAddress(capacity), tasks, memory.pageSize)
    {
      ghost var c, f, p, size := memory.C(), memory.flat, memory.pageSize, |memory.flat[i]|;
      var offsets := FindTaskOffsets(tasks);
      memory.SetHead(i, memory.patotas[i].(taskOffsets := offsets));
      ghost var c0 := memory.C();
      ReadableSameRows(c, c0, i, size, p);
      var cur;
      ghost var num;
      cur, num := WriteHeader(i, pid, base, size);
      ghost var c1, f1 := memory.C(), memory.flat;
      cur, num := SkipSeats(i, cur, capacity, num, size);
      ghost var c2 := memory.C();
      WriteTasks(i, cur, num, tasks, SeatAddress(capacity), size);
      AdmissionDone(c, c0, c1, c2, memory.C(), f, f1, memory.flat, i, offsets, pid, base, SeatAddress(capacity), tasks, p);
    }

    /** The positions of the tasks in the text: 0 and every position after a newline. */
    method FindTaskOffsets(tasks: seq<Byte>) returns (offsets: seq<nat>)
      ensures offsets == TaskOffsets(tasks)
    {
      offsets := [0];
      for k := 0 to |tasks|
        invariant offsets == TaskOffsets(tasks[..k])
      {
        assert tasks[..k + 1] == tasks[..k] + [tasks[k]];
        OffsetsSnoc(tasks[..k], tasks[k], 0);
        if tasks[k] == NEWLINE {
          offsets := offsets + [k + 1];
        }
      }
      assert tasks[..|tasks|] == tasks;
    }

    /** The PCB: pid and address of the task text. */
    method WriteHeader(i: nat, pid: seq<Byte>, base: seq<Byte>, ghost size: nat) returns (cur: Cursor, ghost num: nat)
      requires memory.Valid() && |pid| == |base| == 4 && size >= PCB_SIZE
      requires Readable(memory.C(), i, 0, size, memory.pageSize)
      modifies memory, memory.ram, memory.swap
      ensures memory.Valid() && Readable(memory.C(), i, 0, size, memory.pageSize)
      ensures CursorOn(memory.C(), i, num, cur, memory.pageSize) && cur.logical == PCB_SIZE && num == BlockOf(PCB_SIZE - 1, memory.pageSize)
      ensures Follows(old(memory.C()), memory.C(), i, -1, num, 1) && memory.counter > old(memory.counter)
      ensures Wrote(old(memory.flat), memory.flat, i, 0, pid + base)
    {
      ghost var c, p := memory.C(), memory.pageSize;
      assert LiveAt(c, i, 0, p);
      var start := memory.Seek(i, 0, NewWrite, 0, 0);
      ghost var c1 := memory.C();
      ReadableKept(c, c1, i, -1, 0, 1, 0, size, p);
      cur, num := WriteTwoWords(pid, base, start, NewWrite, i, 0, 0, size);
      PageOfLastByte(num, cur.offset, cur.logical, p);
      FollowsTrans(c, c1, memory.C(), i, -1, 0, num, 1);
    }

    /** Moves over the seats, byte by byte, without writing. */
    method SkipSeats(i: nat, start: Cursor, capacity: nat, ghost first: nat, ghost size: nat) returns (cur: Cursor, ghost num: nat)
      requires memory.Valid() && SeatAddress(capacity) <= size
      requires Readable(memory.C(), i, 0, size, memory.pageSize)
      requires CursorOn(memory.C(), i, first, start, memory.pageSize) && start.logical == PCB_SIZE
      modifies memory, memory.ram, memory.swap
      ensures memory.Valid() && memory.flat == old(memory.flat) && Readable(memory.C(), i, 0, size, memory.pageSize)
      ensures CursorOn(memory.C(), i, num, cur, memory.pageSize) && cur.logical == SeatAddress(capacity)
      ensures Quiet(old(memory.C()), memory.C())
    {
      ghost var c, p := memory.C(), memory.pageSize;
      cur, num := start, first;
      FollowsSelf(c, 0, 0, 0);
      for seat := 0 to capacity
        invariant memory.Valid() && memory.flat == old(memory.flat)
        invariant Readable(memory.C(), i, 0, size, p)
        invariant CursorOn(memory.C(), i, num, cur, p) && cur.logical == SeatAddress(seat)
        invariant Quiet(c, memory.C())
      {
        ghost var c1, num0 := memory.C(), num;
        ReadablePart(c1, i, 0, size, cur.logical, cur.logical + TCB_SIZE, p);
        cur, num := memory.Skip(cur, TCB_SIZE, Modification, i, num);
        ReadableKept(c1, memory.C(), i, num0, num, 0, 0, size, p);
        QuietStep(c, c1, memory.C(), i, num0, num);
      }
    }

    /** The task text and its terminator. */
    method WriteTasks(i: nat, start: Cursor, ghost num: nat, tasks: seq<Byte>, ghost base: nat, ghost size: nat)
      requires memory.Valid() && base + |tasks| + 1 <= size && OffsetOf(base, memory.pageSize) != 0
      requires Readable(memory.C(), i, 0, size, memory.pageSize)
      requires CursorOn(memory.C(), i, num, start, memory.pageSize) && start.logical == base
      modifies memory, memory.ram, memory.swap
      ensures memory.Valid()
      ensures Follows(old(memory.C()), memory.C(), i, BlockOf(base, memory.pageSize) - 1, BlockOf(base + |tasks|, memory.pageSize), 1)
      ensures Wrote(old(memory.flat), memory.flat, i, base, tasks + [0])
    {
      ghost var c, p := memory.C(), memory.pageSize;
      NotAtPageEnd(c, i, num, start, p);
      memory.TouchFrame(BlockOf(start.physical, memory.pageSize), NewWrite, i, num);
      ghost var prior: int := (num as int) - 1;
      TouchFollows(c, i, num, p);
      ReadableKept(c, memory.C(), i, prior, num, 1, 0, size, p);
      TouchKeepsCursor(c, Page(i, num), start, Page(i, num), 1, p);
      CursorInside(memory.C(), memory.flat, i, num, start, memory.ram[..], memory.swap[..], p);
      var cur;
      ghost var end;
      cur, end := WriteText(i, start, num, tasks + [0], 0, size);
      FollowsTrans(c, TouchPage(c, Page(i, num), 1), memory.C(), i, prior, num, end, 1);
      PageOfLastByte(end, cur.offset, cur.logical, p);
    }

    method WriteText(i: nat, start: Cursor, ghost num: nat, text: seq<Byte>, ghost from: nat, ghost to: nat) returns (cur: Cursor, ghost end: nat)
      requires memory.Valid() && from <= start.logical && start.logical + |text| <= to && text != []
      requires Readable(memory.C(), i, from, to, memory.pageSize)
      requires CursorOn(memory.C(), i, num, start, memory.pageSize)
      requires i < |memory.flat| && start.logical <= |memory.flat[i]|
      modifies memory, memory.ram, memory.swap
      ensures memory.Valid()
      ensures Stepped(old(memory.C()), memory.C(), i, num, end, start, cur, |text|, NewWrite, memory.pageSize)
      ensures Wrote(old(memory.flat), memory.flat, i, start.logical, text)
    {
      ghost var c, f, p := memory.C(), memory.flat, memory.pageSize;
      cur, end := start, num;
      FollowsSelf(c, i, num, 1);
      WroteNothing(f, i, start.logical);
      for k := 0 to |text|
        invariant memory.Valid() && Readable(memory.C(), i, from, to, p)
        invariant Stepped(c, memory.C(), i, num, end, start, cur, k, NewWrite, p)
        invariant Wrote(f, memory.flat, i, start.logical, text[..k])
      {
        ghost var c1, f1, cur1, num1 := memory.C(), memory.flat, cur, end;
        cur, end := memory.StoreChar(text[k], cur, NewWrite, i, end, from, to);
        SteppedJoin(c, c1, memory.C(), i, num, num1, end, start, cur1, cur, k, 1, NewWrite, p);
        WroteJoin(f, f1, memory.flat, i, start.logical, text[..k], [text[k]]);
        assert text[..k] + [text[k]] == text[..k + 1];
      }
      assert text[..|text|] == text;
    }

    // ----- Starting a member -------------------------------------------------------------------------------

    /** The pages under the seat that the patota's next member will take are all there: none of them has been given up
        with a member expelled before. */
    ghost predicate NextSeatLive(pid: Word)
      reads memory
    {
      var i := Find(pid);
      i < |memory.patotas| && memory.pageSize > 0 ==> SeatLive(memory.released, i, memory.patotas[i].written, memory.pageSize)
    }

    /** That is so for as long as nobody of the patota has been expelled. */
    lemma NextSeatIs(pid: Word)
      requires Valid() && AllStay(table, pid)
      ensures NextSeatLive(pid)
    {
      var i := Find(pid);
      assert i < |table| ==> PatotaOk(memory.patotas[i], memory.flat[i], table[i], i, memory.released, memory.pageSize);
      FindAgrees(pid, 0);
    }

    method InitMember(pid: Word, tid: Word, x: Word, y: Word)
      requires Valid() && CanStart(table, pid, tid) && NextSeatLive(pid)
      modifies this, memory, memory.ram, memory.swap
      ensures Valid() && table == Start(old(table), pid, tid, x, y)
    {
      FindAgrees(pid, tid);
      var i := Find(pid);
      var at := SeatAddress(memory.patotas[i].written);
      ghost var c, f, g, p := memory.C(), memory.flat, table[i], memory.pageSize;
      ghost var m := Member(tid, STATE_NEW, x, y, 0);
      assert PatotaOk(c.patotas[i], f[i], g, i, c.released, p);
      SeatReadable(c, f[i], g, i, p);
      WriteFields(i, at, WordBytes(tid), STATE_NEW, WordBytes(x), WordBytes(y), WordBytes(0), WordBytes(0));
      TcbInPieces(m);
      ghost var c1 := memory.C();
      var entry := memory.patotas[i];
      memory.SetHead(i, entry.(written := entry.written + 1, tcbs := entry.tcbs + [TcbAddress(tid, at)]));
      MemberEntered(c, c1, memory.patotas, f, memory.flat, table, i, m, p);
      table := Start(table, pid, tid, x, y);
    }

    /** Writes a TCB as new occupant of its pages. */
    method WriteFields(i: nat, at: nat, tid: seq<Byte>, state: Byte, x: seq<Byte>, y: seq<Byte>, next: seq<Byte>, pcb: seq<Byte>)
      requires memory.Valid() && |tid| == |x| == |y| == |next| == |pcb| == 4
      requires Readable(memory.C(), i, at, at + TCB_SIZE, memory.pageSize)
      modifies memory, memory.ram, memory.swap
      ensures memory.Valid()
      ensures Follows(old(memory.C()), memory.C(), i, BlockOf(at, memory.pageSize) - 1, BlockOf(at + TCB_SIZE - 1, memory.pageSize), 1)
      ensures Wrote(old(memory.flat), memory.flat, i, at, (tid + [state]) + ((x + y) + (next + pcb)))
    {
      ghost var c, p := memory.C(), memory.pageSize;
      AddressJoins(at, p);
      ghost var num := BlockOf(at, p);
      ghost var num1;
      assert LiveAt(c, i, at, p);
      var start := memory.Seek(i, at, NewWrite, num, OffsetOf(at, p));
      ghost var prior: int := (num as int) - 1;
      ReadableKept(c, memory.C(), i, prior, num, 1, at, at + TCB_SIZE, p);
      ghost var c1 := memory.C();
      var end;
      end, num1 := WriteRecord(i, start, tid, state, x, y, next, pcb, num, at, at + TCB_SIZE);
      FollowsTrans(c, c1, memory.C(), i, prior, num, num1, 1);
      PageOfLastByte(num1, end.offset, end.logical, p);
    }

    method WriteRecord(i: nat, cur: Cursor, tid: seq<Byte>, state: Byte, x: seq<Byte>, y: seq<Byte>, next: seq<Byte>, pcb: seq<Byte>,
                       ghost num: nat, ghost from: nat, ghost to: nat)
      returns (end: Cursor, ghost num': nat)
      requires |tid| == |x| == |y| == |next| == |pcb| == 4 && from <= cur.logical && cur.logical + TCB_SIZE <= to
      requires memory.Valid() && CursorOn(memory.C(), i, num, cur, memory.pageSize)
      requires Readable(memory.C(), i, from, to, memory.pageSize)
      modifies memory, memory.ram, memory.swap
      ensures memory.Valid()
      ensures Stepped(old(memory.C()), memory.C(), i, num, num', cur, end, TCB_SIZE, NewWrite, memory.pageSize)
      ensures Wrote(old(memory.flat), memory.flat, i, cur.logical, (tid + [state]) + ((x + y) + (next + pcb)))
    {
      ghost var c1, f := memory.C(), memory.flat;
      ghost var num1;
      var middle;
      middle, num1 := WriteIdentity(i, cur, tid, state, num, from, to);
      ghost var c2, f2 := memory.C(), memory.flat;
      end, num' := WriteFourWords(i, middle, x, y, next, pcb, num1, from, to);
      SteppedJoin(c1, c2, memory.C(), i, num, num1, num', cur, middle, end, 5, 16, NewWrite, memory.pageSize);
      WroteJoin(f, f2, memory.flat, i, cur.logical, tid + [state], (x + y) + (next + pcb));
    }

    method WriteIdentity(i: nat, cur: Cursor, tid: seq<Byte>, state: Byte, ghost num: nat, ghost from: nat, ghost to: nat)
      returns (next: Cursor, ghost num': nat)
      requires |tid| == 4 && from <= cur.logical && cur.logical + 5 <= to
      requires memory.Valid() && CursorOn(memory.C(), i, num, cur, memory.pageSize)
      requires Readable(memory.C(), i, from, to, memory.pageSize)
      modifies memory, memory.ram, memory.swap
      ensures memory.Valid() && Readable(memory.C(), i, from, to, memory.pageSize)
      ensures Stepped(old(memory.C()), memory.C(), i, num, num', cur, next, 5, NewWrite, memory.pageSize)
      ensures Wrote(old(memory.flat), memory.flat, i, cur.logical, tid + [state])
    {
      ghost var c0, f0 := memory.C(), memory.flat;
      ghost var num1;
      var middle;
      middle, num1 := memory.WriteWord(tid, cur, NewWrite, i, num, from, to);
      ghost var c1, f1 := memory.C(), memory.flat;
      next, num' := memory.StoreChar(state, middle, NewWrite, i, num1, from, to);
      WroteJoin(f0, f1, memory.flat, i, cur.logical, tid, [state]);
      SteppedJoin(c0, c1, memory.C(), i, num, num1, num', cur, middle, next, 4, 1, NewWrite, memory.pageSize);
    }

    method WriteFourWords(i: nat, cur: Cursor, x: seq<Byte>, y: seq<Byte>, z: seq<Byte>, w: seq<Byte>, ghost num: nat, ghost from: nat, ghost to: nat)
      returns (next: Cursor, ghost num': nat)
      requires |x| == |y| == |z| == |w| == 4 && from <= cur.logical && cur.logical + 16 <= to
      requires memory.Valid() && CursorOn(memory.C(), i, num, cur, memory.pageSize)
      requires Readable(memory.C(), i, from, to, memory.pageSize)
      modifies memory, memory.ram, memory.swap
      ensures memory.Valid()
      ensures Stepped(old(memory.C()), memory.C(), i, num, num', cur, next, 16, NewWrite, memory.pageSize)
      ensures Wrote(old(memory.flat), memory.flat, i, cur.logical, (x + y) + (z + w))
    {
      ghost var c0, f0 := memory.C(), memory.flat;
      ghost var num1;
      var middle;
      middle, num1 := WriteTwoWords(x, y, cur, NewWrite, i, num, from, to);
      ghost var c1, f1 := memory.C(), memory.flat;
      next, num' := WriteTwoWords(z, w, middle, NewWrite, i, num1, from, to);
      WroteJoin(f0, f1, memory.flat, i, cur.logical, x + y, z + w);
      SteppedJoin(c0, c1, memory.C(), i, num, num1, num', cur, middle, next, 8, 8, NewWrite, memory.pageSize);
    }

    // ----- Reading members ------------------------------------------------------------------------------------

    /** Reads the member whose TCB begins at `at`, field by field. */
    method ReadMember(i: nat, at: nat) returns (m: Member, pcb: Word)
      requires memory.Valid() && Readable(memory.C(), i, at, at + TCB_SIZE, memory.pageSize)
      modifies memory, memory.ram, memory.swap
      ensures memory.Valid() && memory.flat == old(memory.flat) && Quiet(old(memory.C()), memory.C())
      ensures i < |memory.flat| && at + TCB_SIZE <= |memory.flat[i]|
      ensures var s := memory.flat[i];
        && m == Member(BytesWord(s[at..at + 4]), s[at + 4], BytesWord(s[at + 5..at + 9]),
                       BytesWord(s[at + 9..at + 13]), BytesWord(s[at + 13..at + 17]))
        && pcb == BytesWord(s[at + 17..at + 21])
      ensures Route(memory.policy, old(memory.C()), StretchPages(i, at, TCB_SIZE, memory.pageSize), memory.C())
    {
      hide Route, StretchPages;
      var tid, state, x, y, next, p := ReadFields(i, at);
      m := Member(BytesWord(tid), state, BytesWord(x), BytesWord(y), BytesWord(next));
      pcb := BytesWord(p);
    }

    method ReadFields(i: nat, at: nat)
      returns (tid: seq<Byte>, state: Byte, x: seq<Byte>, y: seq<Byte>, next: seq<Byte>, p: seq<Byte>)
      requires memory.Valid() && Readable(memory.C(), i, at, at + TCB_SIZE, memory.pageSize)
      modifies memory, memory.ram, memory.swap
      ensures memory.Valid() && memory.flat == old(memory.flat) && Quiet(old(memory.C()), memory.C())
      ensures i < |memory.flat| && at + TCB_SIZE <= |memory.flat[i]|
      ensures var s := memory.flat[i];
        && tid == s[at..at + 4] && state == s[at + 4] && x == s[at + 5..at + 9] && y == s[at + 9..at + 13]
        && next == s[at + 13..at + 17] && p == s[at + 17..at + 21]
      ensures Route(memory.policy, old(memory.C()), StretchPages(i, at, TCB_SIZE, memory.pageSize), memory.C())
    {
      hide Route, Entered;
      ghost var c := memory.C();
      var cur;
      ghost var num, num1;
      tid, state, cur, num := ReadIdentity(i, at);
      ghost var c1, num0 := memory.C(), num;
      x, y, cur, num1 := ReadTwoWords(cur, Modification, i, num, at, at + TCB_SIZE);
      QuietStep(c, c1, memory.C(), i, num, num1);
      ghost var c2 := memory.C();
      next, p, cur, num := ReadTwoWords(cur, Modification, i, num1, at, at + TCB_SIZE);
      QuietStep(c, c2, memory.C(), i, num1, num);
      PageOfLastByte(num, cur.offset, cur.logical, memory.pageSize);
      WentOn(memory.policy, c1, c2, memory.C(), i, num0, num1, num, Modification);
      RunJoin(memory.policy, c, c1, memory.C(), i, BlockOf(at, memory.pageSize), num0 + 1, num + 1);
    }

    method ReadIdentity(i: nat, at: nat) returns (tid: seq<Byte>, state: Byte, cur: Cursor, ghost num: nat)
      requires memory.Valid() && Readable(memory.C(), i, at, at + TCB_SIZE, memory.pageSize)
      modifies memory, memory.ram, memory.swap
      ensures memory.Valid() && memory.flat == old(memory.flat) && Quiet(old(memory.C()), memory.C())
      ensures Readable(memory.C(), i, at, at + TCB_SIZE, memory.pageSize)
      ensures CursorOn(memory.C(), i, num, cur, memory.pageSize) && cur.logical == at + 5
      ensures i < |memory.flat| && at + 5 <= |memory.flat[i]|
      ensures |tid| == 4 && tid == memory.flat[i][at..at + 4] && state == memory.flat[i][at + 4]
      ensures BlockOf(at, memory.pageSize) <= num
      ensures Route(memory.policy, old(memory.C()), PageRun(i, BlockOf(at, memory.pageSize), num + 1), memory.C())
    {
      hide Route, Entered;
      ghost var c := memory.C();
      ghost var num1;
      cur, num := SeekField(i, at, 0, TCB_SIZE);
      ghost var c1, num0 := memory.C(), num;
      tid, cur, num1 := memory.LoadWord(cur, Modification, i, num, at, at + TCB_SIZE);
      QuietStep(c, c1, memory.C(), i, num, num1);
      ghost var c2 := memory.C();
      state, cur, num := memory.LoadChar(cur, Modification, i, num1, at, at + TCB_SIZE);
      QuietStep(c, c2, memory.C(), i, num1, num);
      WentOn(memory.policy, c1, c2, memory.C(), i, num0, num1, num, Modification);
      RunJoin(memory.policy, c, c1, memory.C(), i, num0, num0 + 1, num + 1);
    }

    /** What is read at a registered TCB is the member the table knows. */
    lemma MemberStored(i: nat, k: nat)
      requires Valid() && i < |table| && k < |table[i].crew|
      ensures k < |memory.patotas[i].tcbs| && memory.patotas[i].tcbs[k].address + TCB_SIZE <= |memory.flat[i]|
      ensures var s, at := memory.flat[i], memory.patotas[i].tcbs[k].address;
        table[i].crew[k] == Member(BytesWord(s[at..at + 4]), s[at + 4], BytesWord(s[at + 5..at + 9]),
                                   BytesWord(s[at + 9..at + 13]), BytesWord(s[at + 13..at + 17]))
    {
      assert PatotaOk(memory.patotas[i], memory.flat[i], table[i], i, memory.released, memory.pageSize);
      assert TcbOk(memory.patotas[i], memory.flat[i], table[i], k);
      TcbDecodes(memory.flat[i], memory.patotas[i].tcbs[k].address, table[i].crew[k]);
    }

    /** Information about one member. */
    method GetMember(pid: Word, tid: Word) returns (m: Member)
      requires Valid() && HasMember(table, pid, tid)
      modifies memory, memory.ram, memory.swap
      ensures Valid() && table == old(table) && m == Lookup(table, pid, tid)
    {
      FindAgrees(pid, tid);
      var i := Find(pid);
      var k := FindTcb(memory.patotas[i].tcbs, tid);
      m := ReadRegistered(i, k);
    }

    method ReadRegistered(i: nat, k: nat) returns (m: Member)
      requires Valid() && i < |table| && k < |table[i].crew| == |memory.patotas[i].tcbs|
      modifies memory, memory.ram, memory.swap
      ensures Valid() && Quiet(old(memory.C()), memory.C()) && m == table[i].crew[k]
      ensures Route(memory.policy, old(memory.C()), StretchPages(i, old(memory.patotas[i].tcbs[k].address), TCB_SIZE, memory.pageSize), memory.C())
    {
      hide Route, StretchPages;
      ghost var c := memory.C();
      MemberReadable(i, k);
      MemberStored(i, k);
      var pcb;
      m, pcb := ReadMember(i, memory.patotas[i].tcbs[k].address);
      TableKept(c, memory.C(), memory.flat, table, memory.pageSize);
    }

    /** The listing of all members, patota by patota. */
    method ListAll() returns (entries: seq<Entry>)
      requires Valid()
      modifies memory, memory.ram, memory.swap
      ensures Valid() && table == old(table) && entries == Listing(table)
    {
      entries := [];
      ghost var c := memory.C();
      FollowsSelf(c, 0, 0, 0);
      var i := 0;
      while i < |memory.patotas|
        invariant Valid() && i <= |table| == |memory.patotas| && Quiet(c, memory.C())
        invariant entries == Listing(table[..i])
        decreases |table| - i
      {
        ghost var before := entries;
        var part := ListPatota(i, c);
        entries := entries + part;
        assert table[..i + 1] == table[..i] + [table[i]];
        ListingSnoc(table[..i], table[i]);
        i := i + 1;
      }
      assert table[..i] == table;
    }

    method ListPatota(i: nat, ghost c: Control) returns (entries: seq<Entry>)
      requires Valid() && i < |table| && Quiet(c, memory.C())
      modifies memory, memory.ram, memory.swap
      ensures Valid() && Quiet(c, memory.C()) && |memory.patotas| == |table|
      ensures entries == CrewEntries(table[i].pid, table[i].crew)
    {
      entries := [];
      assert PatotaOk(memory.patotas[i], memory.flat[i], table[i], i, memory.released, memory.pageSize);
      var k := 0;
      while k < |memory.patotas[i].tcbs|
        invariant Valid() && Quiet(c, memory.C())
        invariant k <= |table[i].crew| == |memory.patotas[i].tcbs|
        invariant entries == CrewEntries(table[i].pid, table[i].crew)[..k]
        decreases |table[i].crew| - k
      {
        ghost var c1 := memory.C();
        var m := ReadRegistered(i, k);
        FollowsTrans(c, c1, memory.C(), 0, 0, 0, 0, 0);
        assert PatotaOk(memory.patotas[i], memory.flat[i], table[i], i, memory.released, memory.pageSize);
        entries := entries + [Entry(memory.patotas[i].pid, m.tid, m.state, m.x, m.y)];
        k := k + 1;
      }
    }

    // ----- Tasks -----------------------------------------------------------------------------------------------

    /** Increment of the member's task counter cannot hit the wrong page: either the counter does not straddle
        two pages, or the policy is LRU and there are two RAM frames at least. */
    predicate CounterSafe(pid: Word, tid: Word)
      reads memory
    {
      var i := Find(pid);
      i < |memory.patotas| &&
      var k := FindTcb(memory.patotas[i].tcbs, tid);
      k < |memory.patotas[i].tcbs| && CounterSafeAt(memory.patotas[i].tcbs[k].address)
    }

    /** It will hit the wrong page for sure: the counter straddles two pages and there is a single RAM frame. */
    predicate CounterLost(pid: Word, tid: Word)
      reads memory
    {
      var i := Find(pid);
      i < |memory.patotas| &&
      var k := FindTcb(memory.patotas[i].tcbs, tid);
      k < |memory.patotas[i].tcbs| && CounterLostAt(memory.patotas[i].tcbs[k].address)
    }

    predicate CounterLostAt(at: nat)
      reads memory
    {
      |memory.ramUsed| == 1 && memory.pageSize > 0 && OffsetOf(at + 13, memory.pageSize) + 4 > memory.pageSize
    }

    predicate CounterSafeAt(at: nat)
      reads memory
    {
      || (memory.policy.Lru? && |memory.ramUsed| >= 2)
      || (memory.pageSize > 0 && OffsetOf(at + 13, memory.pageSize) + 4 <= memory.pageSize)
    }

    /** Handing out the member's next task will leave its stored counter wrong: once the PCB, the TCB and the text of
        the task have been read and the way to the counter gone, reading the counter pushes the page of its first
        bytes out of RAM. */
    ghost predicate CounterHit(pid: Word, tid: Word)
      reads this, memory
    {
      var i := Find(pid);
      i < |memory.patotas| && i < |table| && memory.pageSize > 0 &&
      var k := FindTcb(memory.patotas[i].tcbs, tid);
      k < |memory.patotas[i].tcbs| && k < |table[i].crew| && table[i].crew[k].next < |memory.patotas[i].taskOffsets| &&
      HitAfter(memory.policy, memory.C(), TaskRoute(memory.patotas[i], i, k, table[i].crew[k].next, TaskBase(table[i]), memory.pageSize),
               i, memory.patotas[i].tcbs[k].address + 13, memory.pageSize)
    }

    /** The next task of a member, as the text that the client receives; none once all have been handed out. The member
        moves on to the following task exactly when its counter is not hit. */
    method NextTask(pid: Word, tid: Word) returns (task: Option<seq<Byte>>)
      requires Valid() && HasMember(table, pid, tid)
      modifies this, memory, memory.ram, memory.swap
      ensures memory.Valid() && Lookup(old(table), pid, tid).next + 1 < 0x1_0000_0000
      ensures task.None? <==> CrewTable.NextTask(old(table), pid, tid).None?
      ensures task.Some? ==> Chomp(CString(task.value)) == CrewTable.NextTask(old(table), pid, tid).value
      ensures !old(CounterHit(pid, tid)) ==> Valid() && table == Advance(old(table), pid, tid)
      ensures old(CounterHit(pid, tid)) ==> !TableOk(memory.C(), memory.flat, Advance(old(table), pid, tid), memory.pageSize)
      ensures old(CounterSafe(pid, tid)) || CrewTable.NextTask(old(table), pid, tid).None? ==> !old(CounterHit(pid, tid))
      ensures old(CounterLost(pid, tid)) && CrewTable.NextTask(old(table), pid, tid).Some? ==> old(CounterHit(pid, tid))
    {
      hide FramesOk, StampsOk, HitAfter, TaskRoute, CString, Chomp;
      FindAgrees(pid, tid);
      var i := Find(pid);
      var k := FindTcb(memory.patotas[i].tcbs, tid);
      assert PatotaOk(memory.patotas[i], memory.flat[i], table[i], i, memory.released, memory.pageSize);
      assert TcbOk(memory.patotas[i], memory.flat[i], table[i], k);
      LinesCount(table[i].tasks);
      OffsetsCount(table[i].tasks, 0);
      ghost var hit;
      task, hit := HandOut(i, k);
      if !hit {
        assert table == Advance(old(table), pid, tid);
      }
    }

    /** The same for the member at a position. */
    method HandOut(i: nat, k: nat) returns (task: Option<seq<Byte>>, ghost hit: bool)
      requires Valid() && i < |table| && k < |table[i].crew| == |memory.patotas[i].tcbs| && table[i].crew[k].next <= |Lines(table[i].tasks)|
      requires |memory.patotas[i].taskOffsets| == |Lines(table[i].tasks)| < 0x8000_0000
      modifies this, memory, memory.ram, memory.swap
      ensures memory.Valid()
      ensures task.None? <==> old(table)[i].crew[k].next == |Lines(old(table)[i].tasks)|
      ensures task.Some? ==> Chomp(CString(task.value)) == Lines(old(table)[i].tasks)[old(table)[i].crew[k].next]
      ensures !hit ==> Valid() && table == if task == None then old(table) else Advanced(old(table), i, k)
      ensures hit ==> task.Some? && !TableOk(memory.C(), memory.flat, Advanced(old(table), i, k), memory.pageSize)
      ensures hit <==> old(table[i].crew[k].next < |memory.patotas[i].taskOffsets| &&
                           HitAfter(memory.policy, memory.C(), TaskRoute(memory.patotas[i], i, k, table[i].crew[k].next,
                                                                         TaskBase(table[i]), memory.pageSize),
                                    i, memory.patotas[i].tcbs[k].address + 13, memory.pageSize))
      ensures old(CounterSafeAt(memory.patotas[i].tcbs[k].address)) ==> !hit
      ensures old(table[i].crew[k].next < |Lines(table[i].tasks)| && CounterLostAt(memory.patotas[i].tcbs[k].address)) ==> hit
    {
      hide Lines, CString, Chomp, Base, FramesOk, StampsOk, Route, StretchPages, HitAfter, PatotaOk;
      ghost var c, n, at := memory.C(), table[i].crew[k].next, memory.patotas[i].tcbs[k].address;
      var start := ReadTaskBase(i);
      ghost var c1 := memory.C();
      StillThere(c, c1, memory.flat, table, i, memory.pageSize);
      var m := ReadRegistered(i, k);
      FollowsTrans(c, c1, memory.C(), 0, 0, 0, 0, 0);
      ghost var c2 := memory.C();
      StillThere(c, c2, memory.flat, table, i, memory.pageSize);
      hit := false;
      task := FetchTask(i, m.next, start);
      if task == None {
        return;
      }
      ghost var c3 := memory.C();
      FollowsTrans(c, c2, c3, 0, 0, 0, 0, 0);
      StillThere(c, c3, memory.flat, table, i, memory.pageSize);
      hit := AdvanceCounter(i, k);
      HitJoined(memory.policy, c, c1, c2, c3, c.patotas[i], i, k, n, TaskBase(old(table)[i]), memory.pageSize);
    }

    lemma StillThere(c: Control, c': Control, flat: seq<seq<Byte>>, t: Table, i: nat, p: nat)
      requires p > 0 && TableOk(c', flat, t, p) && i < |t| && Quiet(c, c') && |c.patotas| == |t|
      ensures SameHead(c.patotas[i], c'.patotas[i]) && |c'.patotas[i].tcbs| == |t[i].crew|
    {
      assert PatotaOk(c'.patotas[i], flat[i], t[i], i, c'.released, p);
    }

    /** The address of the task text, from the PCB. */
    method ReadTaskBase(i: nat) returns (start: Word)
      requires Valid() && i < |table|
      modifies memory, memory.ram, memory.swap
      ensures Valid() && Quiet(old(memory.C()), memory.C()) && start == TaskBase(table[i])
      ensures Route(memory.policy, old(memory.C()), StretchPages(i, 4, 4, memory.pageSize), memory.C())
    {
      hide Route, Entered;
      ghost var c := memory.C();
      assert PatotaOk(memory.patotas[i], memory.flat[i], table[i], i, memory.released, memory.pageSize);
      HeaderReadable(c, memory.flat[i], table[i], i, memory.pageSize);
      ReadablePart(c, i, 0, PCB_SIZE, 4, 8, memory.pageSize);
      var cur, data;
      ghost var num, num1;
      cur, num := SeekField(i, 4, 0, 4);
      ghost var c1 := memory.C();
      data, cur, num1 := memory.LoadWord(cur, Modification, i, num, 4, 8);
      QuietStep(c, c1, memory.C(), i, num, num1);
      PageOfLastByte(num1, cur.offset, cur.logical, memory.pageSize);
      RunJoin(memory.policy, c, c1, memory.C(), i, num, num + 1, num1 + 1);
      TableKept(c, memory.C(), memory.flat, table, memory.pageSize);
      start := BytesWord(data);
      WordRoundTrip(TaskBase(table[i]));
    }

    /** Copies task number `n` of a patota out of its memory, terminated by a zero byte. */
    method FetchTask(i: nat, n: nat, start: nat) returns (task: Option<seq<Byte>>)
      requires Valid() && i < |table| && start == TaskBase(table[i]) && n <= |Lines(table[i].tasks)|
      modifies memory, memory.ram, memory.swap
      ensures Valid() && Quiet(old(memory.C()), memory.C())
      ensures task.None? <==> n == |Lines(table[i].tasks)|
      ensures task.Some? ==> Chomp(CString(task.value)) == Lines(table[i].tasks)[n]
      ensures n < |Lines(table[i].tasks)| ==> n < |old(memory.patotas[i].taskOffsets)|
      ensures n < |Lines(table[i].tasks)| ==>
                Route(memory.policy, old(memory.C()), TaskPages(old(memory.patotas[i]), i, n, start, memory.pageSize), memory.C())
    {
      hide Route, StretchPages, FramesOk, StampsOk;
      ghost var c, g := memory.C(), table[i];
      assert PatotaOk(c.patotas[i], memory.flat[i], g, i, c.released, memory.pageSize);
      TaskStretch(c, memory.flat[i], g, i, n, memory.pageSize);
      hide PatotaOk, Lines, CString, Chomp, Base;
      var offsets := memory.patotas[i].taskOffsets;
      if n == |offsets| {
        FollowsSelf(c, 0, 0, 0);
        return None;
      }
      var to := TaskEnd(offsets, n, memory.patotas[i].taskSize);
      var data := ReadStretch(i, start + offsets[n], start + to, start, start + |g.tasks| + 1);
      assert data == memory.flat[i][TaskBase(g) + offsets[n]..TaskBase(g) + to];
      TableKept(c, memory.C(), memory.flat, table, memory.pageSize);
      task := Some(data + [0]);
    }

    /** Reads the bytes from `from` up to `to`, one by one. */
    method ReadStretch(i: nat, from: nat, to: nat, ghost lo: nat, ghost hi: nat) returns (data: seq<Byte>)
      requires memory.Valid() && lo <= from <= to <= hi && from < hi && Readable(memory.C(), i, lo, hi, memory.pageSize)
      modifies memory, memory.ram, memory.swap
      ensures memory.Valid() && memory.flat == old(memory.flat) && Quiet(old(memory.C()), memory.C())
      ensures i < |memory.flat| && to <= |memory.flat[i]| && data == memory.flat[i][from..to]
      ensures Route(memory.policy, old(memory.C()), StretchPages(i, from, to - from, memory.pageSize), memory.C())
    {
      hide Route, Entered, FramesOk, StampsOk;
      ghost var c := memory.C();
      var cur;
      ghost var num;
      ReadablePart(c, i, lo, hi, from, hi, memory.pageSize);
      cur, num := SeekField(i, from, 0, hi - from);
      ghost var num0 := num;
      CursorInside(memory.C(), memory.flat, i, num, cur, memory.ram[..], memory.swap[..], memory.pageSize);
      data := [];
      for at := from to to
        invariant memory.Valid() && memory.flat == old(memory.flat) && Quiet(c, memory.C())
        invariant cur.logical == at && i < |memory.flat| && at <= |memory.flat[i]|
        invariant CursorOn(memory.C(), i, num, cur, memory.pageSize)
        invariant Readable(memory.C(), i, from, hi, memory.pageSize)
        invariant data == memory.flat[i][from..at]
        invariant num0 <= num && Route(memory.policy, c, PageRun(i, num0, num + 1), memory.C())
        invariant if at > from then cur.offset > 0 else num == num0
      {
        ghost var c1, num1 := memory.C(), num;
        var b;
        b, cur, num := memory.LoadChar(cur, Modification, i, num, from, hi);
        QuietStep(c, c1, memory.C(), i, num1, num);
        RunJoin(memory.policy, c, c1, memory.C(), i, num0, num1 + 1, num + 1);
        data := data + [b];
      }
      if to > from {
        PageOfLastByte(num, cur.offset, cur.logical, memory.pageSize);
      }
    }

    /** Increments the task counter of a member, unless the counter is hit. */
    method AdvanceCounter(i: nat, k: nat) returns (ghost hit: bool)
      requires Valid() && i < |table| && k < |table[i].crew| == |memory.patotas[i].tcbs|
      requires table[i].crew[k].next < |Lines(table[i].tasks)| < 0x8000_0000
      modifies this, memory, memory.ram, memory.swap
      ensures memory.Valid()
      ensures !hit ==> Valid() && table == Advanced(old(table), i, k)
      ensures hit ==> !TableOk(memory.C(), memory.flat, Advanced(old(table), i, k), memory.pageSize)
      ensures hit <==> old(HitAfter(memory.policy, memory.C(), StretchPages(i, memory.patotas[i].tcbs[k].address, 13, memory.pageSize),
                                    i, memory.patotas[i].tcbs[k].address + 13, memory.pageSize))
      ensures old(CounterSafeAt(memory.patotas[i].tcbs[k].address)) ==> !hit
      ensures old(table[i].crew[k].next < |Lines(table[i].tasks)| && CounterLostAt(memory.patotas[i].tcbs[k].address)) ==> hit
    {
      ghost var c, f, p := memory.C(), memory.flat, memory.pageSize;
      ghost var m := table[i].crew[k];
      assert PatotaOk(c.patotas[i], f[i], table[i], i, c.released, p);
      assert TcbOk(c.patotas[i], f[i], table[i], k);
      MemberReadable(i, k);
      hide Lines, Route, StretchPages, HitAfter, PatotaOk, FramesOk, StampsOk, CounterSafeAt;
      hit := BumpCounter(i, memory.patotas[i].tcbs[k].address, m);
      if hit {
        CounterWrong(c, memory.C(), memory.flat, table, i, k, p);
      } else {
        TcbSetNext(m, m.next + 1);
        MemberRewritten(c, memory.C(), f, memory.flat, table, i, k, 13, WordBytes(m.next + 1), m.(next := m.next + 1), p);
        table := Advanced(table, i, k);
      }
    }

    /** The stored counter of the member whose TCB begins at `at` goes up by one, unless it is hit. */
    method BumpCounter(i: nat, at: nat, ghost m: Member) returns (ghost hit: bool)
      requires memory.Valid() && memory.admitted < memory.counter
      requires Readable(memory.C(), i, at, at + TCB_SIZE, memory.pageSize)
      requires i < |memory.flat| && at + TCB_SIZE <= |memory.flat[i]|
      requires memory.flat[i][at..at + TCB_SIZE] == TcbBytes(m) && m.next + 1 < 0x1_0000_0000
      modifies memory, memory.ram, memory.swap
      ensures memory.Valid() && Quiet(old(memory.C()), memory.C())
      ensures !hit ==> Wrote(old(memory.flat), memory.flat, i, at + 13, WordBytes(m.next + 1))
      ensures hit ==> i < |memory.flat| && at + 17 <= |memory.flat[i]| && memory.flat[i][at + 13..at + 17] != WordBytes(m.next + 1)
      ensures hit <==> HitAfter(memory.policy, old(memory.C()), StretchPages(i, at, 13, memory.pageSize), i, at + 13, memory.pageSize)
      ensures old(CounterSafeAt(at)) ==> !hit
      ensures old(CounterLostAt(at)) ==> hit
    {
      hide Route, StretchPages, HitAfter, FramesOk, StampsOk, CounterHazard, Bumped, TcbBytes, WordBytes, BytesWord;
      ghost var c, p := memory.C(), memory.pageSize;
      var cur;
      ghost var num;
      cur, num := SeekField(i, at, 13, TCB_SIZE);
      ghost var c1 := memory.C();
      ReadablePart(c1, i, at, at + TCB_SIZE, at + 13, at + 17, p);
      if CounterSafeAt(at) {
        NoHazard(memory.policy, c1, i, num, cur, p);
      }
      if CounterLostAt(at) {
        OneFrameHazard(memory.policy, c1, i, num, cur, p);
      }
      hit := CounterHazard(memory.policy, c1, i, num, cur, p);
      HitHere(memory.policy, c, c1, i, at, num, cur, p);
      CounterAt(memory.flat[i], at, m);
      ghost var f := memory.flat;
      ghost var w := memory.BumpWord(cur, i, num);
      FollowsTrans(c, c1, memory.C(), 0, 0, 0, 0, 0);
      if hit {
        CounterBytes(f[i], at, m);
        BumpedWrong(f, memory.flat, i, num, cur, w, p);
      }
    }

    // ----- Expulsion -------------------------------------------------------------------------------------------

    /** Expels a member. The last one takes the patota with it, and that goes well exactly when no stale swap
        frame of the patota has become the home of another patota's page. */
    method Expel(pid: Word, tid: Word)
      requires Valid() && HasMember(table, pid, tid)
      modifies this, memory
      ensures old(NextSeatLive(pid)) && |old(table)[FindPid(Pids(old(table)), pid)].crew| > 1 ==>
                (NextSeatLive(pid) <==> old(SparesNextSeat(pid, tid)))
      ensures old(ExpelIsClean(pid)) ==> Valid() && table == CrewTable.Expel(old(table), pid, tid)
      ensures !old(ExpelIsClean(pid)) ==> !LiveFramesUsed(memory.C())
    {
      hide FramesOk, StampsOk, PagesLeft, SeatLive, SeatShared;
      FindAgrees(pid, tid);
      var i := Find(pid);
      TakeOff(i, FindTcb(memory.patotas[i].tcbs, tid));
      if memory.patotas[i].tcbs == [] {
        DropPatota(i);
      } else {
        FindAgrees(pid, tid);
      }
    }

    /** The member gives up its pages and leaves the records of its patota. */
    method TakeOff(i: nat, k: nat)
      requires Valid() && i < |table| && k < |table[i].crew| == |memory.patotas[i].tcbs|
      modifies this, memory
      ensures Valid() && table == old(table)[i := old(table)[i].(crew := old(table)[i].crew[..k] + old(table)[i].crew[k + 1..])]
      ensures PatotaPids(memory.patotas) == old(PatotaPids(memory.patotas))
      ensures i < |memory.patotas| && memory.patotas[i].written == old(memory.patotas)[i].written
      ensures memory.patotas[i].tcbs == old(memory.patotas)[i].tcbs[..k] + old(memory.patotas)[i].tcbs[k + 1..]
      ensures NoStaleClash(memory.C(), i) <==> old(NoStaleClash(memory.C(), i))
      ensures var started := memory.patotas[i].written;
        memory.pageSize > 0 && old(SeatLive(memory.released, i, started, memory.pageSize)) ==>
          (SeatLive(memory.released, i, started, memory.pageSize) <==>
           SeatShared(old(memory.C()), i, old(memory.patotas)[i].tcbs[k].address, started, memory.pageSize))
    {
      hide FramesOk, StampsOk, SeatLive, SeatShared;
      ghost var c, f, p := memory.C(), memory.flat, memory.pageSize;
      MemberReadable(i, k);
      LeaveTcb(i, memory.patotas[i].tcbs[k].address);
      ghost var c1 := memory.C();
      SeatSpared(c, c1, i, c.patotas[i].tcbs[k].address, p);
      hide Lines, CString, Base, PatotaOk;
      assert SameHead(c.patotas[i], c1.patotas[i]);
      SamePids(c, c1);
      var entry := memory.patotas[i];
      memory.SetHead(i, entry.(tcbs := entry.tcbs[..k] + entry.tcbs[k + 1..]));
      MemberGone(c, c1, memory.patotas, f, table, i, k, p);
      ClashSameRows(c1, memory.C(), i);
      ghost var g := table[i];
      table := table[i := g.(crew := g.crew[..k] + g.crew[k + 1..])];
    }

    /** A patota without members is released. */
    method DropPatota(i: nat)
      requires Valid() && i < |table|
      modifies this, memory
      ensures table == old(table)[..i] + old(table)[i + 1..]
      ensures old(NoStaleClash(memory.C(), i)) ==> Valid()
      ensures LiveFramesUsed(memory.C()) <==> old(NoStaleClash(memory.C(), i))
    {
      hide FramesOk, StampsOk, PatotaOk;
      ghost var c, f := memory.C(), memory.flat;
      memory.Remove(i);
      if NoStaleClash(c, i) {
        PatotaGone(c, f, table, i, memory.pageSize);
      }
      table := table[..i] + table[i + 1..];
    }

    /** No page that this expulsion takes the member off, as its only occupant, is also under the next seat. */
    ghost predicate SparesNextSeat(pid: Word, tid: Word)
      reads memory
    {
      var i := Find(pid);
      i < |memory.patotas| && memory.pageSize > 0 &&
      var k := FindTcb(memory.patotas[i].tcbs, tid);
      k < |memory.patotas[i].tcbs| &&
      SeatShared(memory.C(), i, memory.patotas[i].tcbs[k].address, memory.patotas[i].written, memory.pageSize)
    }

    /** Removing the patota, if this expulsion does that, will release nobody else's frames. */
    ghost predicate ExpelIsClean(pid: Word)
      reads memory
    {
      var i := Find(pid);
      i < |memory.patotas| && |memory.patotas[i].tcbs| == 1 ==> NoStaleClash(memory.C(), i)
    }

    /** A check that a maintainer could make before an expulsion that takes the patota with it: no row of another patota
        that is out of RAM names a swap frame that a row of this patota names. */
    predicate LooksClean(pid: Word)
      reads memory
    {
      var i := Find(pid);
      i < |memory.patotas| && |memory.patotas[i].tcbs| == 1 ==> NoRowShared(memory.patotas, i)
    }

    /** The check is enough, and exact as long as no page given up early still names a swap frame. */
    lemma LooksCleanIs(pid: Word)
      requires Valid()
      ensures LooksClean(pid) ==> ExpelIsClean(pid)
      ensures NoneNamedLate(memory.C()) ==> (LooksClean(pid) <==> ExpelIsClean(pid))
    {
      var c, i := memory.C(), Find(pid);
      if i < |memory.patotas| {
        NoRowSharedIs(c, i);
      }
    }

    /** The pages under the 21 bytes at `at` lose an occupant each. */
    method LeaveTcb(i: nat, at: nat)
      requires memory.Valid()
      requires Readable(memory.C(), i, at, at + TCB_SIZE, memory.pageSize)
      modifies memory
      ensures memory.Valid() && memory.flat == old(memory.flat)
      ensures PagesLeft(old(memory.C()), memory.C(), i, BlockOf(at, memory.pageSize), LastLeft(at, memory.pageSize) + 1)
    {
      hide PagesLeft;
      ghost var c, p := memory.C(), memory.pageSize;
      var page, offset := BlockOf(at, memory.pageSize), OffsetOf(at, memory.pageSize);
      AddressJoins(at, p);
      assert LiveAt(c, i, at, p);
      memory.LeaveLive(i, page);
      ghost var first, start := page, offset;
      for n := 0 to TCB_SIZE
        invariant memory.Valid() && memory.flat == old(memory.flat)
        invariant offset == start + n && page == if start + n > p then first + 1 else first
        invariant PagesLeft(c, memory.C(), i, first, page + 1)
      {
        if offset == memory.pageSize {
          page := page + 1;
          BoundaryLive(c, memory.C(), i, at + n, first, page, p);
          LeaveAnother(c, i, first, page);
        }
        offset := offset + 1;
      }
    }

    method LeaveAnother(ghost c: Control, i: nat, ghost first: nat, page: nat)
      requires memory.Valid() && Live(memory.C(), Page(i, page)) && first <= page
      requires PagesLeft(c, memory.C(), i, first, page)
      modifies memory
      ensures memory.Valid() && memory.flat == old(memory.flat)
      ensures PagesLeft(c, memory.C(), i, first, page + 1)
    {
      ghost var c1 := memory.C();
      memory.LeaveLive(i, page);
      LeaveMore(c, c1, memory.C(), i, first, page);
    }
  }

  lemma SamePids(c: Control, c1: Control)
    requires |c1.patotas| == |c.patotas| && forall k :: 0 <= k < |c.patotas| ==> SameHead(c.patotas[k], c1.patotas[k])
    ensures PatotaPids(c1.patotas) == PatotaPids(c.patotas)
  {
  }

  lemma SeatSpared(c: Control, c1: Control, i: nat, at: nat, p: nat)
    requires p > 0 && i < |c.patotas| && PagesLeft(c, c1, i, BlockOf(at, p), LastLeft(at, p) + 1)
    ensures var started := c.patotas[i].written;
      SeatLive(c.released, i, started, p) ==> (SeatLive(c1.released, i, started, p) <==> SeatShared(c, i, at, started, p))
  {
    if SeatLive(c.released, i, c.patotas[i].written, p) {
      SeatStaysIff(c, c1, i, at, c.patotas[i].written, p);
    }
  }

  lemma LeaveMore(c: Control, c1: Control, c2: Control, i: nat, lo: nat, hi: nat)
    requires PagesLeft(c, c1, i, lo, hi) && PagesLeft(c1, c2, i, hi, hi + 1) && lo <= hi
    ensures PagesLeft(c, c2, i, lo, hi + 1)
  {
    forall k | 0 <= k < |c.patotas| ensures SameHead(c.patotas[k], c2.patotas[k]) {
      assert SameHead(c.patotas[k], c1.patotas[k]) && SameHead(c1.patotas[k], c2.patotas[k]);
    }
    forall q | IsPage(c.patotas, q)
      ensures RowAt(c2.patotas, q).occupants ==
              RowAt(c.patotas, q).occupants - if q.pat == i && lo <= q.num < hi + 1 then 1 else 0
    {
      assert SameHead(c.patotas[q.pat], c1.patotas[q.pat]);
      assert IsPage(c1.patotas, q);
    }
    forall q | q in c2.released && q !in c.released
      ensures q.pat == i && lo <= q.num < hi + 1 && IsPage(c2.patotas, q) && RowAt(c2.patotas, q).occupants == 0
    {
      assert SameHead(c1.patotas[i], c2.patotas[i]);
    }
    forall q | IsPage(c.patotas, q) && q.pat == i && lo <= q.num < hi + 1 && RowAt(c2.patotas, q).occupants == 0
      ensures q in c2.released
    {
      assert SameHead(c.patotas[q.pat], c1.patotas[q.pat]);
      assert IsPage(c1.patotas, q);
    }
  }

  /** The byte at a page boundary of a readable stretch is on a page not left yet. */
  lemma BoundaryLive(c: Control, c1: Control, i: nat, at: nat, first: nat, page: nat, p: nat)
    requires p > 0 && at == Base(page, p) && LiveAt(c, i, at, p) && PagesLeft(c, c1, i, first, page)
    ensures Live(c1, Page(i, page))
  {
    AddressParts(page, 0, p);
    assert SameHead(c.patotas[i], c1.patotas[i]);
  }

  lemma ClashSameRows(c: Control, c': Control, i: nat)
    requires i < |c.patotas| == |c'.patotas| && c'.patotas[i].rows == c.patotas[i].rows && c'.swapOwner == c.swapOwner
    ensures NoStaleClash(c', i) <==> NoStaleClash(c, i)
  {
    forall k | 0 <= k < |c.patotas[i].rows|
      ensures HarmlessRow(c', i, c'.patotas[i].rows[k]) <==> HarmlessRow(c, i, c.patotas[i].rows[k])
    {
    }
  }

  /** Releases among the pages of other patotas do not matter. */
  lemma ReleasedElsewhere(p: Patota, line: seq<Byte>, g: Group, i: nat, released: set<Page>, i': nat, released': set<Page>, size: nat)
    requires size > 0 && PatotaOk(p, line, g, i, released, size)
    requires forall num :: Page(i', num) in released' ==> Page(i, num) in released
    ensures PatotaOk(p, line, g, i', released', size)
  {
    forall pg | pg in released' && pg.pat == i'
      ensures pg.num < |p.rows| && p.rows[pg.num].occupants == 0 && |g.crew| < g.started
    {
      assert pg == Page(i', pg.num);
    }
  }

  /** The table after member `k` of patota `i` has left. */
  lemma MemberGone(c: Control, c1: Control, ps: seq<Patota>, f: seq<seq<Byte>>, t: Table, i: nat, k: nat, p: nat)
    requires p > 0 && TableOk(c, f, t, p) && i < |t| && k < |t[i].crew| == |c.patotas[i].tcbs|
    requires PagesLeft(c, c1, i, BlockOf(c.patotas[i].tcbs[k].address, p), LastLeft(c.patotas[i].tcbs[k].address, p) + 1)
    requires ps == c1.patotas[i := c1.patotas[i].(tcbs := c1.patotas[i].tcbs[..k] + c1.patotas[i].tcbs[k + 1..])]
    ensures TableOk(c1.(patotas := ps), f, t[i := t[i].(crew := t[i].crew[..k] + t[i].crew[k + 1..])], p)
  {
    var t' := t[i := t[i].(crew := t[i].crew[..k] + t[i].crew[k + 1..])];
    forall n | 0 <= n < |t| ensures PatotaOk(ps[n], f[n], t'[n], n, c1.released, p) {
      assert PatotaOk(c.patotas[n], f[n], t[n], n, c.released, p);
      assert SameHead(c.patotas[n], c1.patotas[n]);
      forall j | 0 <= j < |c.patotas[n].rows|
        ensures c1.patotas[n].rows[j].occupants == c.patotas[n].rows[j].occupants
                - if n == i && LeftBehind(j, c.patotas[i].tcbs[k].address, p) then 1 else 0
      {
        assert IsPage(c.patotas, Page(n, j));
        assert RowAt(c.patotas, Page(n, j)) == c.patotas[n].rows[j] && RowAt(c1.patotas, Page(n, j)) == c1.patotas[n].rows[j];
      }
      if n == i {
        ReleasedEmpty(c, c1, f, t, i, k, p);
        MemberExpelled(c.patotas[i], ps[i], f[i], t[i], k, i, c.released, c1.released, p);
      } else {
        PatotaKept(c.patotas[n], c1.patotas[n], f[n], t[n], n, c.released, p);
        ReleasedElsewhere(c1.patotas[n], f[n], t[n], n, c.released, n, c1.released, p);
      }
    }
  }

  /** The pages that patota `i` has given up are empty: neither the old ones nor the new ones have occupants. */
  lemma ReleasedEmpty(c: Control, c1: Control, f: seq<seq<Byte>>, t: Table, i: nat, k: nat, p: nat)
    requires p > 0 && i < |t| == |c.patotas| == |f| && PatotaOk(c.patotas[i], f[i], t[i], i, c.released, p)
    requires k < |t[i].crew| == |c.patotas[i].tcbs|
    requires PagesLeft(c, c1, i, BlockOf(c.patotas[i].tcbs[k].address, p), LastLeft(c.patotas[i].tcbs[k].address, p) + 1)
    ensures forall pg :: pg in c1.released && pg.pat == i ==>
              pg.num < |c1.patotas[i].rows| && c1.patotas[i].rows[pg.num].occupants == 0
  {
    assert SameHead(c.patotas[i], c1.patotas[i]);
    forall pg | pg in c1.released && pg.pat == i
      ensures pg.num < |c1.patotas[i].rows| && c1.patotas[i].rows[pg.num].occupants == 0
    {
      if pg in c.released {
        assert IsPage(c.patotas, pg);
        assert CountOk(c.patotas[i], t[i], pg.num, p);
        LeftBehindOverlaps(pg.num, c.patotas[i].tcbs[k].address, p);
        if Overlaps(pg.num, c.patotas[i].tcbs[k].address, TCB_SIZE, p) {
          OccupiedByMember(c.patotas[i].tcbs, k, pg.num, p);
        }
        assert RowAt(c1.patotas, pg).occupants == RowAt(c.patotas, pg).occupants;
      }
      assert RowAt(c1.patotas, pg) == c1.patotas[i].rows[pg.num];
    }
  }

  /** The table after patota `i` has left the list. */
  lemma PatotaGone(c: Control, f: seq<seq<Byte>>, t: Table, i: nat, p: nat)
    requires p > 0 && FramesOk(c) && TableOk(c, f, t, p) && i < |t|
    ensures TableOk(RemovePatota(c, i), f[..i] + f[i + 1..], t[..i] + t[i + 1..], p)
  {
    var c', f', t' := RemovePatota(c, i), f[..i] + f[i + 1..], t[..i] + t[i + 1..];
    forall n | 0 <= n < |t'| ensures PatotaOk(c'.patotas[n], f'[n], t'[n], n, c'.released, p) {
      var m := if n < i then n else n + 1;
      assert PatotaOk(c.patotas[m], f[m], t[m], m, c.released, p);
      forall num | Page(n, num) in c'.released ensures Page(m, num) in c.released {
        RemovedPages(c, i, Page(n, num));
      }
      ReleasedElsewhere(c'.patotas[n], f'[n], t'[n], m, c.released, n, c'.released, p);
    }
  }

  lemma CounterAt(line: seq<Byte>, at: nat, m: Member)
    requires at + TCB_SIZE <= |line| && line[at..at + TCB_SIZE] == TcbBytes(m)
    ensures BytesWord(line[at + 13..at + 17]) == m.next
  {
    TcbDecodes(line, at, m);
  }

  lemma CounterBytes(line: seq<Byte>, at: nat, m: Member)
    requires at + TCB_SIZE <= |line| && line[at..at + TCB_SIZE] == TcbBytes(m)
    ensures line[at + 13..at + 17] == WordBytes(m.next)
  {
    SliceOfSlice(line, at, at + TCB_SIZE, 13, 17);
    assert TcbBytes(m)[13..17] == WordBytes(m.next);
  }

  /** Member `k` of patota `i` has had another task. */
  function Advanced(t: Table, i: nat, k: nat): Table
    requires i < |t| && k < |t[i].crew| && t[i].crew[k].next + 1 < 0x1_0000_0000
  {
    SetMember(t, i, k, t[i].crew[k].(next := t[i].crew[k].next + 1))
  }

  lemma CounterWrong(c: Control, c': Control, flat: seq<seq<Byte>>, t: Table, i: nat, k: nat, p: nat)
    requires p > 0 && Quiet(c, c') && i < |t| == |c.patotas| && k < |t[i].crew| == |c.patotas[i].tcbs| && t[i].crew[k].next + 1 < 0x1_0000_0000
    requires i < |flat| && c.patotas[i].tcbs[k].address + 17 <= |flat[i]|
    requires flat[i][c.patotas[i].tcbs[k].address + 13..c.patotas[i].tcbs[k].address + 17] != WordBytes(t[i].crew[k].next + 1)
    ensures !TableOk(c', flat, Advanced(t, i, k), p)
  {
    var t' := Advanced(t, i, k);
    if TableOk(c', flat, t', p) {
      assert PatotaOk(c'.patotas[i], flat[i], t'[i], i, c'.released, p);
      assert SameHead(c.patotas[i], c'.patotas[i]);
      assert TcbOk(c'.patotas[i], flat[i], t'[i], k);
      CounterBytes(flat[i], c.patotas[i].tcbs[k].address, t'[i].crew[k]);
    }
  }

  // ----- When a counter is hit -----------------------------------------------------------------------------

  /** The text of task `n`. */
  function TaskPages(entry: Patota, i: nat, n: nat, start: nat, p: nat): seq<Page>
    requires p > 0 && n < |entry.taskOffsets|
  {
    var from, to := entry.taskOffsets[n], TaskEnd(entry.taskOffsets, n, entry.taskSize);
    StretchPages(i, start + from, if to > from then to - from else 0, p)
  }

  /** The pages entered on the way to the counter of member `k` when task `n` is handed out. */
  function TaskRoute(entry: Patota, i: nat, k: nat, n: nat, start: nat, p: nat): seq<Page>
    requires p > 0 && n < |entry.taskOffsets| && k < |entry.tcbs|
  {
    StretchPages(i, 4, 4, p) + StretchPages(i, entry.tcbs[k].address, TCB_SIZE, p) + TaskPages(entry, i, n, start, p)
      + StretchPages(i, entry.tcbs[k].address, 13, p)
  }

  /** The counter at `at` straddles two pages, and after these pages have been entered reading it pushes the first of
      the two out of RAM. */
  ghost predicate HitAfter(policy: Policy, c: Control, pages: seq<Page>, i: nat, at: nat, p: nat)
    requires p > 0 && at > 0
  {
    exists c' :: Route(policy, c, pages, c') && HazardAt(policy, c', i, at, p)
  }

  ghost predicate HazardAt(policy: Policy, c: Control, i: nat, at: nat, p: nat)
    requires p > 0
  {
    0 < OffsetOf(at, p) && p < OffsetOf(at, p) + 4 && Displaced(policy, c, i, BlockOf(at, p))
  }

  lemma HitHere(policy: Policy, c: Control, c1: Control, i: nat, at: nat, num: nat, cur: Cursor, p: nat)
    requires p >= 4 && Route(policy, c, StretchPages(i, at, 13, p), c1) && CursorOn(c1, i, num, cur, p) && cur.logical == at + 13
    requires cur.offset > 0
    ensures CounterHazard(policy, c1, i, num, cur, p) <==> HitAfter(policy, c, StretchPages(i, at, 13, p), i, at + 13, p)
  {
    hide Route, StretchPages, Displaced;
    HazardHere(policy, c1, i, num, cur, p);
    HitIs(policy, c, StretchPages(i, at, 13, p), c1, i, at + 13, p);
  }

  lemma HazardHere(policy: Policy, c: Control, i: nat, num: nat, cur: Cursor, p: nat)
    requires p >= 4 && cur.logical == Base(num, p) + cur.offset && 0 < cur.offset <= p
    ensures CounterHazard(policy, c, i, num, cur, p) <==> HazardAt(policy, c, i, cur.logical, p)
  {
    if cur.offset < p {
      AddressParts(num, cur.offset, p);
    } else {
      AddressParts(num + 1, 0, p);
    }
  }

  lemma HitIs(policy: Policy, c: Control, pages: seq<Page>, c1: Control, i: nat, at: nat, p: nat)
    requires p > 0 && at > 0 && Route(policy, c, pages, c1)
    ensures HitAfter(policy, c, pages, i, at, p) <==> HazardAt(policy, c1, i, at, p)
  {
    hide Route, HazardAt;
    if HitAfter(policy, c, pages, i, at, p) {
      var c2 :| Route(policy, c, pages, c2) && HazardAt(policy, c2, i, at, p);
      RouteUnique(policy, c, pages, c1, c2);
    }
  }

  /** What is hit after the whole way is what is hit after its last part. */
  lemma HitLater(policy: Policy, c: Control, x: seq<Page>, m: Control, y: seq<Page>, i: nat, at: nat, p: nat)
    requires p > 0 && at > 0 && Route(policy, c, x, m)
    ensures HitAfter(policy, m, y, i, at, p) <==> HitAfter(policy, c, x + y, i, at, p)
  {
    hide Route, HazardAt;
    if HitAfter(policy, m, y, i, at, p) {
      var c' :| Route(policy, m, y, c') && HazardAt(policy, c', i, at, p);
      RouteJoin(policy, c, x, m, y, c');
    }
    if HitAfter(policy, c, x + y, i, at, p) {
      var c' :| Route(policy, c, x + y, c') && HazardAt(policy, c', i, at, p);
      var b := RouteSplit(policy, c, x, y, c');
      RouteUnique(policy, c, x, m, b);
    }
  }

  lemma HitJoined(policy: Policy, c: Control, c1: Control, c2: Control, c3: Control, entry: Patota, i: nat, k: nat, n: nat, start: nat, p: nat)
    requires p > 0 && n < |entry.taskOffsets| && k < |entry.tcbs|
    requires Route(policy, c, StretchPages(i, 4, 4, p), c1) && Route(policy, c1, StretchPages(i, entry.tcbs[k].address, TCB_SIZE, p), c2)
    requires Route(policy, c2, TaskPages(entry, i, n, start, p), c3)
    ensures HitAfter(policy, c3, StretchPages(i, entry.tcbs[k].address, 13, p), i, entry.tcbs[k].address + 13, p)
            <==> HitAfter(policy, c, TaskRoute(entry, i, k, n, start, p), i, entry.tcbs[k].address + 13, p)
  {
    hide Route, StretchPages, TaskPages, HitAfter;
    var a, b, d := StretchPages(i, 4, 4, p), StretchPages(i, entry.tcbs[k].address, TCB_SIZE, p), TaskPages(entry, i, n, start, p);
    RouteJoin(policy, c, a, c1, b, c2);
    RouteJoin(policy, c, a + b, c2, d, c3);
    HitLater(policy, c, a + b + d, c3, StretchPages(i, entry.tcbs[k].address, 13, p), i, entry.tcbs[k].address + 13, p);
  }

  /** A cursor stands within the patota's memory. */
  lemma CursorInside(c: Control, flat: seq<seq<Byte>>, i: nat, num: nat, cur: Cursor, ram: seq<Byte>, swap: seq<Byte>, p: nat)
    requires MemoryOk(c, flat, ram, swap, p) && CursorOn(c, i, num, cur, p)
    ensures i < |flat| && cur.logical <= |flat[i]|
  {
    BlockFits(num, |c.patotas[i].rows|, p);
  }

  /** A counter inside one page is safe, and under LRU with two frames the page just touched is not evicted. */
  lemma NoHazard(policy: Policy, c: Control, i: nat, num: nat, cur: Cursor, p: nat)
    requires p > 0 && FramesOk(c) && StampsOk(c) && DistinctOwners(c.patotas) && CursorOn(c, i, num, cur, p)
    requires Latest(c, Page(i, num)) && c.admitted < c.counter - 1
    requires (policy.Lru? && |c.ramUsed| >= 2) || OffsetOf(cur.logical, p) + 4 <= p
    ensures !CounterHazard(policy, c, i, num, cur, p)
  {
    if cur.offset < p {
      AddressParts(num, cur.offset, p);
    }
    if policy.Lru? && |c.ramUsed| >= 2 {
      LruSparesTheLatest(c, Page(i, num));
    }
  }

  /** With a single RAM frame the second page of a straddling counter always takes the place of the first. */
  lemma OneFrameHazard(policy: Policy, c: Control, i: nat, num: nat, cur: Cursor, p: nat)
    requires p >= 4 && FramesOk(c) && CursorOn(c, i, num, cur, p) && |c.ramUsed| == 1 && 0 < cur.offset
    requires OffsetOf(cur.logical, p) + 4 > p
    ensures CounterHazard(policy, c, i, num, cur, p)
  {
    if cur.offset < p {
      AddressParts(num, cur.offset, p);
    } else {
      AddressParts(num + 1, 0, p);
    }
    OneFrameVictim(policy, c, Page(i, num));
    assert Placed(c, Page(i, num)) && (IsPage(c.patotas, Page(i, num + 1)) ==> Placed(c, Page(i, num + 1)));
    assert !Resident(c.patotas, Page(i, num + 1));
  }

  lemma OneFrameVictim(policy: Policy, c: Control, v: Page)
    requires FramesOk(c) && Resident(c.patotas, v) && |c.ramUsed| == 1
    ensures WouldEvict(policy, c, v)
  {
    assert Placed(c, v) && OwnedRam(c, 0);
    FullMeansOwned(c);
    if policy.Lru? {
      forall q | Resident(c.patotas, q) ensures q == v {
        assert Placed(c, q);
      }
      assert Victim(policy, c, v, c);
    } else {
      var n := if UseBit(c, 0) == 0 then 0 else 1;
      var c1 := ClearBits(c, 0, n).(hand := 1);
      assert HasPage(c, 0) && ClockVictim(c, v, n, c1);
      assert Victim(policy, c, v, c1);
    }
  }

  lemma WroteNothing(f: seq<seq<Byte>>, i: nat, at: nat)
    requires i < |f| && at <= |f[i]|
    ensures Wrote(f, f, i, at, [])
  {
    assert Splice(f[i], at, []) == f[i];
  }

  /** A cursor at an address that is not a multiple of the page size is not at the end of its page. */
  lemma NotAtPageEnd(c: Control, i: nat, num: nat, cur: Cursor, p: nat)
    requires p > 0 && CursorOn(c, i, num, cur, p) && OffsetOf(cur.logical, p) != 0
    ensures cur.offset < p && BlockOf(cur.logical, p) == num
    ensures BlockOf(cur.physical, p) == RowAt(c.patotas, Page(i, num)).ramFrame
  {
    if cur.offset == p {
      AddressParts(num + 1, 0, p);
    } else {
      AddressParts(num, cur.offset, p);
      AddressParts(RowAt(c.patotas, Page(i, num)).ramFrame, cur.offset, p);
    }
  }

  /** The frame that the admission records as the task text's is the one its cursor stands in exactly when
      the cursor is not at the end of its page. */
  lemma RecordedFrameRightIff(c: Control, i: nat, num: nat, cur: Cursor, p: nat)
    requires p > 0 && CursorOn(c, i, num, cur, p)
    ensures BlockOf(cur.physical, p) == RowAt(c.patotas, Page(i, num)).ramFrame <==> cur.offset < p
  {
    var f := RowAt(c.patotas, Page(i, num)).ramFrame;
    if cur.offset < p {
      AddressParts(f, cur.offset, p);
    } else {
      AddressParts(f + 1, 0, p);
    }
  }

  lemma TouchFollows(c: Control, i: nat, num: nat, p: nat)
    requires IsPage(c.patotas, Page(i, num))
    ensures Follows(c, TouchPage(c, Page(i, num), 1), i, num - 1, num, 1)
  {
  }

  lemma ReadableSameRows(c: Control, c': Control, i: nat, to: nat, p: nat)
    requires p > 0 && Readable(c, i, 0, to, p) && c'.released == c.released && |c'.patotas| == |c.patotas|
    requires forall k :: 0 <= k < |c.patotas| ==> |c'.patotas[k].rows| == |c.patotas[k].rows|
    ensures Readable(c', i, 0, to, p)
  {
    forall a | 0 <= a < to ensures LiveAt(c', i, a, p) {
      assert LiveAt(c, i, a, p);
    }
  }

  lemma WholeReadable(c: Control, size: nat, i: nat, p: nat)
    requires p > 0 && i < |c.patotas| && size == Base(|c.patotas[i].rows|, p)
    requires forall pg :: pg in c.released ==> pg.pat != i
    ensures Readable(c, i, 0, size, p)
  {
    forall a | 0 <= a < size ensures LiveAt(c, i, a, p) {
      BlockInRange(a, |c.patotas[i].rows|, p);
    }
  }

  /** What writing out an admission does to the entry, the bytes and the occupant counts of the new patota. */
  ghost predicate AdmissionWritten(c: Control, c': Control, f: seq<seq<Byte>>, f': seq<seq<Byte>>, i: nat,
                                   pid: seq<Byte>, baseBytes: seq<Byte>, base: nat, tasks: seq<Byte>, p: nat)
    requires p > 0
  {
    && |c'.patotas| == |c.patotas| == |f| == |f'| && i < |f| && c'.released == c.released && c'.admitted == c.admitted
    && (forall k :: 0 <= k < |c.patotas| && k != i ==>
          f'[k] == f[k] && SameHead(c.patotas[k], c'.patotas[k])
          && forall j :: 0 <= j < |c.patotas[k].rows| ==> c'.patotas[k].rows[j].occupants == c.patotas[k].rows[j].occupants)
    && c'.patotas[i] == c.patotas[i].(taskOffsets := TaskOffsets(tasks), rows := c'.patotas[i].rows)
    && |c'.patotas[i].rows| == |c.patotas[i].rows|
    && (forall j :: 0 <= j < |c.patotas[i].rows| ==>
          c'.patotas[i].rows[j].occupants == c.patotas[i].rows[j].occupants
            + (if Overlaps(j, 0, PCB_SIZE, p) then 1 else 0) + (if Overlaps(j, base, |tasks| + 1, p) then 1 else 0))
    && PCB_SIZE <= base && base + |tasks| + 1 <= |f[i]| && |pid| == |baseBytes| == 4
    && f'[i] == Splice(Splice(f[i], 0, pid + baseBytes), base, tasks + [0])
  }

  lemma AdmissionDone(c: Control, c0: Control, c1: Control, c2: Control, c3: Control,
                      f: seq<seq<Byte>>, f1: seq<seq<Byte>>, f3: seq<seq<Byte>>, i: nat, offsets: seq<nat>,
                      pid: seq<Byte>, baseBytes: seq<Byte>, base: nat, tasks: seq<Byte>, p: nat)
    requires p > 0 && |pid| == |baseBytes| == 4 && PCB_SIZE <= base && i < |c.patotas| == |f|
    requires offsets == TaskOffsets(tasks)
    requires c0 == c.(patotas := c.patotas[i := c.patotas[i].(taskOffsets := offsets)])
    requires Follows(c0, c1, i, -1, BlockOf(PCB_SIZE - 1, p), 1) && Quiet(c1, c2)
    requires Follows(c2, c3, i, BlockOf(base, p) - 1, BlockOf(base + |tasks|, p), 1)
    requires Wrote(f, f1, i, 0, pid + baseBytes) && Wrote(f1, f3, i, base, tasks + [0])
    ensures AdmissionWritten(c, c3, f, f3, i, pid, baseBytes, base, tasks, p)
  {
    forall k | 0 <= k < |c.patotas|
      ensures SameHead(c0.patotas[k], c3.patotas[k])
      ensures forall j :: 0 <= j < |c.patotas[k].rows| ==>
                c3.patotas[k].rows[j].occupants == c0.patotas[k].rows[j].occupants
                + (if k == i && -1 < j <= BlockOf(PCB_SIZE - 1, p) then 1 else 0)
                + (if k == i && BlockOf(base, p) - 1 < j <= BlockOf(base + |tasks|, p) then 1 else 0)
    {
      RowsOf(c0, c1, k, i, -1, BlockOf(PCB_SIZE - 1, p), 1);
      RowsOf(c1, c2, k, 0, 0, 0, 0);
      RowsOf(c2, c3, k, i, BlockOf(base, p) - 1, BlockOf(base + |tasks|, p), 1);
    }
    assert SameHead(c0.patotas[i], c3.patotas[i]);
  }

  /** The admitted patota is in order, and so are the others still. */
  lemma AdmittedTable(c: Control, c1: Control, c2: Control, f: seq<seq<Byte>>, f1: seq<seq<Byte>>, f2: seq<seq<Byte>>, t: Table, g: Group, p: nat)
    requires p > 0 && TableOk(c, f, t, p) && g.crew == [] && g.started == 0
    requires 0 !in g.tasks && TaskBase(g) + |g.tasks| + 1 < 0x8000_0000
    requires |c1.patotas| == |f1| == |t| + 1 && c1.patotas[..|t|] == c.patotas && f1[..|t|] == f && c1.released == c.released
    requires forall pg :: pg in c.released ==> pg.pat < |t|
    requires c1.patotas[|t|] == Patota(g.pid, c1.patotas[|t|].rows, |g.tasks| + 1, 0, [], [])
    requires forall j :: 0 <= j < |c1.patotas[|t|].rows| ==> c1.patotas[|t|].rows[j].occupants == 0
    requires AdmissionWritten(c1, c2, f1, f2, |t|, WordBytes(g.pid), WordBytes(TaskBase(g)), TaskBase(g), g.tasks, p)
    ensures TableOk(c2, f2, t + [g], p)
  {
    var i, t' := |t|, t + [g];
    forall k | 0 <= k < |t'| ensures PatotaOk(c2.patotas[k], f2[k], t'[k], k, c2.released, p) {
      if k < i {
        assert PatotaOk(c.patotas[k], f[k], t[k], k, c.released, p);
        assert c1.patotas[k] == c1.patotas[..|t|][k] && f1[k] == f1[..|t|][k];
        PatotaKept(c1.patotas[k], c2.patotas[k], f[k], t[k], k, c.released, p);
      } else {
        AdmittedText(f1[i], f2[i], g);
        PatotaAdmitted(c2.patotas[i], f2[i], g, i, c2.released, p);
      }
    }
  }

  lemma AdmittedText(line: seq<Byte>, line': seq<Byte>, g: Group)
    requires TaskBase(g) + |g.tasks| + 1 <= |line| && TaskBase(g) < 0x8000_0000
    requires line' == Splice(Splice(line, 0, WordBytes(g.pid) + WordBytes(TaskBase(g))), TaskBase(g), g.tasks + [0])
    ensures TextOk(line', g)
  {
    var header := WordBytes(g.pid) + WordBytes(TaskBase(g));
    var middle := Splice(line, 0, header);
    SpliceInside(line, 0, header, 0, 8);
    assert Splice(line[0..8], 0, header) == header;
    SpliceApart(middle, TaskBase(g), g.tasks + [0], 0, 8);
    assert line'[..4] == line'[0..8][..4] && line'[4..8] == line'[0..8][4..];
    SpliceInside(middle, TaskBase(g), g.tasks + [0], TaskBase(g), TaskBase(g) + |g.tasks| + 1);
    assert Splice(middle[TaskBase(g)..TaskBase(g) + |g.tasks| + 1], 0, g.tasks + [0]) == g.tasks + [0];
  }

  lemma TcbInPieces(m: Member)
    ensures TcbBytes(m) == (WordBytes(m.tid) + [m.state]) + ((WordBytes(m.x) + WordBytes(m.y)) + (WordBytes(m.next) + WordBytes(0)))
  {
  }

  lemma SeatReadable(c: Control, line: seq<Byte>, g: Group, i: nat, p: nat)
    requires p > 0 && i < |c.patotas| && |line| == Base(|c.patotas[i].rows|, p)
    requires PatotaOk(c.patotas[i], line, g, i, c.released, p) && g.started < g.capacity
    ensures SeatAddress(g.started) + TCB_SIZE <= |line|
    ensures SeatLive(c.released, i, g.started, p) ==>
      Readable(c, i, SeatAddress(g.started), SeatAddress(g.started) + TCB_SIZE, p)
  {
    SeatsBelowText(g.(started := g.started + 1));
    if SeatLive(c.released, i, g.started, p) {
      forall a | SeatAddress(g.started) <= a < SeatAddress(g.started) + TCB_SIZE ensures LiveAt(c, i, a, p) {
        BlockInRange(a, |c.patotas[i].rows|, p);
        OverlapsAt(a, SeatAddress(g.started), TCB_SIZE, p);
      }
    }
  }

  /** The table after a member has been started in patota `i`. */
  lemma MemberEntered(c: Control, c1: Control, ps: seq<Patota>, f: seq<seq<Byte>>, f1: seq<seq<Byte>>, t: Table, i: nat, m: Member, p: nat)
    requires p > 0 && TableOk(c, f, t, p) && i < |t| && t[i].started < t[i].capacity && m.next == 0
    requires SeatLive(c.released, i, t[i].started, p)
    requires forall k :: 0 <= k < |t[i].crew| ==> t[i].crew[k].tid != m.tid
    requires Follows(c, c1, i, BlockOf(SeatAddress(t[i].started), p) - 1, BlockOf(SeatAddress(t[i].started) + TCB_SIZE - 1, p), 1)
    requires ps == c1.patotas[i := c1.patotas[i].(written := c1.patotas[i].written + 1,
                                                  tcbs := c1.patotas[i].tcbs + [TcbAddress(m.tid, SeatAddress(t[i].started))])]
    requires Wrote(f, f1, i, SeatAddress(t[i].started), TcbBytes(m))
    ensures TableOk(c1.(patotas := ps), f1, t[i := t[i].(started := t[i].started + 1, crew := t[i].crew + [m])], p)
  {
    var at := SeatAddress(t[i].started);
    var from, to := BlockOf(at, p) - 1, BlockOf(at + TCB_SIZE - 1, p);
    var t' := t[i := t[i].(started := t[i].started + 1, crew := t[i].crew + [m])];
    OthersKept(c, c1, f, f1, t, i, from, to, 1, p);
    forall k | 0 <= k < |t| ensures PatotaOk(ps[k], f1[k], t'[k], k, c1.released, p) {
      if k == i {
        assert PatotaOk(c.patotas[i], f[i], t[i], i, c.released, p);
        RowsOf(c, c1, i, i, from, to, 1);
        MemberStarted(c.patotas[i], ps[i], f[i], t[i], m, i, c.released, p);
      } else {
        assert PatotaOk(c1.patotas[k], f1[k], t[k], k, c1.released, p);
      }
    }
  }

  lemma ReadablePart(c: Control, i: nat, from: nat, to: nat, a: nat, b: nat, p: nat)
    requires p > 0 && Readable(c, i, from, to, p) && from <= a <= b <= to
    ensures Readable(c, i, a, b, p)
  {
  }

  lemma QuietStep(c: Control, c1: Control, c2: Control, i: nat, from: int, to: int)
    requires Quiet(c, c1) && Follows(c1, c2, i, from, to, 0)
    ensures Quiet(c, c2)
  {
    FollowsQuiet(c1, c2, i, from, to);
    FollowsTrans(c, c1, c2, 0, 0, 0, 0, 0);
  }

  lemma SteppedJoin(c0: Control, c1: Control, c2: Control, i: nat, n0: nat, n1: nat, n2: nat,
                    cur: Cursor, middle: Cursor, next: Cursor, a: nat, b: nat, kind: WriteKind, p: nat)
    requires Stepped(c0, c1, i, n0, n1, cur, middle, a, kind, p) && Stepped(c1, c2, i, n1, n2, middle, next, b, kind, p)
    requires b > 0
    ensures Stepped(c0, c2, i, n0, n2, cur, next, a + b, kind, p)
  {
    FollowsTrans(c0, c1, c2, i, n0, n1, n2, Extra(kind));
  }

  /** Two adjacent writes are one. */
  lemma WroteJoin(f0: seq<seq<Byte>>, f1: seq<seq<Byte>>, f2: seq<seq<Byte>>, i: nat, at: nat, a: seq<Byte>, b: seq<Byte>)
    requires Wrote(f0, f1, i, at, a) && Wrote(f1, f2, i, at + |a|, b)
    ensures Wrote(f0, f2, i, at, a + b)
  {
    var data := a + b;
    assert data[..|a|] == a && data[|a|..] == b;
    SpliceSplit(f0[i], at, data, |a|);
  }
}
