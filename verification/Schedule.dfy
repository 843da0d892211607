/** The planner's cycle as a function on values: queue moves, one step of a crew member, the I/O device, FIFO and
    round robin, expulsions, and the sabotage routine. */
module Schedule {
  import opened Memory
  import opened CrewTable

  datatype Pos = Pos(x: Word, y: Word)

  datatype Task = Task(pos: Pos, blocking: bool, time: Word)

  datatype State = New | Ready | Exec | BlockIo | BlockSabotage

  /** `todo` are the tasks that the memory will still hand out after the current one. */
  datatype Trip = Trip(pos: Pos, quantum: Word, state: State, block: bool, task: Option<Task>, todo: seq<Task>)

  datatype Algorithm = Fifo | RoundRobin

  datatype Config = Config(cpus: nat, quantum: Word, duration: Word, algorithm: Algorithm)

  /** The queues hold tids. `sabotage` is on from the notification to the end of the routine, `starting` until the
      routine has begun, `handling` while the frozen crew waits for `remaining` to run out. */
  datatype Sched = Sched(
    news: seq<Word>, ready: seq<Word>, exec: seq<Word>, blocked: seq<Word>, frozen: seq<Word>, device: Option<Word>,
    crew: map<Word, Trip>, requests: seq<Word>,
    sabotage: bool, starting: bool, target: Pos, handling: bool, remaining: Word)

  const NOBODY := Trip(Pos(0, 0), 0, New, false, None, [])

  function Get(s: Sched, tid: Word): Trip {
    if tid in s.crew then s.crew[tid] else NOBODY
  }

  function Set(s: Sched, tid: Word, t: Trip): Sched {
    s.(crew := s.crew[tid := t])
  }

  /** Unsigned 32-bit arithmetic. */
  function Predecessor(w: Word): Word {
    if w == 0 then 0xFFFF_FFFF else w - 1
  }

  function Plus(a: Word, b: Word): Word {
    if a + b < 0x1_0000_0000 then a + b else a + b - 0x1_0000_0000
  }

  function Minus(a: Word, b: Word): Word {
    if a >= b then a - b else a - b + 0x1_0000_0000
  }

  function RemoveAt<T>(s: seq<T>, i: nat): seq<T>
    requires i < |s|
  {
    s[..i] + s[i + 1..]
  }

  /** The first position of a tid in a queue, or its length. */
  function IndexOf(q: seq<Word>, tid: Word): (i: nat)
    ensures i <= |q|
    ensures forall j :: 0 <= j < i ==> q[j] != tid
    ensures i < |q| ==> q[i] == tid
  {
    if q == [] || q[0] == tid then 0 else 1 + IndexOf(q[1..], tid)
  }

  /** The queue without the first occurrence of the tid. */
  function Without(q: seq<Word>, tid: Word): (r: seq<Word>)
    requires tid in q
    ensures |r| == |q| - 1
  {
    RemoveAt(q, IndexOf(q, tid))
  }

  // ----- Admission ---------------------------------------------------------------------------------------

  function TakeTask(t: Trip): Trip {
    if t.todo == [] then t.(task := None) else t.(task := Some(t.todo[0]), todo := t.todo[1..])
  }

  /** Everybody in NEW goes to READY with the first task. */
  function AdmitNews(s: Sched): Sched
    decreases |s.news|
  {
    if s.news == [] then s else AdmitNews(AdmitOne(s))
  }

  function AdmitOne(s: Sched): Sched
    requires s.news != []
  {
    var tid := s.news[0];
    Set(s, tid, TakeTask(Get(s, tid).(state := Ready))).(news := s.news[1..], ready := s.ready + [tid])
  }

  predicate Full(c: Config, s: Sched) {
    c.cpus != 0 && |s.exec| == c.cpus
  }

  /** READY moves to EXEC as long as there is room. */
  function FillExec(c: Config, s: Sched): Sched
    decreases |s.ready|
  {
    if Full(c, s) || s.ready == [] then s else FillExec(c, Dispatch(s))
  }

  function Dispatch(s: Sched): Sched
    requires s.ready != []
  {
    var tid := s.ready[0];
    Set(s, tid, Get(s, tid).(state := Exec)).(ready := s.ready[1..], exec := s.exec + [tid])
  }

  // ----- One step of a member ---------------------------------------------------------------------------------

  /** One move along x, or along y once x agrees. */
  function Toward(p: Pos, to: Pos): Pos {
    if p.x < to.x then p.(x := p.x + 1)
    else if p.x > to.x then p.(x := p.x - 1)
    else if p.y < to.y then p.(y := p.y + 1)
    else if p.y > to.y then p.(y := p.y - 1)
    else p
  }

  /** What running a member does. A member without a task makes the program fail. */
  function RunOne(s: Sched, tid: Word): Option<Sched> {
    var t := Get(s, tid);
    if s.sabotage then
      Some(Set(s, tid, if t.pos == s.target then t.(block := true) else t.(pos := Toward(t.pos, s.target))))
    else if t.task.None? then None
    else
      var k := t.task.value;
      if t.pos != k.pos then Some(Set(s, tid, t.(pos := Toward(t.pos, k.pos))))
      else if k.blocking then Some(Set(s, tid, t.(block := true)))
      else if Predecessor(k.time) != 0 then Some(Set(s, tid, t.(task := Some(k.(time := Predecessor(k.time))))))
      else
        var t' := TakeTask(t);
        Some(Set(s, tid, t').(requests := if t'.task.None? then s.requests + [tid] else s.requests))
  }

  function RunAll(s: Sched, runs: seq<Word>): Option<Sched>
    decreases |runs|
  {
    if runs == [] then Some(s)
    else
      var s1 := RunOne(s, runs[0]);
      if s1.None? then None else RunAll(s1.value, runs[1..])
  }

  // ----- The I/O device -------------------------------------------------------------------------------------------

  /** The device takes the next member from BLOCK if it has none, and counts down its task. */
  function IoStep(s: Sched): Option<Sched> {
    if s.sabotage then Some(s)
    else
      var s1 := TakeIn(s);
      if s1.device.None? then Some(s1) else CountDown(s1)
  }

  function TakeIn(s: Sched): Sched {
    if s.device.None? && s.blocked != [] then s.(device := Some(s.blocked[0]), blocked := s.blocked[1..]) else s
  }

  function CountDown(s: Sched): Option<Sched>
    requires s.device.Some?
  {
    var tid := s.device.value;
    var t := Get(s, tid);
    if t.task.None? then None
    else
      var k := t.task.value;
      if Predecessor(k.time) != 0 then Some(Set(s, tid, t.(task := Some(k.(time := Predecessor(k.time))))))
      else
        var t' := TakeTask(t);
        if t'.task.Some? then Some(Set(s, tid, t'.(state := Ready)).(ready := s.ready + [tid], device := None))
        else Some(s.(crew := s.crew - {tid}, device := None))
  }

  // ----- FIFO and round robin ---------------------------------------------------------------------------------------

  /** The walk over EXEC from position `i` on, with removal of those that leave. */
  function Sweep(c: Config, s: Sched, i: nat): Sched
    decreases |s.exec| - i
  {
    if i >= |s.exec| then s
    else
      var s1 := Tick(c, s, i);
      if Leaves(c, s, s.exec[i]) then Sweep(c, s1, i) else Sweep(c, s1, i + 1)
  }

  /** The member's quantum after this cycle; only round robin counts it. */
  function QuantumLeft(c: Config, t: Trip): Word {
    if c.algorithm.RoundRobin? then Predecessor(t.quantum) else t.quantum
  }

  predicate Leaves(c: Config, s: Sched, tid: Word) {
    Get(s, tid).block || (c.algorithm.RoundRobin? && QuantumLeft(c, Get(s, tid)) == 0)
  }

  function Tick(c: Config, s: Sched, i: nat): (s': Sched)
    requires i < |s.exec|
    ensures |s'.exec| == if Leaves(c, s, s.exec[i]) then |s.exec| - 1 else |s.exec|
  {
    var tid := s.exec[i];
    var t := Get(s, tid).(quantum := QuantumLeft(c, Get(s, tid)));
    var full := if c.algorithm.RoundRobin? then c.quantum else t.quantum;
    if t.block then
      if !s.sabotage then
        Set(s, tid, t.(block := false, quantum := full, state := BlockIo))
          .(exec := RemoveAt(s.exec, i), blocked := s.blocked + [tid])
      else
        Set(s, tid, t.(block := false, quantum := full, state := BlockSabotage))
          .(exec := RemoveAt(s.exec, i), frozen := s.frozen + [tid], handling := true, remaining := c.duration)
    else if c.algorithm.RoundRobin? && t.quantum == 0 then
      Set(s, tid, t.(quantum := c.quantum, state := Ready)).(exec := RemoveAt(s.exec, i), ready := s.ready + [tid])
    else if c.algorithm.RoundRobin? then Set(s, tid, t)
    else s
  }

  // ----- Expulsion -----------------------------------------------------------------------------------------------------

  /** Takes the member out of wherever it is found, looking in NEW, READY, EXEC, among the frozen, in the device and
      in BLOCK, in this order. */
  function Terminate(s: Sched, tid: Word): Sched {
    var gone := s.(crew := s.crew - {tid});
    if tid in s.news then gone.(news := Without(s.news, tid))
    else if tid in s.ready then gone.(ready := Without(s.ready, tid))
    else if tid in s.exec then gone.(exec := Without(s.exec, tid))
    else if tid in s.frozen then gone.(frozen := Without(s.frozen, tid))
    else if s.device == Some(tid) then gone.(device := None)
    else if tid in s.blocked then gone.(blocked := Without(s.blocked, tid))
    else s
  }

  function ServeRequests(s: Sched): Sched
    decreases |s.requests|
  {
    if s.requests == [] then s else ServeRequests(Terminate(s, s.requests[0]).(requests := s.requests[1..]))
  }

  // ----- Sabotage --------------------------------------------------------------------------------------------------------

  function Notify(s: Sched, target: Pos): Sched {
    s.(target := target, starting := true, sabotage := true)
  }

  /** Before the first tid that is not smaller. */
  function InsertTid(tid: Word, q: seq<Word>): seq<Word> {
    if q == [] || q[0] >= tid then [tid] + q else [q[0]] + InsertTid(tid, q[1..])
  }

  /** The elements of `q` are inserted one after the other. */
  function SortInto(sorted: seq<Word>, q: seq<Word>): seq<Word>
    decreases |q|
  {
    if q == [] then sorted else SortInto(InsertTid(q[0], sorted), q[1..])
  }

  function SortTids(q: seq<Word>): seq<Word> {
    SortInto([], q)
  }

  /** EXEC, then READY, each in the order of tids, join the frozen. */
  function FreezeExec(s: Sched): Sched
    decreases |s.exec|
  {
    if s.exec == [] then s else FreezeExec(FreezeOneExec(s))
  }

  function FreezeOneExec(s: Sched): Sched
    requires s.exec != []
  {
    var tid := s.exec[0];
    Set(s, tid, Get(s, tid).(state := BlockSabotage)).(exec := s.exec[1..], frozen := s.frozen + [tid])
  }

  function FreezeReady(s: Sched): Sched
    decreases |s.ready|
  {
    if s.ready == [] then s else FreezeReady(FreezeOneReady(s))
  }

  function FreezeOneReady(s: Sched): Sched
    requires s.ready != []
  {
    var tid := s.ready[0];
    Set(s, tid, Get(s, tid).(state := BlockSabotage)).(ready := s.ready[1..], frozen := s.frozen + [tid])
  }

  /** What the routine compares as a distance: the difference of the coordinate sums, in 32 bits. */
  function GapTo(target: Pos, p: Pos): Word {
    Minus(Plus(target.x, target.y), Plus(p.x, p.y))
  }

  function Gap(s: Sched, tid: Word): Word {
    GapTo(s.target, Get(s, tid).pos)
  }

  /** The first of the queue with the least gap below `best`; `tid` if there is none. */
  function Closest(s: Sched, q: seq<Word>, best: Word, tid: Word): Word
    decreases |q|
  {
    if q == [] then tid
    else if Gap(s, q[0]) < best then Closest(s, q[1..], Gap(s, q[0]), q[0])
    else Closest(s, q[1..], best, tid)
  }

  /** Everybody in EXEC and READY is frozen, and the first member with the least gap is sent to the sabotage. If no gap
      is below the largest word, tid 0 is looked for, and without such a member the program fails. */
  function InitSabotage(s: Sched): Option<Sched> {
    var s1 := FreezeReady(SortReady(FreezeExec(SortExec(s.(starting := false)))));
    var chosen := Closest(s1, s1.frozen, 0xFFFF_FFFF, 0);
    if chosen !in s1.frozen then None
    else
      Some(Set(s1, chosen, Get(s1, chosen).(state := Ready))
             .(frozen := Without(s1.frozen, chosen), ready := s1.ready + [chosen]))
  }

  function SortExec(s: Sched): Sched {
    s.(exec := SortTids(s.exec))
  }

  function SortReady(s: Sched): Sched {
    s.(ready := SortTids(s.ready))
  }

  function Unfreeze(s: Sched): Sched
    decreases |s.frozen|
  {
    if s.frozen == [] then s else Unfreeze(UnfreezeOne(s))
  }

  function UnfreezeOne(s: Sched): Sched
    requires s.frozen != []
  {
    var tid := s.frozen[0];
    Set(s, tid, Get(s, tid).(state := Ready)).(frozen := s.frozen[1..], ready := s.ready + [tid])
  }

  function CountFrozen(s: Sched): Sched {
    if s.remaining != 0 then s.(remaining := s.remaining - 1)
    else Unfreeze(s).(handling := false, sabotage := false)
  }

  // ----- The cycle ----------------------------------------------------------------------------------------------------------

  function Prepare(c: Config, s: Sched): Option<Sched> {
    if !s.sabotage then Some(FillExec(c, AdmitNews(s)))
    else if s.starting then
      var s1 := InitSabotage(s);
      if s1.None? then None else Some(FillExec(c, s1.value))
    else Some(FillExec(c, s))
  }

  function CheckExec(c: Config, s: Sched): Sched {
    if s.handling then CountFrozen(s) else Sweep(c, s, 0)
  }

  /** What the devices do to the members, in the order `runs`, leaving EXEC in the order `after`. */
  function Devices(s: Sched, runs: seq<Word>, after: seq<Word>): Option<Sched> {
    var s1 := RunAll(s, runs);
    if s1.None? then None else IoStep(s1.value.(exec := after))
  }

  function Cycle(c: Config, s: Sched, runs: seq<Word>, after: seq<Word>): Option<Sched> {
    var s1 := Prepare(c, s);
    if s1.None? then None
    else
      var s2 := Devices(s1.value, runs, after);
      if s2.None? then None else Some(ServeRequests(CheckExec(c, s2.value)))
  }

  /** What the protocol of a cycle guarantees about the order in which the members ran and were put back. */
  ghost predicate Fair(c: Config, exec: seq<Word>, runs: seq<Word>, after: seq<Word>) {
    && multiset(after) == multiset(exec)
    && (forall tid :: tid in runs ==> tid in exec)
    && (forall tid :: tid in exec ==> tid in runs)
    && (|exec| == c.cpus ==> forall tid :: tid in exec ==> multiset(runs)[tid] == 1)
    && |runs| <= c.cpus
  }
}
