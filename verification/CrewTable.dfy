/** What the two memory schemes promise their clients, independently of where anything is stored:
    a list of patotas, each with its task text and its crew in starting order. */
module CrewTable {
  import opened Memory
  import Text

  const NEWLINE: Byte := 10
  const STATE_NEW: Byte := 78   // 'N'
  const PCB_SIZE: nat := 8
  const TCB_SIZE: nat := 21

  datatype Option<T> = None | Some(value: T)

  /** One crew member: identity, state letter, position and number of its next task. */
  datatype Member = Member(tid: Word, state: Byte, x: Word, y: Word, next: Word)

  /** `capacity` is the crew size announced at admission, `started` how many have been started so far. */
  datatype Group = Group(pid: Word, capacity: nat, tasks: seq<Byte>, started: nat, crew: seq<Member>)

  type Table = seq<Group>

  // ----- Looking things up ------------------------------------------------------------

  /** Position of the first patota with this pid, or the length of the list. */
  function FindPid(pids: seq<Word>, pid: Word): (i: nat)
    ensures i <= |pids|
    ensures forall k :: 0 <= k < i ==> pids[k] != pid
    ensures i < |pids| ==> pids[i] == pid
  {
    if pids == [] || pids[0] == pid then 0 else 1 + FindPid(pids[1..], pid)
  }

  function Pids(t: Table): (r: seq<Word>)
    ensures |r| == |t| && forall i :: 0 <= i < |t| ==> r[i] == t[i].pid
  {
    seq(|t|, i requires 0 <= i < |t| => t[i].pid)
  }

  function FindTid(crew: seq<Member>, tid: Word): (k: nat)
    ensures k <= |crew|
    ensures forall m :: 0 <= m < k ==> crew[m].tid != tid
    ensures k < |crew| ==> crew[k].tid == tid
  {
    if crew == [] || crew[0].tid == tid then 0 else 1 + FindTid(crew[1..], tid)
  }

  ghost predicate DistinctPids(t: Table) {
    forall i, j :: 0 <= i < j < |t| ==> t[i].pid != t[j].pid
  }

  ghost predicate DistinctTids(g: Group) {
    forall a, b :: 0 <= a < b < |g.crew| ==> g.crew[a].tid != g.crew[b].tid
  }

  predicate HasPid(t: Table, pid: Word) {
    FindPid(Pids(t), pid) < |t|
  }

  predicate HasMember(t: Table, pid: Word, tid: Word) {
    var i := FindPid(Pids(t), pid);
    i < |t| && FindTid(t[i].crew, tid) < |t[i].crew|
  }

  // ----- Tasks ---------------------------------------------------------------------------

  /** The task text cut at its newlines: one more line than newlines, possibly empty ones. */
  function Lines(text: seq<Byte>): (r: seq<seq<Byte>>)
    ensures |r| >= 1
  {
    Text.Split(text, NEWLINE)
  }

  /** A text as a C string: up to its first zero byte. */
  function CString(s: seq<Byte>): seq<Byte> {
    if s == [] || s[0] == 0 then [] else [s[0]] + CString(s[1..])
  }

  lemma {:induction false} CStringOf(s: seq<Byte>, rest: seq<Byte>)
    requires 0 !in s
    ensures CString(s + [0] + rest) == s
  {
    if s == [] {
      assert (s + [0] + rest)[0] == 0;
    } else {
      assert (s + [0] + rest)[1..] == s[1..] + [0] + rest;
      CStringOf(s[1..], rest);
    }
  }

  /** A task text without the newline that ends it in the list. */
  function Chomp(s: seq<Byte>): seq<Byte> {
    if s != [] && s[|s| - 1] == NEWLINE then s[..|s| - 1] else s
  }

  lemma {:induction false} LinesClean(text: seq<Byte>, k: nat)
    requires k < |Lines(text)|
    ensures NEWLINE !in Lines(text)[k]
    ensures 0 !in text ==> 0 !in Lines(text)[k]
  {
    if text != [] {
      if text[0] == NEWLINE {
        if k > 0 {
          LinesClean(text[1..], k - 1);
        }
      } else {
        LinesClean(text[1..], k);
      }
    }
  }

  lemma {:induction false} LinesCount(text: seq<Byte>)
    ensures |Lines(text)| <= |text| + 1
  {
    if text != [] {
      LinesCount(text[1..]);
    }
  }

  // ----- The operations of the interface ----------------------------------------------------

  function Admit(t: Table, pid: Word, capacity: nat, tasks: seq<Byte>): Table {
    t + [Group(pid, capacity, tasks, 0, [])]
  }

  /** A member may be started while seats are left. */
  predicate CanStart(t: Table, pid: Word, tid: Word) {
    var i := FindPid(Pids(t), pid);
    && i < |t|
    && t[i].started < t[i].capacity
    && FindTid(t[i].crew, tid) == |t[i].crew|
  }

  /** Nobody of the patota has been expelled. */
  predicate AllStay(t: Table, pid: Word) {
    var i := FindPid(Pids(t), pid);
    i < |t| && t[i].started == |t[i].crew|
  }

  function Start(t: Table, pid: Word, tid: Word, x: Word, y: Word): Table
    requires HasPid(t, pid)
  {
    var i := FindPid(Pids(t), pid);
    var g := t[i];
    t[i := g.(started := g.started + 1, crew := g.crew + [Member(tid, STATE_NEW, x, y, 0)])]
  }

  function SetMember(t: Table, i: nat, k: nat, m: Member): Table
    requires i < |t| && k < |t[i].crew|
  {
    t[i := t[i].(crew := t[i].crew[k := m])]
  }

  function Lookup(t: Table, pid: Word, tid: Word): Member
    requires HasMember(t, pid, tid)
  {
    var i := FindPid(Pids(t), pid);
    t[i].crew[FindTid(t[i].crew, tid)]
  }

  function Move(t: Table, pid: Word, tid: Word, x: Word, y: Word): Table
    requires HasMember(t, pid, tid)
  {
    var i := FindPid(Pids(t), pid);
    SetMember(t, i, FindTid(t[i].crew, tid), Lookup(t, pid, tid).(x := x, y := y))
  }

  function SetState(t: Table, pid: Word, tid: Word, state: Byte): Table
    requires HasMember(t, pid, tid)
  {
    var i := FindPid(Pids(t), pid);
    SetMember(t, i, FindTid(t[i].crew, tid), Lookup(t, pid, tid).(state := state))
  }

  /** The next task of a member; none once all have been handed out. */
  function NextTask(t: Table, pid: Word, tid: Word): Option<seq<Byte>>
    requires HasMember(t, pid, tid)
  {
    var lines := Lines(t[FindPid(Pids(t), pid)].tasks);
    var n := Lookup(t, pid, tid).next;
    if n < |lines| then Some(lines[n]) else None
  }

  /** Handing out a task moves the member on to the following one. */
  function Advance(t: Table, pid: Word, tid: Word): Table
    requires HasMember(t, pid, tid)
    requires Lookup(t, pid, tid).next + 1 < 0x1_0000_0000
  {
    var i := FindPid(Pids(t), pid);
    var m := Lookup(t, pid, tid);
    if m.next < |Lines(t[i].tasks)| then
      SetMember(t, i, FindTid(t[i].crew, tid), m.(next := m.next + 1))
    else t
  }

  /** Expulsion removes the member, and with the last one the whole patota. */
  function Expel(t: Table, pid: Word, tid: Word): Table
    requires HasMember(t, pid, tid)
  {
    var i := FindPid(Pids(t), pid);
    var k := FindTid(t[i].crew, tid);
    if |t[i].crew| == 1 then t[..i] + t[i + 1..]
    else t[i := t[i].(crew := t[i].crew[..k] + t[i].crew[k + 1..])]
  }

  datatype Entry = Entry(pid: Word, tid: Word, state: Byte, x: Word, y: Word)

  function CrewEntries(pid: Word, crew: seq<Member>): (r: seq<Entry>)
    ensures |r| == |crew|
  {
    seq(|crew|, k requires 0 <= k < |crew| =>
      Entry(pid, crew[k].tid, crew[k].state, crew[k].x, crew[k].y))
  }

  /** The crew listing: patotas in admission order, members in starting order. */
  function Listing(t: Table): seq<Entry> {
    if t == [] then [] else CrewEntries(t[0].pid, t[0].crew) + Listing(t[1..])
  }

  lemma {:induction false} ListingSnoc(t: Table, g: Group)
    ensures Listing(t + [g]) == Listing(t) + CrewEntries(g.pid, g.crew)
  {
    if t == [] {
      assert t + [g] == [g];
      assert [g][1..] == [];
    } else {
      assert (t + [g])[1..] == t[1..] + [g];
      ListingSnoc(t[1..], g);
    }
  }

  lemma FindPidUnique(pids: seq<Word>, i: nat)
    requires i < |pids| && forall a, b :: 0 <= a < b < |pids| ==> pids[a] != pids[b]
    ensures FindPid(pids, pids[i]) == i
  {
  }

  // ----- The 21 stored bytes of a member -------------------------------------------------------

  /** tid, state, position, next task and the (always zero) PCB pointer, in storage order. */
  function TcbBytes(m: Member): (s: seq<Byte>)
    ensures |s| == TCB_SIZE
  {
    WordBytes(m.tid) + [m.state] + WordBytes(m.x) + WordBytes(m.y) + WordBytes(m.next) + WordBytes(0)
  }

  lemma TcbFields(m: Member)
    ensures TcbBytes(m)[..4] == WordBytes(m.tid)
    ensures TcbBytes(m)[4] == m.state
    ensures TcbBytes(m)[5..9] == WordBytes(m.x)
    ensures TcbBytes(m)[9..13] == WordBytes(m.y)
    ensures TcbBytes(m)[13..17] == WordBytes(m.next)
    ensures TcbBytes(m)[17..21] == WordBytes(0)
  {
  }

  lemma TcbSetPosition(m: Member, x: Word, y: Word)
    ensures Splice(TcbBytes(m), 5, WordBytes(x) + WordBytes(y)) == TcbBytes(m.(x := x, y := y))
  {
  }

  lemma TcbSetState(m: Member, state: Byte)
    ensures Splice(TcbBytes(m), 4, [state]) == TcbBytes(m.(state := state))
  {
  }

  lemma TcbSetNext(m: Member, next: Word)
    ensures Splice(TcbBytes(m), 13, WordBytes(next)) == TcbBytes(m.(next := next))
  {
  }

  lemma TcbDecodes(s: seq<Byte>, at: nat, m: Member)
    requires at + TCB_SIZE <= |s| && s[at..at + TCB_SIZE] == TcbBytes(m)
    ensures m == Member(BytesWord(s[at..at + 4]), s[at + 4], BytesWord(s[at + 5..at + 9]),
                        BytesWord(s[at + 9..at + 13]), BytesWord(s[at + 13..at + 17]))
  {
    TcbFields(m);
    SliceOfSlice(s, at, at + TCB_SIZE, 0, 4);
    SliceOfSlice(s, at, at + TCB_SIZE, 5, 9);
    SliceOfSlice(s, at, at + TCB_SIZE, 9, 13);
    SliceOfSlice(s, at, at + TCB_SIZE, 13, 17);
    assert s[at..at + TCB_SIZE][4] == s[at + 4];
    assert TcbBytes(m)[..4] == TcbBytes(m)[0..4];
    WordRoundTrip(m.tid);
    WordRoundTrip(m.x);
    WordRoundTrip(m.y);
    WordRoundTrip(m.next);
  }
}
