/** Histories after which a sabotage is never over: one member, one CPU, and an expulsion while the member is on its way. */
module LostSabotage {
  import opened Memory
  import opened CrewTable
  import opened Schedule
  import opened ScheduleLaws
  import opened ScheduleRuns
  import opened ProtocolOrders
  import CycleProtocol

  const ONE_CPU := Config(1, 1, 0, Fifo)
  const FAR := Task(Pos(9, 0), false, 1)

  /** The only member's trip after `x` steps to the right. */
  function Walker(x: Word, state: State, task: Option<Task>, todo: seq<Task>): Trip {
    Trip(Pos(x, 0), 1, state, false, task, todo)
  }

  function Arrived(): Sched {
    EMPTY.(news := [7], crew := map[7 := Walker(0, New, None, [FAR])])
  }

  /** In EXEC, after `x` steps. */
  function Walking(x: Word): Sched {
    EMPTY.(exec := [7], crew := map[7 := Walker(x, Exec, Some(FAR), [])])
  }

  /** The same during the sabotage. */
  function Hurrying(x: Word, requests: seq<Word>): Sched {
    Walking(x).(requests := requests, sabotage := true, target := Pos(5, 0))
  }

  const GONE := EMPTY.(sabotage := true, target := Pos(5, 0))

  const TURN := Turn([7], [7])

  lemma AloneFair()
    ensures Fair(ONE_CPU, [7], [7], [7]) && Produces(CycleProtocol.Config(1, 1), [7], [7], [7])
  {
    var p := CycleProtocol.Config(1, 1);
    var after := AgainProduced(p, [7], 0);
    assert [7 as Word] + Again(7, 0) == [7];
    var ws: seq<CycleProtocol.World>, steps: seq<CycleProtocol.Step>, i: nat :| Cycled(p, ws, steps, i)
      && ws[i + 1].start == [7] && ws[i + 1].ran == [7] && ws[i + 1].exec == after;
    ProtocolIsFair(ONE_CPU, p, ws, steps, i);
    SingleMultiset(after, 7);
  }

  /** What a cycle does that moves the member one step. */
  lemma OneStep(s: Sched, s1: Sched, x: Word)
    requires Prepare(ONE_CPU, s) == Some(s1) && s1.exec == [7] && x < 5
    requires s1 == if s1.sabotage then Hurrying(x, s1.requests) else Walking(x).(requests := s1.requests)
    ensures Devices(s1, [7], [7]) == Some(if s1.sabotage then Hurrying(x + 1, s1.requests) else Walking(x + 1).(requests := s1.requests))
  {
    var s2 := RunOne(s1, 7).value;
    assert [7 as Word][1..] == [];
    assert RunAll(s1, [7]) == RunAll(s2, []) == Some(s2);
    assert s2.crew == map[7 := Walker(x + 1, Exec, Some(FAR), [])];
  }

  lemma Swept(s: Sched)
    requires s.exec == [7] && !s.handling && !Get(s, 7).block
    ensures CheckExec(ONE_CPU, s) == s
  {
    assert Sweep(ONE_CPU, s, 0) == Sweep(ONE_CPU, s, 1) == s;
  }

  /** Admission, and the first step. */
  lemma FirstStep()
    ensures Possible(ONE_CPU, Arrived(), TURN) && Follow(ONE_CPU, Arrived(), TURN) == Walking(1)
  {
    var s, admitted := Arrived(), AdmitOne(Arrived());
    assert [7 as Word][1..] == [] && [] + [7 as Word] == [7] && [FAR][1..] == [];
    assert admitted.crew == map[7 := Walker(0, Ready, Some(FAR), [])];
    assert admitted == EMPTY.(ready := [7], crew := map[7 := Walker(0, Ready, Some(FAR), [])]);
    assert AdmitNews(s) == AdmitNews(admitted) == admitted;
    assert Dispatch(admitted) == Walking(0);
    assert FillExec(ONE_CPU, admitted) == FillExec(ONE_CPU, Walking(0)) == Walking(0);
    OneStep(s, Walking(0), 0);
    Swept(Walking(1));
    AloneFair();
    assert ServeRequests(Walking(1)) == Walking(1);
  }

  /** The routine begins: the member is frozen, chosen and sent, and makes its first step toward the sabotage. */
  lemma SentOff()
    ensures var s := Notify(Walking(1), Pos(5, 0));
      Possible(ONE_CPU, s, TURN) && Follow(ONE_CPU, s, TURN) == Hurrying(2, [])
  {
    var s := Notify(Walking(1), Pos(5, 0));
    var sent := Hurrying(1, []).(exec := [], ready := [7], crew := map[7 := Walker(1, Ready, Some(FAR), [])]);
    RoutineSends(s, sent);
    assert Dispatch(sent) == Hurrying(1, []);
    assert FillExec(ONE_CPU, sent) == FillExec(ONE_CPU, Hurrying(1, [])) == Hurrying(1, []);
    OneStep(s, Hurrying(1, []), 1);
    Swept(Hurrying(2, []));
    AloneFair();
    assert ServeRequests(Hurrying(2, [])) == Hurrying(2, []);
  }

  lemma RoutineSends(s: Sched, sent: Sched)
    requires s == Notify(Walking(1), Pos(5, 0))
    requires sent == Hurrying(1, []).(exec := [], ready := [7], crew := map[7 := Walker(1, Ready, Some(FAR), [])])
    ensures InitSabotage(s) == Some(sent)
  {
    var s0 := s.(starting := false);
    assert SortTids([7]) == SortInto([7], []) == [7] && SortTids([]) == [];
    var frozen := Hurrying(1, []).(exec := [], frozen := [7], crew := map[7 := Walker(1, BlockSabotage, Some(FAR), [])]);
    hide SortTids, SortInto;
    assert SortExec(s0) == s0 && FreezeOneExec(s0) == frozen;
    assert FreezeExec(s0) == FreezeExec(frozen) == frozen;
    assert SortReady(frozen) == frozen && FreezeReady(frozen) == frozen;
    hide FreezeExec, FreezeReady, SortExec, SortReady;
    OnlyOneClosest(frozen);
    assert Without([7], 7) == [] && [] + [7 as Word] == [7];
    assert frozen.crew[7 := Walker(1, Ready, Some(FAR), [])] == sent.crew;
  }

  lemma OnlyOneClosest(s: Sched)
    requires 7 in s.crew && s.crew[7].pos == Pos(1, 0) && s.target == Pos(5, 0)
    ensures Closest(s, [7], 0xFFFF_FFFF, 0) == 7
  {
    assert Gap(s, 7) == 4 && [7 as Word][1..] == [];
    assert Closest(s, [7], 0xFFFF_FFFF, 0) == Closest(s, [], 4, 7);
  }

  /** Four events lead to a sabotage that the member is on its way to. */
  const BEGINNING := [Arrive(7, Walker(0, New, None, [FAR])), TURN, Announce(Pos(5, 0)), TURN]

  function Opening(): seq<Sched> {
    [EMPTY, Arrived(), Walking(1), Notify(Walking(1), Pos(5, 0)), Hurrying(2, [])]
  }

  lemma OpeningIs(k: nat)
    requires k < 4
    ensures Possible(ONE_CPU, Opening()[k], BEGINNING[k])
    ensures Opening()[k + 1] == Follow(ONE_CPU, Opening()[k], BEGINNING[k])
  {
    if k == 0 {
      assert [] + [7 as Word] == [7];
    } else if k == 1 {
      hide Follow, Possible, Walking;
      FirstStep();
    } else if k == 3 {
      hide Follow, Possible, Walking, Hurrying;
      SentOff();
    }
  }

  /** Dropping the member now, while the planner is paused, leaves a sabotage that nobody is on the way to. */
  lemma Dropped()
    ensures Begins(ONE_CPU, Opening() + [GONE], BEGINNING + [Drop(7)], 3, 5) && Abandoned(GONE)
    ensures Struck(Opening() + [GONE], BEGINNING + [Drop(7)], 3, 4, Chosen(Opening()[3]))
  {
    hide IsHistory, Begins, Chosen;
    DropEnds();
    BegunAt3([GONE], [Drop(7)]);
    ChosenIs();
    var ss := Opening() + [GONE];
    assert ss[3] == Opening()[3] && ss[4] == Hurrying(2, []) && ss[5] == GONE;
  }

  lemma DropEnds()
    ensures IsHistory(ONE_CPU, Opening() + [GONE], BEGINNING + [Drop(7)])
  {
    assert Without([7], 7) == [];
    assert Terminate(Hurrying(2, []), 7) == GONE;
    assert Possible(ONE_CPU, Hurrying(2, []), Drop(7)) && Follow(ONE_CPU, Hurrying(2, []), Drop(7)) == GONE;
    Ends([GONE], [Drop(7)]);
  }

  /** The opening with more to come. */
  lemma Ends(more: seq<Sched>, events: seq<Event>)
    requires |more| == |events|
    requires forall k {:trigger events[k]} :: 0 <= k < |events| ==>
               && Possible(ONE_CPU, if k == 0 then Hurrying(2, []) else more[k - 1], events[k])
               && more[k] == Follow(ONE_CPU, if k == 0 then Hurrying(2, []) else more[k - 1], events[k])
    ensures IsHistory(ONE_CPU, Opening() + more, BEGINNING + events)
  {
    var ss, es := Opening() + more, BEGINNING + events;
    forall k | 0 <= k < |es| ensures Possible(ONE_CPU, ss[k], es[k]) && ss[k + 1] == Follow(ONE_CPU, ss[k], es[k]) {
      hide Possible, Follow;
      if k < 4 {
        OpeningIs(k);
        assert ss[k] == Opening()[k] && ss[k + 1] == Opening()[k + 1] && es[k] == BEGINNING[k];
      } else {
        assert es[k] == events[k - 4] && ss[k + 1] == more[k - 4];
        assert ss[k] == if k == 4 then Hurrying(2, []) else more[k - 5];
      }
    }
  }

  /** The sabotage begins at the fourth event, and nobody arrives after it. */
  lemma BegunAt3(more: seq<Sched>, events: seq<Event>)
    requires IsHistory(ONE_CPU, Opening() + more, BEGINNING + events) && |events| > 0 && |more| == |events|
    requires forall k :: 0 <= k < |events| ==> !events[k].Arrive?
    ensures Begins(ONE_CPU, Opening() + more, BEGINNING + events, 3, 4 + |events|)
  {
    var ss, es := Opening() + more, BEGINNING + events;
    hide IsHistory, Frozen;
    assert ss[3] == Notify(Walking(1), Pos(5, 0)) && es[3] == TURN;
    forall m | 3 <= m < |es| ensures !Arrives(es[m], Frozen(ss[3])) {
      assert m > 3 ==> es[m] == events[m - 4];
    }
  }

  lemma ChosenIs()
    ensures Chosen(Opening()[3]) == 7
  {
    var s := Notify(Walking(1), Pos(5, 0));
    var sent := Hurrying(1, []).(exec := [], ready := [7], crew := map[7 := Walker(1, Ready, Some(FAR), [])]);
    RoutineSends(s, sent);
    assert InitSabotage(s).value.ready == FreezeAll(s).ready + [Chosen(s)];
  }

  /** So does a request that is served at the end of the next cycle. */
  lemma Asked()
    ensures var ss, es := Opening() + [Hurrying(2, [7]), GONE], BEGINNING + [Ask(7), TURN];
      Begins(ONE_CPU, ss, es, 3, 6) && Abandoned(GONE) && Struck(ss, es, 3, 5, Chosen(ss[3]))
  {
    hide IsHistory, Begins, Chosen;
    AskedEnds();
    BegunAt3([Hurrying(2, [7]), GONE], [Ask(7), TURN]);
    ChosenIs();
    var ss := Opening() + [Hurrying(2, [7]), GONE];
    assert ss[3] == Opening()[3] && ss[4] == Hurrying(2, []) && ss[5] == Hurrying(2, [7]) && ss[6] == GONE;
  }

  lemma AskedEnds()
    ensures IsHistory(ONE_CPU, Opening() + [Hurrying(2, [7]), GONE], BEGINNING + [Ask(7), TURN])
  {
    assert Follow(ONE_CPU, Hurrying(2, []), Ask(7)) == Hurrying(2, [7]) by {
      assert [] + [7 as Word] == [7];
    }
    assert Possible(ONE_CPU, Hurrying(2, []), Ask(7));
    hide Possible, Follow;
    Caught();
    Ends([Hurrying(2, [7]), GONE], [Ask(7), TURN]);
  }

  lemma Caught()
    ensures Possible(ONE_CPU, Hurrying(2, [7]), TURN) && Follow(ONE_CPU, Hurrying(2, [7]), TURN) == GONE
  {
    var s := Hurrying(2, [7]);
    assert FillExec(ONE_CPU, s) == s;
    OneStep(s, s, 2);
    Swept(Hurrying(3, [7]));
    AloneFair();
    assert Without([7], 7) == [] && [7 as Word][1..] == [];
    assert Terminate(Hurrying(3, [7]), 7) == GONE.(requests := [7]);
    assert ServeRequests(Hurrying(3, [7])) == ServeRequests(GONE) == GONE;
  }
}
