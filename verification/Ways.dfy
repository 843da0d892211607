/** The way that a crew member takes: along x first, then along y, one place in every run. */
module Ways {
  import opened Memory
  import opened CrewTable
  import opened Schedule
  import opened ScheduleLaws

  /** `a` after `k` moves towards `b`, where it stays. */
  function Approach(a: Word, b: Word, k: nat): (r: Word)
    ensures k == 0 ==> r == a
    ensures k >= Apart(a, b) ==> r == b
  {
    if a < b then if a + k < b then a + k else b
    else if b + k < a then a - k else b
  }

  /** Where `k` moves lead from `p` on the way to `to`. */
  function Along(p: Pos, to: Pos, k: nat): Pos {
    var n := Apart(p.x, to.x);
    Pos(Approach(p.x, to.x, k), Approach(p.y, to.y, if k > n then k - n else 0))
  }

  lemma FirstMove(p: Pos, to: Pos, k: nat)
    requires k > 0
    ensures Along(Toward(p, to), to, k - 1) == Along(p, to, k)
  {
  }

  /** Where a member is on its way to: the sabotage, or the place of its task. */
  function Goal(s: Sched, t: Trip): Pos
    requires s.sabotage || t.task.Some?
  {
    if s.sabotage then s.target else t.task.value.pos
  }

  function Times(tid: Word, k: nat): (r: seq<Word>)
    ensures |r| == k && forall i :: 0 <= i < k ==> r[i] == tid
  {
    seq(k, _ => tid)
  }

  function At(s: Sched, tid: Word, p: Pos): Sched
    requires tid in s.crew
  {
    Set(s, tid, s.crew[tid].(pos := p))
  }

  lemma OneMove(s: Sched, tid: Word, to: Pos, k: nat)
    requires tid in s.crew && (s.sabotage || s.crew[tid].task.Some?) && to == Goal(s, s.crew[tid])
    requires 0 < k <= Distance(s.crew[tid].pos, to)
    ensures var s1 := At(s, tid, Toward(s.crew[tid].pos, to));
      && RunOne(s, tid) == Some(s1)
      && tid in s1.crew && (s1.sabotage || s1.crew[tid].task.Some?) && Goal(s1, s1.crew[tid]) == to
      && k - 1 <= Distance(s1.crew[tid].pos, to)
      && At(s1, tid, Along(s1.crew[tid].pos, to, k - 1)) == At(s, tid, Along(s.crew[tid].pos, to, k))
  {
    var t := s.crew[tid];
    var s1 := At(s, tid, Toward(t.pos, to));
    TowardCloser(t.pos, to);
    FirstMove(t.pos, to, k);
    assert s1.crew[tid := t.(pos := Along(t.pos, to, k))] == s.crew[tid := t.(pos := Along(t.pos, to, k))];
  }

  /** As many runs as it takes to get there, or fewer, lead the member that far along its way and change nothing else. */
  lemma {:induction false} RunsWalk(s: Sched, tid: Word, to: Pos, k: nat)
    requires tid in s.crew && (s.sabotage || s.crew[tid].task.Some?) && to == Goal(s, s.crew[tid])
    requires k <= Distance(s.crew[tid].pos, to)
    ensures RunAll(s, Times(tid, k)) == Some(At(s, tid, Along(s.crew[tid].pos, to, k)))
    decreases k
  {
    hide RunOne, Distance, Along, Toward;
    if k == 0 {
      NoMove(s, tid, to);
    } else {
      OneMove(s, tid, to, k);
      var s1 := At(s, tid, Toward(s.crew[tid].pos, to));
      assert Times(tid, k)[1..] == Times(tid, k - 1);
      RunsWalk(s1, tid, to, k - 1);
    }
  }

  lemma NoMove(s: Sched, tid: Word, to: Pos)
    requires tid in s.crew
    ensures At(s, tid, Along(s.crew[tid].pos, to, 0)) == s
  {
    assert s.crew[tid := s.crew[tid]] == s.crew;
  }

  /** The last of them leads to the place itself. */
  lemma WayEnds(p: Pos, to: Pos)
    ensures Along(p, to, Distance(p, to)) == to
  {
  }
}
