/** `Shared_hashtable` and `Shared_hashtable_2` of examples/multicore/nqueens.ml:
    one worker process per first queen, and one or two shared tables, each guarded
    by a mutex.  A state machine over the steps of the workers.
 */
module QueensShared {
  import opened Queens
  import opened Sequences
  import opened QueensSearch
  import opened QueensCount

  /** `jobs[i]` are the representatives that worker `i` stores, in order.  With
      `split` the table is chosen by the row of the first queen. */
  datatype Setup = Setup(jobs: seq<seq<Board>>, split: bool, n: nat)

  function Side(c: Setup, b: Board): nat
  {
    if !c.split || b == [] || b[0] < c.n / 2 then 0 else 1
  }

  /** A worker stands before its next board, has locked the table, has looked the
      board up, or has added it. */
  datatype Phase = Idle | Locked | Checked(found: bool) | Added

  datatype Worker = Worker(pos: nat, phase: Phase)

  /** `locks[t]` is the worker that holds the mutex of table `t`, or -1. */
  datatype State = State(workers: seq<Worker>, locks: seq<int>, tables: seq<seq<Board>>)

  ghost predicate Init(c: Setup, s: State)
  {
    && |s.workers| == |c.jobs| && s.locks == [-1, -1] && s.tables == [[], []]
    && forall i :: 0 <= i < |s.workers| ==> s.workers[i] == Worker(0, Idle)
  }

  ghost predicate Shaped(c: Setup, s: State)
  {
    && |s.workers| == |c.jobs| && |s.locks| == |s.tables| == 2
    && forall i :: 0 <= i < |s.workers| ==>
         && s.workers[i].pos <= |c.jobs[i]|
         && (!s.workers[i].phase.Idle? ==> s.workers[i].pos < |c.jobs[i]|)
  }

  /** The board that worker `i` is about to store. */
  function Current(c: Setup, s: State, i: nat): Board
    requires i < |s.workers| == |c.jobs| && s.workers[i].pos < |c.jobs[i]|
  {
    c.jobs[i][s.workers[i].pos]
  }

  ghost predicate Step(c: Setup, s: State, s': State, i: nat)
    requires Shaped(c, s)
  {
    && i < |s.workers| && s.workers[i].pos < |c.jobs[i]|
    && var w, b := s.workers[i], Current(c, s, i);
       var t := Side(c, b);
       match w.phase
       case Idle =>
         s.locks[t] == -1 && s' == s.(workers := s.workers[i := w.(phase := Locked)], locks := s.locks[t := i])
       case Locked =>
         s' == s.(workers := s.workers[i := w.(phase := Checked(b in s.tables[t]))])
       case Checked(found) =>
         if found then Unlock(s, s', i, t)
         else s' == s.(workers := s.workers[i := w.(phase := Added)], tables := s.tables[t := s.tables[t] + [b]])
       case Added => Unlock(s, s', i, t)
  }

  ghost predicate Unlock(s: State, s': State, i: nat, t: nat)
    requires i < |s.workers| && t < |s.locks|
  {
    s' == s.(workers := s.workers[i := Worker(s.workers[i].pos + 1, Idle)], locks := s.locks[t := -1])
  }

  // ------------------------------------------------------- the invariant

  /** A mutex is held by exactly the worker that is inside, on the right table. */
  ghost predicate LocksOk(c: Setup, s: State)
    requires Shaped(c, s)
  {
    && (forall i :: 0 <= i < |s.workers| && !s.workers[i].phase.Idle? ==> s.locks[Side(c, Current(c, s, i))] == i)
    && (forall t :: 0 <= t < 2 && s.locks[t] != -1 ==>
          && 0 <= s.locks[t] < |s.workers| && !s.workers[s.locks[t]].phase.Idle?
          && Side(c, Current(c, s, s.locks[t])) == t)
  }

  /** What a worker inside knows is still true. */
  ghost predicate PhasesOk(c: Setup, s: State)
    requires Shaped(c, s)
  {
    forall i :: 0 <= i < |s.workers| ==>
      match s.workers[i].phase
      case Checked(found) => found <==> Current(c, s, i) in s.tables[Side(c, Current(c, s, i))]
      case Added => Current(c, s, i) in s.tables[Side(c, Current(c, s, i))]
      case _ => true
  }

  /** The tables hold each finished board once, in the table of its side. */
  ghost predicate TablesOk(c: Setup, s: State)
    requires Shaped(c, s)
  {
    && (forall t :: 0 <= t < 2 ==> NoDuplicates(s.tables[t]))
    && (forall t, x :: 0 <= t < 2 && x in s.tables[t] ==> Side(c, x) == t && FromJobs(c.jobs, x))
    && (forall i, j :: 0 <= i < |s.workers| && 0 <= j < s.workers[i].pos ==>
          c.jobs[i][j] in s.tables[Side(c, c.jobs[i][j])])
  }

  ghost predicate Inv(c: Setup, s: State)
  {
    Shaped(c, s) && LocksOk(c, s) && PhasesOk(c, s) && TablesOk(c, s)
  }

  lemma InitInv(c: Setup, s: State)
    requires Init(c, s)
    ensures Inv(c, s)
  {
  }

  lemma StepShaped(c: Setup, s: State, s': State, i: nat)
    requires Inv(c, s) && Step(c, s, s', i)
    ensures Shaped(c, s') && LocksOk(c, s')
  {
    hide TablesOk, PhasesOk;
    assert Current(c, s, i) == c.jobs[i][s.workers[i].pos];
  }

  lemma StepPhases(c: Setup, s: State, s': State, i: nat)
    requires Inv(c, s) && Step(c, s, s', i)
    ensures Shaped(c, s') && PhasesOk(c, s')
  {
    StepShaped(c, s, s', i);
    hide TablesOk;
    forall k | 0 <= k < |s'.workers| && k != i && !s'.workers[k].phase.Idle?
      ensures Current(c, s', k) == Current(c, s, k)
    {
    }
  }

  lemma StepTables(c: Setup, s: State, s': State, i: nat)
    requires Inv(c, s) && Step(c, s, s', i)
    ensures Shaped(c, s') && TablesOk(c, s')
  {
    StepShaped(c, s, s', i);
    hide LocksOk;
    var b := Current(c, s, i);
    var t := Side(c, b);
    assert FromJobs(c.jobs, b) by { assert c.jobs[i][s.workers[i].pos] == b; }
    if s.workers[i].phase.Checked? && !s.workers[i].phase.found {
      assert NoDuplicates(s.tables[t] + [b]);
    }
  }

  lemma StepInv(c: Setup, s: State, s': State, i: nat)
    requires Inv(c, s) && Step(c, s, s', i)
    ensures Inv(c, s')
  {
    StepShaped(c, s, s', i);
    StepPhases(c, s, s', i);
    StepTables(c, s, s', i);
  }

  // ----------------------------------------------------------- whole runs

  ghost predicate Next(c: Setup, s: State, s': State)
  {
    Shaped(c, s) && exists i :: Step(c, s, s', i)
  }

  ghost predicate IsRun(c: Setup, run: seq<State>)
  {
    && |run| > 0 && Init(c, run[0])
    && forall k :: 0 <= k < |run| - 1 ==> Next(c, run[k], run[k+1])
  }

  /** All workers have been joined. */
  ghost predicate Finished(c: Setup, s: State)
  {
    |s.workers| == |c.jobs| && forall i :: 0 <= i < |s.workers| ==> s.workers[i] == Worker(|c.jobs[i]|, Idle)
  }

  lemma {:induction false} RunInv(c: Setup, run: seq<State>)
    requires IsRun(c, run)
    ensures Inv(c, run[|run|-1])
  {
    hide Inv, Init;
    if |run| == 1 {
      InitInv(c, run[0]);
    } else {
      var k := |run| - 2;
      RunInv(c, run[..k+1]);
      assert Next(c, run[k], run[k+1]);
      var i :| Step(c, run[k], run[k+1], i);
      StepInv(c, run[k], run[k+1], i);
    }
  }

  /** As long as a worker has something to store, some worker can go on. */
  lemma NoDeadlock(c: Setup, s: State)
    requires Inv(c, s) && !Finished(c, s)
    ensures exists s' :: Next(c, s, s')
  {
    var i :| 0 <= i < |s.workers| && s.workers[i] != Worker(|c.jobs[i]|, Idle);
    assert s.workers[i].pos < |c.jobs[i]|;
    var holder := s.locks[Side(c, Current(c, s, i))];
    var k := if s.workers[i].phase.Idle? && holder != -1 then holder else i;
    var s' := StepOf(c, s, k);
    assert Step(c, s, s', k);
    assert Next(c, s, s');
  }

  /** What worker `k` does next, when it is inside or its table is unlocked. */
  ghost function StepOf(c: Setup, s: State, k: nat): (s': State)
    requires Shaped(c, s) && k < |s.workers| && s.workers[k].pos < |c.jobs[k]|
    requires s.workers[k].phase.Idle? ==> s.locks[Side(c, Current(c, s, k))] == -1
    ensures Step(c, s, s', k)
  {
    var w, b := s.workers[k], Current(c, s, k);
    var t := Side(c, b);
    match w.phase
    case Idle => s.(workers := s.workers[k := w.(phase := Locked)], locks := s.locks[t := k])
    case Locked => s.(workers := s.workers[k := w.(phase := Checked(b in s.tables[t]))])
    case Checked(found) =>
      if found then s.(workers := s.workers[k := Worker(w.pos + 1, Idle)], locks := s.locks[t := -1])
      else s.(workers := s.workers[k := w.(phase := Added)], tables := s.tables[t := s.tables[t] + [b]])
    case Added => s.(workers := s.workers[k := Worker(w.pos + 1, Idle)], locks := s.locks[t := -1])
  }

  /** When the workers are done, both tables together hold every board once. */
  lemma FinishedTables(c: Setup, s: State)
    requires Inv(c, s) && Finished(c, s)
    ensures NoDuplicates(s.tables[0] + s.tables[1])
    ensures forall x :: x in s.tables[0] + s.tables[1] <==> FromJobs(c.jobs, x)
    ensures !c.split ==> s.tables[1] == []
  {
    forall x | x in s.tables[0] ensures x !in s.tables[1] {
      assert Side(c, x) == 0;
    }
    NoDuplicatesJoin(s.tables[0], s.tables[1]);
    forall x | FromJobs(c.jobs, x) ensures x in s.tables[0] + s.tables[1] {
      var i, j :| 0 <= i < |c.jobs| && 0 <= j < |c.jobs[i]| && c.jobs[i][j] == x;
      assert c.jobs[i][j] in s.tables[Side(c, c.jobs[i][j])];
    }
    if s.tables[1] != [] {
      var x := s.tables[1][0];
      assert x in s.tables[1] && Side(c, x) == 1;
    }
  }

  // ------------------------------------------------------------ termination

  function PhaseWork(p: Phase): nat
  {
    match p
    case Idle => 0
    case Locked => 1
    case Checked(_) => 2
    case Added => 3
  }

  /** The number of steps that the workers may still take. */
  function Work(jobs: seq<seq<Board>>, ws: seq<Worker>): int
    requires |jobs| == |ws|
  {
    if ws == [] then 0
    else 4 * (|jobs[0]| - ws[0].pos) - PhaseWork(ws[0].phase) + Work(jobs[1..], ws[1..])
  }

  lemma {:induction false} WorkUpdate(jobs: seq<seq<Board>>, ws: seq<Worker>, i: nat, w: Worker)
    requires |jobs| == |ws| && i < |ws|
    ensures Work(jobs, ws[i := w]) == Work(jobs, ws) - 4 * (w.pos - ws[i].pos)
      - PhaseWork(w.phase) + PhaseWork(ws[i].phase)
  {
    if i == 0 {
      assert ws[i := w][1..] == ws[1..];
    } else {
      assert ws[i := w][1..] == ws[1..][i - 1 := w];
      WorkUpdate(jobs[1..], ws[1..], i - 1, w);
    }
  }

  lemma {:induction false} WorkNatural(jobs: seq<seq<Board>>, ws: seq<Worker>)
    requires |jobs| == |ws|
    requires forall i :: 0 <= i < |ws| ==>
      ws[i].pos <= |jobs[i]| && (!ws[i].phase.Idle? ==> ws[i].pos < |jobs[i]|)
    ensures Work(jobs, ws) >= 0
  {
    if ws != [] { WorkNatural(jobs[1..], ws[1..]); }
  }

  lemma WorkDecreases(c: Setup, s: State, s': State, i: nat)
    requires Shaped(c, s) && Step(c, s, s', i)
    ensures |s'.workers| == |c.jobs| && Work(c.jobs, s'.workers) < Work(c.jobs, s.workers)
  {
    WorkUpdate(c.jobs, s.workers, i, s'.workers[i]);
  }

  lemma {:induction false} RunBounded(c: Setup, run: seq<State>)
    requires IsRun(c, run)
    ensures |run[0].workers| == |run[|run|-1].workers| == |c.jobs|
    ensures Work(c.jobs, run[|run|-1].workers) + |run| - 1 <= Work(c.jobs, run[0].workers)
  {
    hide Inv, Step;
    if |run| > 1 {
      var k := |run| - 2;
      RunBounded(c, run[..k+1]);
      assert Next(c, run[k], run[k+1]);
      var i :| Step(c, run[k], run[k+1], i);
      WorkDecreases(c, run[k], run[k+1], i);
    }
  }

  ghost predicate Stuck(c: Setup, s: State) { forall s' :: !Next(c, s, s') }

  /** Every run is finite, and where it cannot go on, all workers are done. */
  lemma SharedEnds(c: Setup, run: seq<State>)
    requires IsRun(c, run)
    ensures |run[0].workers| == |c.jobs| && |run| <= Work(c.jobs, run[0].workers) + 1
    ensures Stuck(c, run[|run|-1]) ==> Finished(c, run[|run|-1])
  {
    hide LocksOk, PhasesOk, TablesOk;
    RunInv(c, run);
    RunBounded(c, run);
    var s := run[|run|-1];
    WorkNatural(c.jobs, s.workers);
    if !Finished(c, s) { NoDeadlock(c, s); }
  }

  /** The rule of `Shared_hashtable_2` and `Message_passing_2` does not split the work: all
      representatives of boards of size two or more go to the first side. */
  lemma NoSecondSide(n: nat, split: bool, x: Board)
    requires n >= 2 && FromJobs(WorkerJobs(n), x)
    ensures Side(Setup(WorkerJobs(n), split, n), x) == 0
  {
    hide BMin, Rooks, Extensions;
    var i, j :| 0 <= i < n && 0 <= j < |WorkerJobs(n)[i]| && WorkerJobs(n)[i][j] == x;
    EmittedNext(n, i);
    var b := Extensions([i], n, 0)[j];
    SolveExact(i, n);
    assert b in Extensions([i], n, 0);
    BMinFirstHalf(b);
  }

  /** So the second shared table is empty at all times. */
  lemma SecondTableEmpty(n: nat, run: seq<State>)
    requires n >= 2 && IsRun(Setup(WorkerJobs(n), true, n), run)
    ensures |run[|run|-1].tables| == 2 && run[|run|-1].tables[1] == []
  {
    hide WorkerJobs, FromJobs;
    var c, s := Setup(WorkerJobs(n), true, n), run[|run|-1];
    RunInv(c, run);
    forall x ensures x !in s.tables[1] {
      if FromJobs(c.jobs, x) { NoSecondSide(n, true, x); }
    }
    HasElement(s.tables[1]);
  }

  /** Main result: in every interleaving, the merged tables have as many entries as
      there are classes of solutions, with one table and with two. */
  lemma SharedCount(n: nat, split: bool, run: seq<State>)
    requires var c := Setup(WorkerJobs(n), split, n);
      IsRun(c, run) && Finished(c, run[|run|-1])
    ensures var s := run[|run|-1];
      && |s.tables| == 2
      && |s.tables[0] + s.tables[1]| == NumberOfClasses(n)
      && (!split ==> |s.tables[0]| == NumberOfClasses(n))
  {
    var c, s := Setup(WorkerJobs(n), split, n), run[|run|-1];
    RunInv(c, run);
    FinishedTables(c, s);
    CountedAll(n, s.tables[0] + s.tables[1]);
  }
}
