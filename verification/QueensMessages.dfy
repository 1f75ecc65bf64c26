/** `Message_passing` of examples/multicore/nqueens.ml: one worker for each first
    queen, and one collector with a camlbox.  A state machine over the steps of all
    processes.
 */
module QueensMessages {
  import opened QueensCount
  import opened QueensReader
  import opened QueensSender
  import QueensShared

  /** `todo[i]`: what worker `i` has not sent yet. */
  datatype State = State(todo: seq<seq<Letter>>, r: Reader)

  datatype Action = Send(i: nat) | Collect(read: Read)

  /** `letters[i]` is everything that worker `i` sends. */
  ghost predicate Init(letters: seq<seq<Letter>>, s: State)
  {
    s == State(letters, Start(|letters|))
  }

  ghost predicate Step(capacity: nat, s: State, s': State, a: Action)
  {
    match a
    case Send(i) =>
      && i < |s.todo| == |s.r.sent| && s.todo[i] != [] && HasRoom(s.r, capacity)
      && s' == State(s.todo[i := s.todo[i][1..]], Receive(s.r, i, s.todo[i][0].msg))
    case Collect(read) => s'.todo == s.todo && ReadStep(s.r, s'.r, read)
  }

  ghost predicate Inv(letters: seq<seq<Letter>>, s: State)
  {
    && |s.todo| == |letters| == |s.r.sent|
    && ReaderOk(s.r)
    && (forall i :: 0 <= i < |letters| ==> Linked(s.r.sent[i], s.todo[i], letters[i], 0))
    && (forall i, k :: 0 <= i < |letters| && 0 <= k < |s.todo[i]| ==> s.todo[i][k].side == 0)
  }

  lemma InitInv(c: QueensShared.Setup, letters: seq<seq<Letter>>, nMax: nat, s: State)
    requires Workers(c, 1, letters, nMax) && Init(letters, s)
    ensures Inv(letters, s)
  {
    StartOk(|letters|);
    forall i | 0 <= i < |letters| ensures Linked(s.r.sent[i], s.todo[i], letters[i], 0) {
      assert LettersOk(c, 1, c.jobs[i], letters[i], nMax);
    }
    forall i, k | 0 <= i < |letters| && 0 <= k < |s.todo[i]| ensures s.todo[i][k].side == 0 {
      assert LettersOk(c, 1, c.jobs[i], letters[i], nMax);
    }
  }

  lemma SendInv(c: QueensShared.Setup, letters: seq<seq<Letter>>, nMax: nat, capacity: nat, s: State, s': State, i: nat)
    requires Workers(c, 1, letters, nMax) && Inv(letters, s) && Step(capacity, s, s', Send(i))
    ensures Inv(letters, s')
  {
    hide ReaderOk, On, Linked, Script;
    assert LettersOk(c, 1, c.jobs[i], letters[i], nMax) && Linked(s.r.sent[i], s.todo[i], letters[i], 0);
    NotClosed(s.r.sent[i], s.todo[i], letters[i], 0, nMax);
    OnHead(s.todo[i]);
    ReceiveOk(s.r, i, s.todo[i][0].msg);
    LinkedSend(s.r.sent[i], s.todo[i], letters[i], 0);
  }

  lemma StepInv(c: QueensShared.Setup, letters: seq<seq<Letter>>, nMax: nat, capacity: nat,
                s: State, s': State, a: Action)
    requires Workers(c, 1, letters, nMax) && Inv(letters, s) && Step(capacity, s, s', a)
    ensures Inv(letters, s')
  {
    match a
    case Send(i) => SendInv(c, letters, nMax, capacity, s, s', i);
    case Collect(read) =>
      hide ReaderOk, ReadStep, Workers;
      ReadOk(s.r, s'.r, read);
  }

  // ----------------------------------------------------------- whole runs

  ghost predicate Next(capacity: nat, s: State, s': State) { exists a :: Step(capacity, s, s', a) }

  ghost predicate Stuck(capacity: nat, s: State) { forall s' :: !Next(capacity, s, s') }

  ghost predicate IsRun(letters: seq<seq<Letter>>, capacity: nat, run: seq<State>)
  {
    && |run| > 0 && Init(letters, run[0])
    && forall k :: 0 <= k < |run| - 1 ==> Next(capacity, run[k], run[k+1])
  }

  lemma {:induction false} RunInv(c: QueensShared.Setup, letters: seq<seq<Letter>>, nMax: nat, capacity: nat,
                                  run: seq<State>)
    requires Workers(c, 1, letters, nMax) && IsRun(letters, capacity, run)
    ensures Inv(letters, run[|run|-1])
  {
    hide Inv, Init, Step, Workers;
    if |run| == 1 {
      InitInv(c, letters, nMax, run[0]);
    } else {
      var k := |run| - 2;
      RunInv(c, letters, nMax, capacity, run[..k+1]);
      assert Next(capacity, run[k], run[k+1]);
      var a :| Step(capacity, run[k], run[k+1], a);
      StepInv(c, letters, nMax, capacity, run[k], run[k+1], a);
    }
  }

  /** Everybody is done. */
  ghost predicate AllDone(s: State)
  {
    Finished(s.r) && forall i :: 0 <= i < |s.todo| ==> s.todo[i] == []
  }

  /** When the collector has finished, so have the workers. */
  lemma FinishedAll(c: QueensShared.Setup, letters: seq<seq<Letter>>, nMax: nat, s: State)
    requires Workers(c, 1, letters, nMax) && Inv(letters, s) && Finished(s.r)
    ensures AllDone(s) && forall i :: 0 <= i < |letters| ==> s.r.sent[i] == On(letters[i], 0)
  {
    hide ReaderOk, Script, On;
    FinishedTable(s.r);
    forall i | 0 <= i < |letters| ensures s.todo[i] == [] && s.r.sent[i] == On(letters[i], 0) {
      assert LettersOk(c, 1, c.jobs[i], letters[i], nMax) && Linked(s.r.sent[i], s.todo[i], letters[i], 0);
      NotClosed(s.r.sent[i], s.todo[i], letters[i], 0, nMax);
      if s.todo[i] != [] { OnHead(s.todo[i]); }
    }
  }

  lemma Progress(c: QueensShared.Setup, letters: seq<seq<Letter>>, nMax: nat, capacity: nat, s: State)
    returns (a: Action, s': State)
    requires Workers(c, 1, letters, nMax) && Inv(letters, s) && !AllDone(s) && capacity > 0
    ensures Step(capacity, s, s', a)
  {
    hide ReaderOk, Script, On, AllDone;
    if s.r.at.At? || s.r.batch != {} || s.r.box != {} {
      var read, r' := ReaderProgress(s.r);
      a, s' := Collect(read), s.(r := r');
    } else {
      if s.r.w <= 0 { FinishedAll(c, letters, nMax, s); }
      var i := OpenSender(s.r);
      assert LettersOk(c, 1, c.jobs[i], letters[i], nMax) && Linked(s.r.sent[i], s.todo[i], letters[i], 0);
      NotClosed(s.r.sent[i], s.todo[i], letters[i], 0, nMax);
      if s.todo[i] == [] { Nothing(); }
      a, s' := Send(i), State(s.todo[i := s.todo[i][1..]], Receive(s.r, i, s.todo[i][0].msg));
    }
  }

  // ------------------------------------------------------------ termination

  ghost function Rank(s: State): int { Total(s.todo) + Work(s.r, 6) }

  lemma RankDecreases(letters: seq<seq<Letter>>, capacity: nat, s: State, s': State, a: Action)
    requires Inv(letters, s) && Step(capacity, s, s', a)
    ensures Rank(s') < Rank(s)
  {
    hide Work, Receive, ReadStep, OrderOk, EndsLast, CountOk, TableOk, ItemsOk;
    match a
    case Send(i) =>
      TotalSend(s.todo, i);
      ReceiveWork(s.r, i, s.todo[i][0].msg, 6);
    case Collect(read) => ReadWork(s.r, s'.r, read, 6);
  }

  lemma {:induction false} RunBounded(c: QueensShared.Setup, letters: seq<seq<Letter>>, nMax: nat, capacity: nat,
                                      run: seq<State>)
    requires Workers(c, 1, letters, nMax) && IsRun(letters, capacity, run)
    ensures Rank(run[|run|-1]) + |run| - 1 <= Rank(run[0])
  {
    hide Inv, Step, Rank, Workers, Init;
    if |run| > 1 {
      var k := |run| - 2;
      RunBounded(c, letters, nMax, capacity, run[..k+1]);
      RunInv(c, letters, nMax, capacity, run[..k+1]);
      assert Next(capacity, run[k], run[k+1]);
      var a :| Step(capacity, run[k], run[k+1], a);
      RankDecreases(letters, capacity, run[k], run[k+1], a);
    }
  }

  /** Every run is finite, and where it cannot go on, everybody is done. */
  lemma MessagesEnd(c: QueensShared.Setup, letters: seq<seq<Letter>>, nMax: nat, capacity: nat, run: seq<State>)
    requires Workers(c, 1, letters, nMax) && IsRun(letters, capacity, run) && capacity > 0
    ensures |run| <= Rank(run[0]) + 1
    ensures Stuck(capacity, run[|run|-1]) ==> AllDone(run[|run|-1])
  {
    hide Step, Workers, Init, Work, OrderOk, EndsLast, CountOk, TableOk, ItemsOk, AllDone;
    var s := run[|run|-1];
    RunInv(c, letters, nMax, capacity, run);
    RunBounded(c, letters, nMax, capacity, run);
    WorkNatural(s.r, 6);
    if !AllDone(s) {
      var a, s' := Progress(c, letters, nMax, capacity, s);
      assert Next(capacity, s, s');
    }
  }

  // -------------------------------------------------------------- the count

  /** Main result on `Message_passing`: in every interleaving the collector prints the
      number of classes. */
  lemma MessageCount(n: nat, letters: seq<seq<Letter>>, nMax: nat, capacity: nat, run: seq<State>)
    requires Workers(QueensShared.Setup(WorkerJobs(n), false, n), 1, letters, nMax)
    requires IsRun(letters, capacity, run) && Finished(run[|run|-1].r)
    ensures |run[|run|-1].r.table| == NumberOfClasses(n)
  {
    hide Workers, Init, On, InScript, ReaderOk, FromJobs, WorkerJobs, Linked;
    var c, s := QueensShared.Setup(WorkerJobs(n), false, n), run[|run|-1];
    RunInv(c, letters, nMax, capacity, run);
    FinishedAll(c, letters, nMax, s);
    FinishedTable(s.r);
    forall x ensures x in s.r.table <==> FromJobs(WorkerJobs(n), x) {
      SentIsJobs(c, 1, 0, letters, nMax, x);
      assert (exists i :: 0 <= i < |letters| && InScript(On(letters[i], 0), x)) <==>
        exists i :: 0 <= i < |s.r.sent| && InScript(s.r.sent[i], x);
    }
    CountedAll(n, s.r.table);
  }

  /** In every run the camlbox has no more messages than slots. */
  lemma {:induction false} BoxFits(letters: seq<seq<Letter>>, capacity: nat, run: seq<State>, k: nat)
    requires IsRun(letters, capacity, run) && k < |run|
    ensures |run[k].r.box| + |run[k].r.batch| <= capacity
  {
    if k > 0 {
      BoxFits(letters, capacity, run, k - 1);
      assert Next(capacity, run[k-1], run[k-1+1]);
      var s, s' := run[k-1], run[k];
      var a :| Step(capacity, s, s', a);
      hide ReadStep, Receive;
      match a
      case Send(i) => ReceiveFits(s.r, i, s.todo[i][0].msg, capacity);
      case Collect(read) => ReadFits(s.r, s'.r, read, capacity);
    }
  }
}
