/** `Message_passing_2` of examples/multicore/nqueens.ml: workers send to one of two
    collectors, and the collectors send what is new to them on to a master collector,
    while they still receive.  One state machine over the steps of all processes; all
    three camlboxes are bounded.
 */
module QueensPipeline {
  import opened Queens
  import opened QueensCount
  import opened QueensReader
  import opened QueensSender
  import QueensShared
  import Sequences

  /** `current` is the batch being filled, `ended` whether End was sent. */
  datatype Collector = Collector(r: Reader, current: seq<Board>, ended: bool)

  datatype State = State(todo: seq<seq<Letter>>, cs: seq<Collector>, main: Reader)

  datatype Action = Send(i: nat) | Reads(k: nat, read: Read) | Forward(k: nat) | Finish(k: nat) | Main(read: Read)

  ghost predicate Init(letters: seq<seq<Letter>>, s: State)
  {
    var c := Collector(Start(|letters|), [], false);
    s == State(letters, [c, c], Start(2))
  }

  /** The batch after a step of the reading loop: a board that is new is put in. */
  function Batch(c: Collector, read: Read): seq<Board>
  {
    if read.Look? && Looking(c.r.at) && c.r.at.item.msg.list[c.r.at.k] !in c.r.table
    then [c.r.at.item.msg.list[c.r.at.k]] + c.current
    else c.current
  }

  /** A full batch is sent before anything else; the last one when the loop is over. */
  ghost predicate Step(nMax: nat, capacity: nat, s: State, s': State, a: Action)
    requires |s.cs| == 2 && |s.main.sent| == 2
  {
    match a
    case Send(i) =>
      && i < |s.todo| && s.todo[i] != []
      && var l := s.todo[i][0];
         && l.side < 2 && i < |s.cs[l.side].r.sent| && HasRoom(s.cs[l.side].r, capacity)
         && s' == s.(todo := s.todo[i := s.todo[i][1..]],
                     cs := s.cs[l.side := s.cs[l.side].(r := Receive(s.cs[l.side].r, i, l.msg))])
    case Reads(k, read) =>
      && k < 2 && |s.cs[k].current| < nMax
      && |s'.cs| == 2 && ReadStep(s.cs[k].r, s'.cs[k].r, read)
      && s' == s.(cs := s.cs[k := s.cs[k].(r := s'.cs[k].r, current := Batch(s.cs[k], read))])
    case Forward(k) =>
      && k < 2 && HasRoom(s.main, capacity)
      && (|s.cs[k].current| == nMax || (Finished(s.cs[k].r) && s.cs[k].current != []))
      && s' == s.(cs := s.cs[k := s.cs[k].(current := [])], main := Receive(s.main, k, Boards(s.cs[k].current)))
    case Finish(k) =>
      && k < 2 && HasRoom(s.main, capacity) && Finished(s.cs[k].r) && s.cs[k].current == [] && !s.cs[k].ended
      && s' == s.(cs := s.cs[k := s.cs[k].(ended := true)], main := Receive(s.main, k, End))
    case Main(read) => s' == s.(main := s'.main) && ReadStep(s.main, s'.main, read)
  }

  // ------------------------------------------------------------- invariant

  /** A reader has received from each worker what that worker no longer holds. */
  ghost predicate FedBy(r: Reader, todo: seq<seq<Letter>>, letters: seq<seq<Letter>>, side: nat)
  {
    && |r.sent| == |todo| == |letters|
    && forall i :: 0 <= i < |letters| ==> Linked(r.sent[i], todo[i], letters[i], side)
  }

  /** What a collector has put into its table is sent or waits in the batch. */
  ghost predicate OutOk(c: Collector, out: seq<Message>, nMax: nat)
  {
    && |c.current| <= nMax
    && (forall x :: x in c.r.table <==> InScript(out, x) || x in c.current)
    && (forall j :: 0 <= j < |out| && out[j].Boards? ==> 0 < |out[j].list| <= nMax)
    && (c.ended <==> Closed(out))
    && (c.ended ==> c.current == [] && Finished(c.r))
  }

  ghost predicate SidesOk(todo: seq<seq<Letter>>)
  {
    forall i, k :: 0 <= i < |todo| && 0 <= k < |todo[i]| ==> todo[i][k].side < 2
  }

  ghost predicate Shaped(s: State) { |s.cs| == 2 && |s.main.sent| == 2 }

  ghost predicate CollectorOk(c: Collector, todo: seq<seq<Letter>>, letters: seq<seq<Letter>>, out: seq<Message>,
                              nMax: nat, side: nat)
  {
    ReaderOk(c.r) && FedBy(c.r, todo, letters, side) && OutOk(c, out, nMax)
  }

  ghost predicate Inv(letters: seq<seq<Letter>>, nMax: nat, s: State)
  {
    && Shaped(s) && SidesOk(s.todo) && ReaderOk(s.main)
    && CollectorOk(s.cs[0], s.todo, letters, s.main.sent[0], nMax, 0)
    && CollectorOk(s.cs[1], s.todo, letters, s.main.sent[1], nMax, 1)
  }

  lemma InitInv(c: QueensShared.Setup, letters: seq<seq<Letter>>, nMax: nat, s: State)
    requires Workers(c, 2, letters, nMax) && Init(letters, s)
    ensures Inv(letters, nMax, s)
  {
    StartOk(|letters|);
    StartOk(2);
    forall i, k | 0 <= i < |letters| && 0 <= k < |letters[i]| ensures letters[i][k].side < 2 {
      assert LettersOk(c, 2, c.jobs[i], letters[i], nMax);
    }
    forall i, side: nat | 0 <= i < |letters| ensures Linked([], letters[i], letters[i], side) {
    }
  }

  // ------------------------------------------------------------- steps

  lemma FedOther(r: Reader, todo: seq<seq<Letter>>, letters: seq<seq<Letter>>, side: nat, i: nat)
    requires FedBy(r, todo, letters, side) && i < |todo| && todo[i] != []
    ensures var l := todo[i][0];
      FedBy(if l.side == side then Receive(r, i, l.msg) else r, todo[i := todo[i][1..]], letters, side)
  {
    hide Linked;
    LinkedSend(r.sent[i], todo[i], letters[i], side);
  }

  lemma WorkerOpen(c: QueensShared.Setup, letters: seq<seq<Letter>>, nMax: nat, s: State, i: nat)
    requires Workers(c, 2, letters, nMax) && Inv(letters, nMax, s) && i < |s.todo| && s.todo[i] != []
    ensures s.todo[i][0].side < 2
    ensures var r := s.cs[s.todo[i][0].side].r; i < |r.sent| && !Closed(r.sent[i])
  {
    hide ReaderOk, OutOk, On, Script;
    var l := s.todo[i][0];
    assert l.side == 0 || l.side == 1;
    assert FedBy(s.cs[l.side].r, s.todo, letters, l.side);
    assert LettersOk(c, 2, c.jobs[i], letters[i], nMax);
    NotClosed(s.cs[l.side].r.sent[i], s.todo[i], letters[i], l.side, nMax);
    OnHead(s.todo[i]);
  }

  lemma WorkInv(c: QueensShared.Setup, letters: seq<seq<Letter>>, nMax: nat, capacity: nat, s: State, s': State, i: nat)
    requires Workers(c, 2, letters, nMax) && Inv(letters, nMax, s) && Step(nMax, capacity, s, s', Send(i))
    ensures Inv(letters, nMax, s')
  {
    hide ReaderOk, CollectorOk, Workers, Receive, SidesOk, Closed, HasRoom;
    WorkerOpen(c, letters, nMax, s, i);
    SendSide(s.cs[0], s.todo, letters, s.main.sent[0], nMax, 0, i);
    SendSide(s.cs[1], s.todo, letters, s.main.sent[1], nMax, 1, i);
    SendSides(s.todo, i);
    var l := s.todo[i][0];
    assert s'.todo == s.todo[i := s.todo[i][1..]] && s'.main == s.main;
    if l.side == 0 {
      assert s'.cs[0] == s.cs[0].(r := Receive(s.cs[0].r, i, l.msg)) && s'.cs[1] == s.cs[1];
    } else {
      assert s'.cs[1] == s.cs[1].(r := Receive(s.cs[1].r, i, l.msg)) && s'.cs[0] == s.cs[0];
    }
  }

  lemma SendSides(todo: seq<seq<Letter>>, i: nat)
    requires SidesOk(todo) && i < |todo| && todo[i] != []
    ensures SidesOk(todo[i := todo[i][1..]])
  {
  }

  /** What a letter does to one of the collectors. */
  lemma SendSide(c: Collector, todo: seq<seq<Letter>>, letters: seq<seq<Letter>>, out: seq<Message>, nMax: nat,
                 side: nat, i: nat)
    requires CollectorOk(c, todo, letters, out, nMax, side)
    requires i < |todo| && todo[i] != [] && (todo[i][0].side == side ==> !Closed(c.r.sent[i]))
    ensures var l := todo[i][0];
      var c' := if l.side == side then c.(r := Receive(c.r, i, l.msg)) else c;
      CollectorOk(c', todo[i := todo[i][1..]], letters, out, nMax, side)
  {
    hide ReaderOk, OutOk, Receive;
    assert |c.r.sent| == |todo|;
    FedOther(c.r, todo, letters, side, i);
    hide FedBy;
    if todo[i][0].side == side {
      var c' := c.(r := Receive(c.r, i, todo[i][0].msg));
      ReceiveOk(c.r, i, todo[i][0].msg);
      OpenOut(c, out, nMax, i);
      OutSame(c, c', out, nMax, i, todo[i][0].msg);
    }
  }

  /** A collector that has finished has seen the End of every worker. */
  lemma OpenOut(c: Collector, out: seq<Message>, nMax: nat, i: nat)
    requires ReaderOk(c.r) && OutOk(c, out, nMax) && i < |c.r.sent| && !Closed(c.r.sent[i])
    ensures !c.ended
  {
    hide ReaderOk, Closed;
    if Finished(c.r) { FinishedTable(c.r); }
  }

  lemma OutSame(c: Collector, c': Collector, out: seq<Message>, nMax: nat, i: nat, m: Message)
    requires OutOk(c, out, nMax) && !c.ended && i < |c.r.sent| && c' == c.(r := Receive(c.r, i, m))
    ensures OutOk(c', out, nMax)
  {
  }

  lemma OutLook(c: Collector, c': Collector, out: seq<Message>, nMax: nat, read: Read)
    requires OutOk(c, out, nMax) && |c.current| < nMax && ReadStep(c.r, c'.r, read)
    requires c' == c.(r := c'.r, current := Batch(c, read))
    requires Finished(c.r) ==> c.r.box == {}
    ensures OutOk(c', out, nMax)
  {
    hide InScript, Closed;
  }

  lemma OutForward(c: Collector, out: seq<Message>, nMax: nat)
    requires OutOk(c, out, nMax) && c.current != []
    ensures OutOk(c.(current := []), out + [Boards(c.current)], nMax) && !Closed(out)
  {
    forall x ensures InScript(out + [Boards(c.current)], x) <==> InScript(out, x) || x in c.current {
      InScriptMore(out, Boards(c.current), x);
    }
    hide InScript;
  }

  lemma OutFinish(c: Collector, out: seq<Message>, nMax: nat)
    requires OutOk(c, out, nMax) && Finished(c.r) && c.current == [] && !c.ended
    ensures OutOk(c.(ended := true), out + [End], nMax) && !Closed(out)
  {
    forall x ensures InScript(out + [End], x) <==> InScript(out, x) { InScriptMore(out, End, x); }
    hide InScript;
  }

  lemma ReadsInv(letters: seq<seq<Letter>>, nMax: nat, capacity: nat, s: State, s': State, k: nat, read: Read)
    requires Inv(letters, nMax, s) && Step(nMax, capacity, s, s', Reads(k, read))
    ensures Inv(letters, nMax, s')
  {
    hide ReaderOk, OutOk, Linked, ReadStep, Batch, Finished;
    ReadOk(s.cs[k].r, s'.cs[k].r, read);
    BoxWhenFinished(s.cs[k].r);
    OutLook(s.cs[k], s'.cs[k], s.main.sent[k], nMax, read);
  }

  lemma BoxWhenFinished(r: Reader)
    requires ReaderOk(r)
    ensures Finished(r) ==> r.box == {}
  {
    if Finished(r) { NothingLeft(r); }
  }

  lemma ForwardInv(letters: seq<seq<Letter>>, nMax: nat, capacity: nat, s: State, s': State, a: Action)
    requires Inv(letters, nMax, s) && Step(nMax, capacity, s, s', a) && (a.Forward? || a.Finish?) && nMax > 0
    ensures Inv(letters, nMax, s')
  {
    hide ReaderOk, OutOk, Linked, Finished;
    var k := a.k;
    var msg := if a.Forward? then Boards(s.cs[k].current) else End;
    if a.Forward? { OutForward(s.cs[k], s.main.sent[k], nMax); } else { OutFinish(s.cs[k], s.main.sent[k], nMax); }
    ReceiveOk(s.main, k, msg);
  }

  lemma StepInv(c: QueensShared.Setup, letters: seq<seq<Letter>>, nMax: nat, capacity: nat,
                     s: State, s': State, a: Action)
    requires Workers(c, 2, letters, nMax) && nMax > 0 && Inv(letters, nMax, s) && Step(nMax, capacity, s, s', a)
    ensures Inv(letters, nMax, s')
  {
    match a
    case Send(i) => WorkInv(c, letters, nMax, capacity, s, s', i);
    case Reads(k, read) => ReadsInv(letters, nMax, capacity, s, s', k, read);
    case Forward(_) => ForwardInv(letters, nMax, capacity, s, s', a);
    case Finish(_) => ForwardInv(letters, nMax, capacity, s, s', a);
    case Main(read) =>
      hide ReaderOk, ReadStep, OutOk, FedBy;
      ReadOk(s.main, s'.main, read);
  }

  // ----------------------------------------------------------- whole runs

  ghost predicate Next(nMax: nat, capacity: nat, s: State, s': State)
  {
    Shaped(s) && exists a :: Step(nMax, capacity, s, s', a)
  }

  ghost predicate Stuck(nMax: nat, capacity: nat, s: State) { forall s' :: !Next(nMax, capacity, s, s') }

  ghost predicate IsRun(letters: seq<seq<Letter>>, nMax: nat, capacity: nat, run: seq<State>)
  {
    && |run| > 0 && Init(letters, run[0])
    && forall k :: 0 <= k < |run| - 1 ==> Next(nMax, capacity, run[k], run[k+1])
  }

  lemma {:induction false} RunInv(c: QueensShared.Setup, letters: seq<seq<Letter>>, nMax: nat, capacity: nat,
                                       run: seq<State>)
    requires Workers(c, 2, letters, nMax) && nMax > 0 && IsRun(letters, nMax, capacity, run)
    ensures Inv(letters, nMax, run[|run|-1])
  {
    hide Inv, Init, Step, Workers;
    if |run| == 1 {
      InitInv(c, letters, nMax, run[0]);
    } else {
      var k := |run| - 2;
      RunInv(c, letters, nMax, capacity, run[..k+1]);
      assert Next(nMax, capacity, run[k], run[k+1]);
      var a :| Step(nMax, capacity, run[k], run[k+1], a);
      StepInv(c, letters, nMax, capacity, run[k], run[k+1], a);
    }
  }

  /** Everybody is done. */
  ghost predicate AllDone(s: State)
  {
    && Finished(s.main) && (forall k :: 0 <= k < |s.cs| ==> s.cs[k].ended)
    && forall i :: 0 <= i < |s.todo| ==> s.todo[i] == []
  }

  /** A finished collector has received everything that its side gets. */
  lemma CollectorFed(c: QueensShared.Setup, letters: seq<seq<Letter>>, nMax: nat, r: Reader,
                     todo: seq<seq<Letter>>, side: nat)
    requires Workers(c, 2, letters, nMax) && ReaderOk(r) && FedBy(r, todo, letters, side) && Finished(r) && side < 2
    ensures forall i :: 0 <= i < |letters| ==> r.sent[i] == On(letters[i], side) && On(todo[i], side) == []
  {
    hide ReaderOk, Script, On;
    FinishedTable(r);
    forall i | 0 <= i < |letters| ensures r.sent[i] == On(letters[i], side) && On(todo[i], side) == [] {
      assert LettersOk(c, 2, c.jobs[i], letters[i], nMax) && Linked(r.sent[i], todo[i], letters[i], side);
      NotClosed(r.sent[i], todo[i], letters[i], side, nMax);
    }
  }

  /** The table of a finished collector: the boards of its side. */
  lemma CollectorTable(c: QueensShared.Setup, letters: seq<seq<Letter>>, nMax: nat, r: Reader,
                       todo: seq<seq<Letter>>, side: nat, x: Board)
    requires Workers(c, 2, letters, nMax) && ReaderOk(r) && FedBy(r, todo, letters, side) && Finished(r) && side < 2
    ensures x in r.table <==> FromJobs(c.jobs, x) && QueensShared.Side(c, x) == side
  {
    hide Workers, On, InScript, ReaderOk, FromJobs, Linked, Finished;
    CollectorFed(c, letters, nMax, r, todo, side);
    FinishedTable(r);
    SentIsJobs(c, 2, side, letters, nMax, x);
    assert (exists i :: 0 <= i < |letters| && InScript(On(letters[i], side), x)) <==>
      exists i :: 0 <= i < |r.sent| && InScript(r.sent[i], x);
  }

  /** When the master has finished, so has everybody. */
  lemma MainLast(c: QueensShared.Setup, letters: seq<seq<Letter>>, nMax: nat, s: State)
    requires Workers(c, 2, letters, nMax) && Inv(letters, nMax, s) && Finished(s.main)
    ensures AllDone(s)
  {
    hide ReaderOk, CollectorOk, Workers, Finished, SidesOk;
    CollectorsEnded(letters, nMax, s);
    SideEmpty(c, letters, nMax, s.cs[0], s.todo, s.main.sent[0], 0);
    SideEmpty(c, letters, nMax, s.cs[1], s.todo, s.main.sent[1], 1);
    NothingToSend(s.todo);
  }

  lemma CollectorsEnded(letters: seq<seq<Letter>>, nMax: nat, s: State)
    requires Inv(letters, nMax, s) && Finished(s.main)
    ensures s.cs[0].ended && Finished(s.cs[0].r) && s.cs[1].ended && Finished(s.cs[1].r)
  {
    hide ReaderOk, FedBy, Finished, Closed, InScript, SidesOk;
    FinishedTable(s.main);
    assert Closed(s.main.sent[0]) && Closed(s.main.sent[1]);
  }

  lemma SideEmpty(c: QueensShared.Setup, letters: seq<seq<Letter>>, nMax: nat, cl: Collector,
                  todo: seq<seq<Letter>>, out: seq<Message>, side: nat)
    requires Workers(c, 2, letters, nMax) && CollectorOk(cl, todo, letters, out, nMax, side)
    requires Finished(cl.r) && side < 2
    ensures forall i :: 0 <= i < |todo| ==> On(todo[i], side) == []
  {
    hide ReaderOk, OutOk, Workers, Finished, Linked;
    CollectorFed(c, letters, nMax, cl.r, todo, side);
  }

  lemma NothingToSend(todo: seq<seq<Letter>>)
    requires SidesOk(todo)
    requires forall i :: 0 <= i < |todo| ==> On(todo[i], 0) == []
    requires forall i :: 0 <= i < |todo| ==> On(todo[i], 1) == []
    ensures forall i :: 0 <= i < |todo| ==> todo[i] == []
  {
    forall i | 0 <= i < |todo| ensures todo[i] == [] { HeadSide(todo[i]); }
  }

  lemma HeadSide(letters: seq<Letter>)
    requires forall k :: 0 <= k < |letters| ==> letters[k].side < 2
    ensures On(letters, 0) == [] && On(letters, 1) == [] ==> letters == []
  {
    if letters != [] { OnHead(letters); }
  }

  /** Main result on `Message_passing_2`: in every interleaving the master collector
      prints the number of classes. */
  lemma PipelineCount(n: nat, letters: seq<seq<Letter>>, nMax: nat, capacity: nat, run: seq<State>)
    requires Workers(QueensShared.Setup(WorkerJobs(n), true, n), 2, letters, nMax) && nMax > 0
    requires IsRun(letters, nMax, capacity, run) && Finished(run[|run|-1].main)
    ensures |run[|run|-1].main.table| == NumberOfClasses(n)
  {
    hide Workers, Init, FromJobs, WorkerJobs, Step;
    var c, s := QueensShared.Setup(WorkerJobs(n), true, n), run[|run|-1];
    RunInv(c, letters, nMax, capacity, run);
    MainLast(c, letters, nMax, s);
    FinishedTable(s.main);
    forall x ensures x in s.main.table <==> FromJobs(WorkerJobs(n), x) {
      MainTable(c, letters, nMax, s, x);
    }
    CountedAll(n, s.main.table);
  }

  lemma MainTable(c: QueensShared.Setup, letters: seq<seq<Letter>>, nMax: nat, s: State, x: Board)
    requires Workers(c, 2, letters, nMax) && Inv(letters, nMax, s) && Finished(s.main) && AllDone(s)
    ensures x in s.main.table <==> FromJobs(c.jobs, x)
  {
    hide ReaderOk, Workers, FromJobs, FedBy, Finished, Closed;
    FinishedTable(s.main);
    CollectorTable(c, letters, nMax, s.cs[0].r, s.todo, 0, x);
    CollectorTable(c, letters, nMax, s.cs[1].r, s.todo, 1, x);
    assert x in s.cs[0].r.table <==> InScript(s.main.sent[0], x);
    assert x in s.cs[1].r.table <==> InScript(s.main.sent[1], x);
  }

  /** The second collector never receives a board, for boards of size two or more. */
  lemma SecondCollectorEmpty(n: nat, letters: seq<seq<Letter>>, nMax: nat, capacity: nat, run: seq<State>)
    requires n >= 2 && Workers(QueensShared.Setup(WorkerJobs(n), true, n), 2, letters, nMax) && nMax > 0
    requires IsRun(letters, nMax, capacity, run) && Finished(run[|run|-1].main)
    ensures |run[|run|-1].cs| == 2 && run[|run|-1].cs[1].r.table == []
  {
    hide Workers, Init, FromJobs, WorkerJobs, Step, ReaderOk, FedBy, SidesOk, Finished;
    var c, s := QueensShared.Setup(WorkerJobs(n), true, n), run[|run|-1];
    RunInv(c, letters, nMax, capacity, run);
    CollectorsEnded(letters, nMax, s);
    var table := s.cs[1].r.table;
    forall x ensures x !in table {
      CollectorTable(c, letters, nMax, s.cs[1].r, s.todo, 1, x);
      if FromJobs(c.jobs, x) { QueensShared.NoSecondSide(n, true, x); }
    }
    Sequences.HasElement(table);
  }

  // ------------------------------------------------------------- progress

  /** A collector with something to do can do it when the master's box has room. */
  lemma CollectorProgress(nMax: nat, capacity: nat, s: State, k: nat) returns (a: Action, s': State)
    requires Shaped(s) && k < 2 && HasRoom(s.main, capacity) && nMax > 0
    requires ReaderOk(s.cs[k].r) && |s.cs[k].current| <= nMax && !s.cs[k].ended
    requires s.cs[k].r.at.At? || s.cs[k].r.batch != {} || s.cs[k].r.box != {} || s.cs[k].r.w <= 0
    ensures Step(nMax, capacity, s, s', a)
  {
    hide ReaderOk, ReadStep, Receive, HasRoom;
    var c := s.cs[k];
    if |c.current| == nMax || (Finished(c.r) && c.current != []) {
      a := Forward(k);
      s' := s.(cs := s.cs[k := c.(current := [])], main := Receive(s.main, k, Boards(c.current)));
    } else if c.r.at.At? || c.r.batch != {} || c.r.box != {} {
      var read, r' := ReaderProgress(c.r);
      a := Reads(k, read);
      s' := s.(cs := s.cs[k := c.(r := r', current := Batch(c, read))]);
    } else {
      a := Finish(k);
      s' := s.(cs := s.cs[k := c.(ended := true)], main := Receive(s.main, k, End));
    }
  }

  /** A worker that is not done can send, or the collector it sends to can go on. */
  lemma WorkerProgress(c: QueensShared.Setup, letters: seq<seq<Letter>>, nMax: nat, capacity: nat, s: State, i: nat)
    returns (a: Action, s': State)
    requires Workers(c, 2, letters, nMax) && nMax > 0 && Inv(letters, nMax, s)
    requires i < |s.todo| && s.todo[i] != [] && HasRoom(s.main, capacity) && capacity > 0
    ensures Step(nMax, capacity, s, s', a)
  {
    WorkerOpen(c, letters, nMax, s, i);
    var l := s.todo[i][0];
    var r := s.cs[l.side].r;
    if HasRoom(r, capacity) {
      a := Send(i);
      s' := s.(todo := s.todo[i := s.todo[i][1..]], cs := s.cs[l.side := s.cs[l.side].(r := Receive(r, i, l.msg))]);
    } else {
      OpenOut(s.cs[l.side], s.main.sent[l.side], nMax, i);
      assert r.box != {} || r.batch != {};
      hide *;
      a, s' := CollectorProgress(nMax, capacity, s, l.side);
    }
  }

  /** No deadlock: as long as anybody is not done, somebody can go on. */
  lemma Progress(c: QueensShared.Setup, letters: seq<seq<Letter>>, nMax: nat, capacity: nat, s: State)
    returns (a: Action, s': State)
    requires Workers(c, 2, letters, nMax) && nMax > 0 && capacity > 0
    requires Inv(letters, nMax, s) && !AllDone(s)
    ensures Step(nMax, capacity, s, s', a)
  {
    hide ReaderOk, Workers, ReadStep, FedBy, AllDone;
    var r := s.main;
    if r.at.At? || r.batch != {} || r.box != {} {
      var read, r' := ReaderProgress(r);
      a, s' := Main(read), s.(main := r');
    } else {
      if r.w <= 0 { MainLast(c, letters, nMax, s); }
      var k := OpenSender(r);
      var cr := s.cs[k].r;
      if cr.at.At? || cr.batch != {} || cr.box != {} || cr.w <= 0 {
        a, s' := CollectorProgress(nMax, capacity, s, k);
      } else {
        var i := OpenSender(cr);
        StillToSend(c, letters, nMax, s, k, i);
        a, s' := WorkerProgress(c, letters, nMax, capacity, s, i);
      }
    }
  }

  lemma StillToSend(c: QueensShared.Setup, letters: seq<seq<Letter>>, nMax: nat, s: State, k: nat, i: nat)
    requires Workers(c, 2, letters, nMax) && Inv(letters, nMax, s)
    requires k < 2 && i < |s.cs[k].r.sent| && !Closed(s.cs[k].r.sent[i])
    ensures i < |s.todo| && s.todo[i] != []
  {
    hide ReaderOk, OutOk, Script;
    assert k == 0 || k == 1;
    assert FedBy(s.cs[k].r, s.todo, letters, k);
    assert LettersOk(c, 2, c.jobs[i], letters[i], nMax);
    NotClosed(s.cs[k].r.sent[i], s.todo[i], letters[i], k, nMax);
  }

  // ------------------------------------------------------------ termination

  ghost function Left(c: Collector): int { Work(c.r, 6) + 5 * |c.current| + if c.ended then 0 else 4 }

  ghost function Rank(s: State): int
    requires Shaped(s)
  {
    Total(s.todo) + Left(s.cs[0]) + Left(s.cs[1]) + Work(s.main, 1)
  }

  lemma RankDecreases(letters: seq<seq<Letter>>, nMax: nat, capacity: nat, s: State, s': State, a: Action)
    requires nMax > 0 && Inv(letters, nMax, s) && Step(nMax, capacity, s, s', a)
    ensures Shaped(s') && Rank(s') < Rank(s)
  {
    hide Work, Receive, ReadStep, OrderOk, EndsLast, CountOk, TableOk, ItemsOk, OutOk, FedBy, Finished;
    match a
    case Send(i) =>
      TotalSend(s.todo, i);
      ReceiveWork(s.cs[s.todo[i][0].side].r, i, s.todo[i][0].msg, 6);
      ReceiveSize(s.cs[s.todo[i][0].side].r, i, s.todo[i][0].msg);
    case Reads(k, read) => ReadWork(s.cs[k].r, s'.cs[k].r, read, 6);
    case Forward(k) =>
      ReceiveWork(s.main, k, Boards(s.cs[k].current), 1);
      ReceiveSize(s.main, k, Boards(s.cs[k].current));
    case Finish(k) =>
      ReceiveWork(s.main, k, End, 1);
      ReceiveSize(s.main, k, End);
    case Main(read) =>
      ReadWork(s.main, s'.main, read, 1);
      ReadSize(s.main, s'.main, read);
  }

  lemma ReceiveSize(r: Reader, i: nat, m: Message)
    requires i < |r.sent|
    ensures |Receive(r, i, m).sent| == |r.sent|
  {
  }

  lemma ReadSize(r: Reader, r': Reader, read: Read)
    requires ReadStep(r, r', read)
    ensures r'.sent == r.sent
  {
  }

  lemma InitShaped(letters: seq<seq<Letter>>, s: State)
    requires Init(letters, s)
    ensures Shaped(s)
  {
  }

  lemma {:induction false} RunBounded(c: QueensShared.Setup, letters: seq<seq<Letter>>, nMax: nat, capacity: nat,
                                        run: seq<State>)
    requires Workers(c, 2, letters, nMax) && nMax > 0 && IsRun(letters, nMax, capacity, run)
    ensures Shaped(run[0]) && Shaped(run[|run|-1])
    ensures Rank(run[|run|-1]) + |run| - 1 <= Rank(run[0])
  {
    InitShaped(letters, run[0]);
    hide Inv, Step, Rank, Workers, Init;
    if |run| > 1 {
      var k := |run| - 2;
      RunBounded(c, letters, nMax, capacity, run[..k+1]);
      RunInv(c, letters, nMax, capacity, run[..k+1]);
      assert Next(nMax, capacity, run[k], run[k+1]);
      var a :| Step(nMax, capacity, run[k], run[k+1], a);
      RankDecreases(letters, nMax, capacity, run[k], run[k+1], a);
    }
  }

  /** Every run is finite, and where it cannot go on, everybody is done. */
  lemma PipelineEnds(c: QueensShared.Setup, letters: seq<seq<Letter>>, nMax: nat, capacity: nat, run: seq<State>)
    requires Workers(c, 2, letters, nMax) && nMax > 0 && IsRun(letters, nMax, capacity, run) && capacity > 0
    ensures Shaped(run[0]) && |run| <= Rank(run[0]) + 1
    ensures Stuck(nMax, capacity, run[|run|-1]) ==> AllDone(run[|run|-1])
  {
    hide Step, Workers, Init, Work, OrderOk, EndsLast, CountOk, TableOk, ItemsOk, AllDone, OutOk, FedBy;
    var s := run[|run|-1];
    RunInv(c, letters, nMax, capacity, run);
    RunBounded(c, letters, nMax, capacity, run);
    WorkNatural(s.cs[0].r, 6);
    WorkNatural(s.cs[1].r, 6);
    WorkNatural(s.main, 1);
    if !AllDone(s) {
      var a, s' := Progress(c, letters, nMax, capacity, s);
      assert Next(nMax, capacity, s, s');
    }
  }

  ghost predicate AllFit(s: State, capacity: nat)
  {
    |s.cs| == 2 && Fits(s.cs[0].r, capacity) && Fits(s.cs[1].r, capacity) && Fits(s.main, capacity)
  }

  lemma StepFits(nMax: nat, capacity: nat, s: State, s': State, a: Action)
    requires Shaped(s) && AllFit(s, capacity) && Step(nMax, capacity, s, s', a)
    ensures AllFit(s', capacity)
  {
    hide ReadStep, Receive, Fits;
    match a
    case Send(i) =>
      var l := s.todo[i][0];
      ReceiveFits(s.cs[l.side].r, i, l.msg, capacity);
    case Reads(k, read) => ReadFits(s.cs[k].r, s'.cs[k].r, read, capacity);
    case Forward(k) => ReceiveFits(s.main, k, Boards(s.cs[k].current), capacity);
    case Finish(k) => ReceiveFits(s.main, k, End, capacity);
    case Main(read) => ReadFits(s.main, s'.main, read, capacity);
  }

  /** In every run none of the three camlboxes has more messages than slots. */
  lemma {:induction false} BoxesFit(letters: seq<seq<Letter>>, nMax: nat, capacity: nat, run: seq<State>, k: nat)
    requires IsRun(letters, nMax, capacity, run) && k < |run|
    ensures var s := run[k];
      && |s.cs| == 2 && |s.main.box| + |s.main.batch| <= capacity
      && forall j :: 0 <= j < 2 ==> |s.cs[j].r.box| + |s.cs[j].r.batch| <= capacity
  {
    hide Step;
    if k > 0 {
      BoxesFit(letters, nMax, capacity, run, k - 1);
      assert Next(nMax, capacity, run[k-1], run[k-1+1]);
      var a :| Step(nMax, capacity, run[k-1], run[k], a);
      assert AllFit(run[k-1], capacity);
      StepFits(nMax, capacity, run[k-1], run[k], a);
    }
  }
}
