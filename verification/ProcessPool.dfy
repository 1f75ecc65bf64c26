/** The process pool of OBSOLETE/netcgi1/netcgi_jserv_app.ml with the worker loop of
    OBSOLETE/netcgi1/netcgi_jserv.ml.  Workers take turns in waiting for a connection
    (byte 0 of the message board is the lock), look at the mode in byte 1 before they
    accept, and talk to the master over the control pipe.
 */
module ProcessPool {

  /** Where a worker stands.  From `Selecting` to `Raised` it holds the lock. */
  datatype Phase =
    | NotForked
    | WantLock                 // lockf on byte 0
    | Selecting                // before select, with a timeout
    | Selected(ready: bool)    // select returned, byte 1 not read yet
    | Accepting                // byte 1 was 'n', a connection is there
    | Accepted                 // the connection is taken
    | Raised                   // byte 1 was 's': Signal_shutdown
    | Handling                 // onconnect runs
    | Closing                  // left the loop, the pipe is still open
    | Dead                     // pipe closed, process gone

  datatype Message = Shutdown | Restart

  /** The master forks, then closes its own write end and reads until EOF. */
  datatype Master = Forking(k: nat) | Waiting | Left

  /** `stopping`: byte 1 is 's'.  `late` counts connections accepted since then. */
  datatype State = State(workers: seq<Phase>, lock: int, stopping: bool,
                         pipe: seq<Message>, master: Master, late: nat)

  datatype Action =
    | Fork | CloseOwnEnd | ReadPipe | SeeEof
    | Lock(i: nat) | Select(i: nat, ready: bool) | ReadMode(i: nat) | Accept(i: nat) | Unlock(i: nat)
    | Handle(i: nat, notify: seq<Message>) | ClosePipe(i: nat) | Die(i: nat)

  predicate Inside(p: Phase) { p.Selecting? || p.Selected? || p.Accepting? || p.Accepted? || p.Raised? }

  predicate HasPipe(p: Phase) { !p.NotForked? && !p.Dead? }

  ghost predicate Init(s: State)
  {
    s == State(seq(|s.workers|, _ => NotForked), -1, false, [], Forking(0), 0)
  }

  ghost predicate At(s: State, i: nat, p: Phase) { i < |s.workers| && s.workers[i] == p }

  ghost function Put(s: State, i: nat, p: Phase): State
    requires i < |s.workers|
  {
    s.(workers := s.workers[i := p])
  }

  ghost predicate Step(s: State, s': State, a: Action)
  {
    match a
    case Fork =>
      && s.master.Forking? && At(s, s.master.k, NotForked)
      && s' == Put(s, s.master.k, WantLock).(master := Forking(s.master.k + 1))
    case CloseOwnEnd =>
      s.master == Forking(|s.workers|) && s' == s.(master := Waiting)
    case ReadPipe =>
      && s.master.Waiting? && s.pipe != []
      && s' == s.(pipe := s.pipe[1..], stopping := s.stopping || s.pipe[0].Shutdown?)
    case SeeEof =>
      && s.master.Waiting? && s.pipe == []
      && (forall i :: 0 <= i < |s.workers| ==> !HasPipe(s.workers[i]))
      && s' == s.(master := Left)
    case Lock(i) =>
      At(s, i, WantLock) && s.lock == -1 && s' == Put(s, i, Selecting).(lock := i)
    case Select(i, ready) =>
      At(s, i, Selecting) && s' == Put(s, i, Selected(ready))
    case ReadMode(i) =>
      && i < |s.workers| && s.workers[i].Selected?
      && s' == Put(s, i, if s.stopping then Raised else if s.workers[i].ready then Accepting else Selecting)
    case Accept(i) =>
      At(s, i, Accepting) && s' == Put(s, i, Accepted).(late := if s.stopping then s.late + 1 else s.late)
    case Unlock(i) =>
      && (At(s, i, Accepted) || At(s, i, Raised))
      && s' == Put(s, i, if s.workers[i].Accepted? then Handling else Closing).(lock := -1)
    case Handle(i, notify) =>
      At(s, i, Handling) && |notify| <= 1 && s' == Put(s, i, WantLock).(pipe := s.pipe + notify)
    case ClosePipe(i) =>
      At(s, i, Closing) && s' == Put(s, i, Dead)
    case Die(i) =>
      // an exception ends the process; the kernel drops its lock and descriptors
      && i < |s.workers| && HasPipe(s.workers[i])
      && s' == Put(s, i, Dead).(lock := if s.lock == i then -1 else s.lock)
  }

  // ------------------------------------------------------------ invariant

  /** The lock belongs to exactly the worker that is inside. */
  ghost predicate LockOk(s: State)
  {
    && (s.lock == -1 || (0 <= s.lock < |s.workers| && Inside(s.workers[s.lock])))
    && forall i :: 0 <= i < |s.workers| && Inside(s.workers[i]) ==> s.lock == i
  }

  ghost predicate MasterOk(s: State)
  {
    match s.master
    case Forking(k) =>
      && k <= |s.workers| && !s.stopping
      && forall i :: 0 <= i < |s.workers| ==> (s.workers[i].NotForked? <==> i >= k)
    case Waiting =>
      forall i :: 0 <= i < |s.workers| ==> !s.workers[i].NotForked?
    case Left =>
      s.pipe == [] && forall i :: 0 <= i < |s.workers| ==> s.workers[i].Dead?
  }

  /** At most one worker read 'n' before the master wrote 's' and has not accepted. */
  ghost predicate LateOk(s: State)
  {
    && (!s.stopping ==> s.late == 0)
    && s.late <= 1
    && (s.late == 1 ==> forall i :: 0 <= i < |s.workers| ==> !s.workers[i].Accepting?)
  }

  ghost predicate Inv(s: State) { LockOk(s) && MasterOk(s) && LateOk(s) }

  lemma InitInv(s: State)
    requires Init(s)
    ensures Inv(s)
  {
  }

  lemma StepLock(s: State, s': State, a: Action)
    requires LockOk(s) && MasterOk(s) && Step(s, s', a)
    ensures LockOk(s')
  {
  }

  lemma StepMaster(s: State, s': State, a: Action)
    requires MasterOk(s) && Step(s, s', a)
    ensures MasterOk(s')
  {
  }

  lemma StepLate(s: State, s': State, a: Action)
    requires Inv(s) && Step(s, s', a)
    ensures LateOk(s')
  {
    hide MasterOk;
  }

  lemma StepInv(s: State, s': State, a: Action)
    requires Inv(s) && Step(s, s', a)
    ensures Inv(s')
  {
    hide Step;
    StepLock(s, s', a);
    StepMaster(s, s', a);
    StepLate(s, s', a);
  }

  // ----------------------------------------------------------- whole runs

  ghost predicate Next(s: State, s': State) { exists a :: Step(s, s', a) }

  ghost predicate Stuck(s: State) { forall s' :: !Next(s, s') }

  ghost predicate IsPath(run: seq<State>)
  {
    |run| > 0 && forall k :: 0 <= k < |run| - 1 ==> Next(run[k], run[k+1])
  }

  ghost predicate IsRun(run: seq<State>) { IsPath(run) && Init(run[0]) }

  lemma {:induction false} PathInv(run: seq<State>, k: nat)
    requires IsPath(run) && Inv(run[0]) && k < |run|
    ensures Inv(run[k])
  {
    hide Inv, Step;
    if k > 0 {
      PathInv(run, k - 1);
      assert Next(run[k-1], run[k-1+1]);
      var a :| Step(run[k-1], run[k], a);
      StepInv(run[k-1], run[k], a);
    }
  }

  /** Main result on safety, for any number of workers and every interleaving. */
  lemma PoolSafe(run: seq<State>, k: nat)
    requires IsRun(run) && k < |run|
    ensures var s := run[k];
      // only one worker at a time waits for connections
      && (forall i, j :: 0 <= i < |s.workers| && 0 <= j < |s.workers| && Inside(s.workers[i]) && Inside(s.workers[j])
            ==> i == j)
      // after 's' has been written at most one more connection is accepted
      && s.late <= 1
      // the master goes on only when all workers are gone and all messages are read
      && (s.master.Left? ==> s.pipe == [] && forall i :: 0 <= i < |s.workers| ==> s.workers[i].Dead?)
  {
    InitInv(run[0]);
    PathInv(run, k);
  }

  lemma Grow(run: seq<State>, s': State, a: Action) returns (run': seq<State>)
    requires IsRun(run) && Step(run[|run|-1], s', a)
    ensures IsRun(run') && run'[|run'|-1] == s'
  {
    hide Step, Init;
    run' := run + [s'];
    assert Next(run[|run|-1], s');
  }

  lemma TakeTurn(run: seq<State>, pipe: seq<Message>) returns (run': seq<State>)
    requires IsRun(run) && run[|run|-1] == State([WantLock], -1, false, pipe, Waiting, 0)
    ensures IsRun(run') && run'[|run'|-1] == State([Accepting], 0, false, pipe, Waiting, 0)
  {
    hide IsRun;
    var s := State([Selecting], 0, false, pipe, Waiting, 0);
    run' := Grow(run, s, Lock(0));
    s := s.(workers := [Selected(true)]);
    run' := Grow(run', s, Select(0, true));
    s := s.(workers := [Accepting]);
    run' := Grow(run', s, ReadMode(0));
  }

  lemma AskForShutdown() returns (run: seq<State>)
    ensures IsRun(run) && run[|run|-1] == State([WantLock], -1, false, [Shutdown], Waiting, 0)
  {
    var s := State([NotForked], -1, false, [], Forking(0), 0);
    run := [s];
    assert IsRun(run);
    hide IsRun;
    s := s.(workers := [WantLock], master := Forking(1));
    run := Grow(run, s, Fork);
    s := s.(master := Waiting);
    run := Grow(run, s, CloseOwnEnd);
    run := TakeTurn(run, []);
    run := ServeOne(run);
  }

  lemma ServeOne(start: seq<State>) returns (run: seq<State>)
    requires IsRun(start) && start[|start|-1] == State([Accepting], 0, false, [], Waiting, 0)
    ensures IsRun(run) && run[|run|-1] == State([WantLock], -1, false, [Shutdown], Waiting, 0)
  {
    hide IsRun;
    var s := State([Accepted], 0, false, [], Waiting, 0);
    run := Grow(start, s, Accept(0));
    s := s.(workers := [Handling], lock := -1);
    run := Grow(run, s, Unlock(0));
    s := s.(workers := [WantLock], pipe := [Shutdown]);
    run := Grow(run, s, Handle(0, [Shutdown]));
  }

  /** The bound is reached: a worker reports a shutdown request, locks again and
      reads 'n', and then the master writes 's'. */
  lemma LateConnection()
    ensures exists run: seq<State> :: IsRun(run) && run[|run|-1].late == 1
  {
    hide IsRun;
    var run := AskForShutdown();
    run := TakeTurn(run, [Shutdown]);
    var s := State([Accepting], 0, true, [], Waiting, 0);
    run := Grow(run, s, ReadPipe);
    s := s.(workers := [Accepted], late := 1);
    run := Grow(run, s, Accept(0));
  }

  ghost predicate SomeAccepting(s: State) { exists i :: 0 <= i < |s.workers| && s.workers[i].Accepting? }

  lemma NoLateStep(s: State, s': State, a: Action)
    requires s.stopping && !SomeAccepting(s) && Step(s, s', a)
    ensures s'.stopping && !SomeAccepting(s') && s'.late == s.late
  {
  }

  lemma {:induction false} NoLatePath(run: seq<State>, k: nat)
    requires IsPath(run) && run[0].stopping && !SomeAccepting(run[0]) && k < |run|
    ensures run[k].stopping && !SomeAccepting(run[k]) && run[k].late == run[0].late
  {
    hide Step, SomeAccepting;
    if k > 0 {
      NoLatePath(run, k - 1);
      assert Next(run[k-1], run[k-1+1]);
      var a :| Step(run[k-1], run[k], a);
      NoLateStep(run[k-1], run[k], a);
    }
  }

  ghost predicate LatePath(run: seq<State>, s: State)
  {
    IsPath(run) && run[0] == s && run[|run|-1].late > s.late
  }

  /** Once 's' is written, a further connection is possible exactly when a worker has
      already read 'n' and is about to accept. */
  lemma LateExactly(s: State)
    requires s.stopping
    ensures (exists run :: LatePath(run, s)) <==> SomeAccepting(s)
  {
    if SomeAccepting(s) {
      var i :| 0 <= i < |s.workers| && s.workers[i].Accepting?;
      var s' := Put(s, i, Accepted).(late := s.late + 1);
      assert Step(s, s', Accept(i));
      assert Next(s, s');
      assert LatePath([s, s'], s);
    } else {
      forall run: seq<State> | IsPath(run) && run[0] == s ensures run[|run|-1].late == s.late {
        NoLatePath(run, |run| - 1);
      }
    }
  }

  // -------------------------------------------------------------- shutdown

  function PhaseRank(p: Phase): nat
  {
    match p
    case Dead => 0
    case Closing => 2
    case Raised => 4
    case Selected(_) => 6
    case Selecting => 8
    case WantLock => 10
    case Handling => 12
    case Accepted => 14
    case Accepting => 16
    case NotForked => 18
  }

  function TotalRank(workers: seq<Phase>): nat
  {
    if workers == [] then 0 else PhaseRank(workers[0]) + TotalRank(workers[1..])
  }

  /** How much is left to do once the mode is 's'. */
  function Rank(s: State): nat
  {
    TotalRank(s.workers) + |s.pipe| +
    match s.master
    case Forking(k) => 2
    case Waiting => 1
    case Left => 0
  }

  lemma {:induction false} RankUpdate(workers: seq<Phase>, i: nat, p: Phase)
    requires i < |workers|
    ensures TotalRank(workers[i := p]) == TotalRank(workers) - PhaseRank(workers[i]) + PhaseRank(p)
  {
    if i == 0 {
      assert workers[i := p][1..] == workers[1..];
    } else {
      RankUpdate(workers[1..], i - 1, p);
      assert workers[i := p][1..] == workers[1..][i - 1 := p];
    }
  }

  /** Once 's' is set, it stays set and every step brings the pool closer to its end. */
  lemma RankDecreases(s: State, s': State, a: Action)
    requires Inv(s) && s.stopping && Step(s, s', a)
    ensures s'.stopping && Rank(s') < Rank(s)
  {
    hide LockOk, LateOk, TotalRank;
    match a
    case Lock(i) => RankUpdate(s.workers, i, s'.workers[i]);
    case Select(i, _) => RankUpdate(s.workers, i, s'.workers[i]);
    case ReadMode(i) => RankUpdate(s.workers, i, s'.workers[i]);
    case Accept(i) => RankUpdate(s.workers, i, s'.workers[i]);
    case Unlock(i) => RankUpdate(s.workers, i, s'.workers[i]);
    case Handle(i, _) => RankUpdate(s.workers, i, s'.workers[i]);
    case ClosePipe(i) => RankUpdate(s.workers, i, s'.workers[i]);
    case Die(i) =>
      RankUpdate(s.workers, i, s'.workers[i]);
      assert PhaseRank(s.workers[i]) > 0;
    case _ =>
  }

  /** Nothing blocks for ever: while the master has not left, some step is possible. */
  lemma PoolProgress(s: State) returns (a: Action, s': State)
    requires Inv(s) && !s.master.Left?
    ensures Step(s, s', a)
  {
    if s.master.Forking? {
      if s.master.k < |s.workers| {
        a, s' := Fork, Put(s, s.master.k, WantLock).(master := Forking(s.master.k + 1));
      } else {
        a, s' := CloseOwnEnd, s.(master := Waiting);
      }
    } else if s.pipe != [] {
      a, s' := ReadPipe, s.(pipe := s.pipe[1..], stopping := s.stopping || s.pipe[0].Shutdown?);
    } else if i :| 0 <= i < |s.workers| && HasPipe(s.workers[i]) {
      a, s' := WorkerProgress(s, if s.lock != -1 then s.lock else i);
    } else {
      a, s' := SeeEof, s.(master := Left);
    }
  }

  lemma WorkerProgress(s: State, i: nat) returns (a: Action, s': State)
    requires LockOk(s) && i < |s.workers| && HasPipe(s.workers[i]) && (s.workers[i].WantLock? ==> s.lock == -1)
    ensures Step(s, s', a)
  {
    match s.workers[i]
    case WantLock => a, s' := Lock(i), Put(s, i, Selecting).(lock := i);
    case Selecting => a, s' := Select(i, false), Put(s, i, Selected(false));
    case Selected(ready) =>
      a, s' := ReadMode(i), Put(s, i, if s.stopping then Raised else if ready then Accepting else Selecting);
    case Accepting => a, s' := Accept(i), Put(s, i, Accepted).(late := if s.stopping then s.late + 1 else s.late);
    case Accepted => a, s' := Unlock(i), Put(s, i, Handling).(lock := -1);
    case Raised => a, s' := Unlock(i), Put(s, i, Closing).(lock := -1);
    case Handling => a, s' := Handle(i, []), Put(s, i, WantLock).(pipe := s.pipe + []);
    case Closing => a, s' := ClosePipe(i), Put(s, i, Dead);
  }

  /** No path is longer than the rank of the state in which it starts. */
  lemma {:induction false} PathBounded(run: seq<State>, k: nat)
    requires IsPath(run) && Inv(run[0]) && run[0].stopping && k < |run|
    ensures run[k].stopping && Rank(run[k]) + k <= Rank(run[0])
  {
    hide Inv, Step, Rank;
    if k > 0 {
      PathBounded(run, k - 1);
      PathInv(run, k - 1);
      assert Next(run[k-1], run[k-1+1]);
      var a :| Step(run[k-1], run[k], a);
      RankDecreases(run[k-1], run[k], a);
    }
  }

  /** Main result on shutdown: after the first 's' every run is finite, and where it
      cannot go on all workers are gone and the master has left its loop. */
  lemma ShutdownCompletes(run: seq<State>)
    requires IsPath(run) && Inv(run[0]) && run[0].stopping
    ensures |run| <= Rank(run[0]) + 1
    ensures var s := run[|run|-1];
      Stuck(s) ==>
        s.master.Left? && s.pipe == [] && forall i :: 0 <= i < |s.workers| ==> s.workers[i].Dead?
  {
    hide Step;
    PathBounded(run, |run| - 1);
    PathInv(run, |run| - 1);
    var s := run[|run|-1];
    if !s.master.Left? {
      var a, s' := PoolProgress(s);
      assert Next(s, s');
    }
  }

  // ------------------------------------------------------ runs and actions

  /** A run together with its actions: `acts[k]` leads from `run[k]` to `run[k+1]`. */
  ghost predicate IsTrace(run: seq<State>, acts: seq<Action>)
  {
    && |run| == |acts| + 1 && Init(run[0])
    && forall k {:trigger acts[k]} :: 0 <= k < |acts| ==> Step(run[k], run[k+1], acts[k])
  }

  lemma TraceRun(run: seq<State>, acts: seq<Action>)
    requires IsTrace(run, acts)
    ensures IsRun(run)
  {
    hide Init, Step;
    forall k | 0 <= k < |run| - 1 ensures Next(run[k], run[k+1]) {
      assert Step(run[k], run[k+1], acts[k]);
    }
  }

  /** All messages the handlers have written. */
  function Written(acts: seq<Action>): seq<Message>
  {
    if acts == [] then []
    else Written(acts[..|acts|-1]) + if acts[|acts|-1].Handle? then acts[|acts|-1].notify else []
  }

  /** How often the master has read the pipe. */
  function Reads(acts: seq<Action>): nat
  {
    if acts == [] then 0 else Reads(acts[..|acts|-1]) + if acts[|acts|-1].ReadPipe? then 1 else 0
  }

  /** Messages are read in the order in which they were written, and none is lost. */
  lemma {:induction false} MessagesKept(run: seq<State>, acts: seq<Action>, k: nat)
    requires IsTrace(run, acts) && k < |run|
    ensures var written, n := Written(acts[..k]), Reads(acts[..k]);
      n <= |written| && run[k].pipe == written[n..] && (run[k].stopping <==> Shutdown in written[..n])
  {
    if k > 0 {
      MessagesKept(run, acts, k - 1);
      assert acts[..k][..k-1] == acts[..k-1];
      StepMessages(run[k-1], run[k-1+1], acts[k-1], Written(acts[..k-1]), Reads(acts[..k-1]));
    }
  }

  lemma StepMessages(s: State, s': State, a: Action, written: seq<Message>, n: nat)
    requires Step(s, s', a)
    requires n <= |written| && s.pipe == written[n..] && (s.stopping <==> Shutdown in written[..n])
    ensures var written', n' := written + (if a.Handle? then a.notify else []), n + if a.ReadPipe? then 1 else 0;
      n' <= |written'| && s'.pipe == written'[n'..] && (s'.stopping <==> Shutdown in written'[..n'])
  {
    if a.ReadPipe? {
      assert written[..n + 1] == written[..n] + [written[n]];
      assert written + [] == written;
    } else if a.Handle? {
      assert (written + a.notify)[..n] == written[..n];
      assert s'.pipe == (written + a.notify)[n..];
    } else {
      assert written + [] == written;
    }
  }

  /** The mode is 's' if and only if the master has read a shutdown request. */
  lemma {:induction false} StoppingExactly(run: seq<State>, acts: seq<Action>, k: nat)
    requires IsTrace(run, acts) && k < |run|
    ensures run[k].stopping <==> exists j :: 0 <= j < k && ReadsShutdown(run[j], acts[j])
  {
    hide Step, ReadsShutdown;
    if k > 0 {
      StoppingExactly(run, acts, k - 1);
      assert Step(run[k-1], run[k-1+1], acts[k-1]);
      StepStopping(run[k-1], run[k], acts[k-1]);
    }
  }

  lemma StepStopping(s: State, s': State, a: Action)
    requires Step(s, s', a)
    ensures s'.stopping <==> s.stopping || ReadsShutdown(s, a)
  {
  }

  ghost predicate ReadsShutdown(s: State, a: Action) { a.ReadPipe? && s.pipe != [] && s.pipe[0] == Shutdown }

  /** No worker gives up before the mode is 's'. */
  ghost predicate Serving(s: State)
  {
    s.stopping || forall i :: 0 <= i < |s.workers| ==> !s.workers[i].Raised? && !s.workers[i].Closing?
  }

  lemma {:induction false} ServingKept(run: seq<State>, acts: seq<Action>, k: nat)
    requires IsTrace(run, acts) && k < |run|
    ensures Serving(run[k])
  {
    if k > 0 {
      ServingKept(run, acts, k - 1);
      assert Step(run[k-1], run[k-1+1], acts[k-1]);
    }
  }

  /** As long as no handler asks for a shutdown, whatever else it reports, the mode is
      never 's' and no worker leaves its loop. */
  lemma OnlyShutdownStops(run: seq<State>, acts: seq<Action>, k: nat)
    requires IsTrace(run, acts) && k < |run|
    requires forall j :: 0 <= j < k && acts[j].Handle? ==> Shutdown !in acts[j].notify
    ensures !run[k].stopping
    ensures forall i :: 0 <= i < |run[k].workers| ==> !run[k].workers[i].Raised? && !run[k].workers[i].Closing?
  {
    hide Init, Step;
    MessagesKept(run, acts, k);
    WrittenOnly(acts[..k]);
    ServingKept(run, acts, k);
  }

  lemma {:induction false} WrittenOnly(acts: seq<Action>)
    requires forall j :: 0 <= j < |acts| && acts[j].Handle? ==> Shutdown !in acts[j].notify
    ensures Shutdown !in Written(acts)
  {
    if acts != [] { WrittenOnly(acts[..|acts|-1]); }
  }

  /** After 's' at most one connection is accepted. */
  lemma LateOnce(run: seq<State>, acts: seq<Action>, j: nat, m: nat)
    requires IsTrace(run, acts) && j < m < |acts| && acts[j].Accept? && run[j].stopping
    ensures !acts[m].Accept?
  {
    TraceRun(run, acts);
    assert Step(run[j], run[j+1], acts[j]) && Step(run[m], run[m+1], acts[m]);
    LateGrows(run, acts, j + 1, m);
    PoolSafe(run, m + 1);
  }

  lemma {:induction false} LateGrows(run: seq<State>, acts: seq<Action>, j: nat, k: nat)
    requires IsTrace(run, acts) && j <= k < |run|
    ensures run[j].late <= run[k].late && (run[j].stopping ==> run[k].stopping)
  {
    if j < k {
      LateGrows(run, acts, j, k - 1);
      assert Step(run[k-1], run[k-1+1], acts[k-1]);
    }
  }

  /** A worker that is about to accept found a connection with its last select, and
      since then has read the mode once, which was not 's'. */
  lemma {:induction false} AcceptingSince(run: seq<State>, acts: seq<Action>, k: nat, i: nat) returns (j: nat, m: nat)
    requires IsTrace(run, acts) && k < |run| && At(run[k], i, Accepting)
    ensures j < m < k && acts[j] == Select(i, true) && acts[m] == ReadMode(i) && !run[m].stopping
    ensures forall n :: j < n <= m ==> At(run[n], i, Selected(true))
    ensures forall n :: m < n <= k ==> At(run[n], i, Accepting)
  {
    assert k > 0;
    assert Step(run[k-1], run[k-1+1], acts[k-1]);
    BecomesAccepting(run[k-1], run[k], acts[k-1], i);
    hide Step, Init;
    if At(run[k-1], i, Accepting) {
      j, m := AcceptingSince(run, acts, k - 1, i);
    } else {
      m := k - 1;
      j := SelectedSince(run, acts, m, i, true);
    }
  }

  lemma BecomesSelected(s: State, s': State, a: Action, i: nat, ready: bool)
    requires Step(s, s', a) && At(s', i, Selected(ready))
    ensures At(s, i, Selected(ready)) || a == Select(i, ready)
  {
  }

  lemma BecomesAccepting(s: State, s': State, a: Action, i: nat)
    requires Step(s, s', a) && At(s', i, Accepting)
    ensures At(s, i, Accepting) || (At(s, i, Selected(true)) && a == ReadMode(i) && !s.stopping)
  {
  }

  lemma {:induction false} SelectedSince(run: seq<State>, acts: seq<Action>, k: nat, i: nat, ready: bool)
    returns (j: nat)
    requires IsTrace(run, acts) && k < |run| && At(run[k], i, Selected(ready))
    ensures j < k && acts[j] == Select(i, ready)
    ensures forall n :: j < n <= k ==> At(run[n], i, Selected(ready))
  {
    assert k > 0;
    assert Step(run[k-1], run[k-1+1], acts[k-1]);
    BecomesSelected(run[k-1], run[k], acts[k-1], i, ready);
    hide Step, Init;
    if At(run[k-1], i, Selected(ready)) {
      j := SelectedSince(run, acts, k - 1, i, ready);
    } else {
      j := k - 1;
    }
  }
}
