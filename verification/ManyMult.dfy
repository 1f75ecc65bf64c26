/** The master/worker scheduler of examples/camlbox/manymult.ml.  The master keeps for
    each worker the number of free slots in its camlbox; workers answer into the box of
    the master.  A state machine over the steps of all processes.
 */
module ManyMult {
  import opened FiniteSets

  const WSLOTS := 2

  /** `free` is the counter `wfree` of the master, `box` the requests in the camlbox of
      the worker, `busy` the one being computed (its slot is still used), and `hand` a
      response whose request slot is deleted but which is not sent yet. */
  datatype Worker = Worker(free: int, box: seq<nat>, busy: seq<nat>, hand: seq<nat>)

  datatype Response = Response(id: nat, worker: nat)

  /** `batch` is what `camlbox_wait` returned and is not processed yet.  `answered` lists
      tasks in the order in which their `response_opt` was set. */
  datatype State = State(tasks: nat, todo: seq<nat>, freeSlots: int, unresponded: int, ws: seq<Worker>,
                         mbox: seq<Response>, batch: seq<Response>, answered: seq<nat>)

  function Upto(n: nat): seq<nat> { seq(n, k requires 0 <= k < n => k) }

  ghost predicate Init(s: State)
  {
    && |s.ws| > 0
    && s == State(s.tasks, Upto(s.tasks), |s.ws| * WSLOTS, s.tasks,
                  seq(|s.ws|, _ => Worker(WSLOTS, [], [], [])), [], [], [])
  }

  datatype Action = Submit(w: nat) | Wait | Process | Start(w: nat, i: nat) | Finish(w: nat) | Post(w: nat)

  ghost function Put(s: State, w: nat, worker: Worker): State
    requires w < |s.ws|
  {
    s.(ws := s.ws[w := worker])
  }

  ghost predicate Step(s: State, s': State, a: Action)
  {
    match a
    case Submit(w) =>
      // the first worker with a free slot gets the next task
      && s.unresponded > 0 && s.batch == [] && s.freeSlots > 0 && s.todo != []
      && w < |s.ws| && s.ws[w].free > 0 && (forall v :: 0 <= v < w ==> s.ws[v].free <= 0)
      && s' == Put(s, w, s.ws[w].(free := s.ws[w].free - 1, box := s.ws[w].box + [s.todo[0]]))
                 .(todo := s.todo[1..], freeSlots := s.freeSlots - 1)
    case Wait =>
      && s.unresponded > 0 && s.batch == [] && !(s.freeSlots > 0 && s.todo != []) && s.mbox != []
      && s' == s.(batch := s.mbox, mbox := [])
    case Process =>
      s.batch != [] && s.batch[0].worker < |s.ws| && Record(s, s', s.batch[0])
    case Start(w, i) =>
      && w < |s.ws| && i < |s.ws[w].box| && s.ws[w].busy == [] && s.ws[w].hand == []
      && s' == Put(s, w, s.ws[w].(box := s.ws[w].box[..i] + s.ws[w].box[i+1..], busy := [s.ws[w].box[i]]))
    case Finish(w) =>
      && w < |s.ws| && s.ws[w].busy != [] && s.ws[w].hand == []
      && s' == Put(s, w, s.ws[w].(busy := [], hand := s.ws[w].busy))
    case Post(w) =>
      && w < |s.ws| && s.ws[w].hand != []
      && s' == Put(s, w, s.ws[w].(hand := [])).(mbox := s.mbox + [Response(s.ws[w].hand[0], w)])
  }

  /** One response: `response_opt`, the free slots and `unresponded`. */
  ghost predicate Record(s: State, s': State, r: Response)
    requires s.batch != [] && r.worker < |s.ws|
  {
    s' == Put(s, r.worker, s.ws[r.worker].(free := s.ws[r.worker].free + 1))
            .(batch := s.batch[1..], freeSlots := s.freeSlots + 1, unresponded := s.unresponded - 1,
              answered := s.answered + [r.id])
  }

  // ------------------------------------------------------------ counting

  /** How often `x` occurs. */
  function Occ(s: seq<nat>, x: nat): nat
  {
    if s == [] then 0 else (if s[0] == x then 1 else 0) + Occ(s[1..], x)
  }

  function OccAt(w: Worker, x: nat): nat { Occ(w.box, x) + Occ(w.busy, x) + Occ(w.hand, x) }

  function OccWorkers(ws: seq<Worker>, x: nat): nat
  {
    if ws == [] then 0 else OccAt(ws[0], x) + OccWorkers(ws[1..], x)
  }

  function OccIds(rs: seq<Response>, x: nat): nat
  {
    if rs == [] then 0 else (if rs[0].id == x then 1 else 0) + OccIds(rs[1..], x)
  }

  /** In how many places task `x` is at the moment. */
  function Places(s: State, x: nat): nat
  {
    Occ(s.todo, x) + OccWorkers(s.ws, x) + OccIds(s.mbox, x) + OccIds(s.batch, x) + Occ(s.answered, x)
  }

  function FreeSum(ws: seq<Worker>): int { if ws == [] then 0 else ws[0].free + FreeSum(ws[1..]) }

  function From(rs: seq<Response>, w: nat): nat
  {
    if rs == [] then 0 else (if rs[0].worker == w then 1 else 0) + From(rs[1..], w)
  }

  lemma {:induction false} OccConcat(a: seq<nat>, b: seq<nat>, x: nat)
    ensures Occ(a + b, x) == Occ(a, x) + Occ(b, x)
  {
    if a == [] {
      assert a + b == b;
    } else {
      assert (a + b)[1..] == a[1..] + b;
      OccConcat(a[1..], b, x);
    }
  }

  lemma OccOne(y: nat, x: nat)
    ensures Occ([], x) == 0
    ensures Occ([y], x) == if y == x then 1 else 0
  {
  }

  lemma {:induction false} OccWorkersUpdate(ws: seq<Worker>, i: nat, w: Worker, x: nat)
    requires i < |ws|
    ensures OccWorkers(ws[i := w], x) == OccWorkers(ws, x) - OccAt(ws[i], x) + OccAt(w, x)
  {
    hide OccAt;
    if i == 0 {
      assert ws[i := w][1..] == ws[1..];
    } else {
      OccWorkersUpdate(ws[1..], i - 1, w, x);
      assert ws[i := w][1..] == ws[1..][i - 1 := w];
    }
  }

  lemma {:induction false} FreeSumUpdate(ws: seq<Worker>, i: nat, w: Worker)
    requires i < |ws|
    ensures FreeSum(ws[i := w]) == FreeSum(ws) - ws[i].free + w.free
  {
    if i == 0 {
      assert ws[i := w][1..] == ws[1..];
    } else {
      FreeSumUpdate(ws[1..], i - 1, w);
      assert ws[i := w][1..] == ws[1..][i - 1 := w];
    }
  }

  lemma {:induction false} Appended(rs: seq<Response>, r: Response, w: nat, x: nat)
    ensures OccIds(rs + [r], x) == OccIds(rs, x) + if r.id == x then 1 else 0
    ensures From(rs + [r], w) == From(rs, w) + if r.worker == w then 1 else 0
  {
    if rs != [] {
      assert (rs + [r])[1..] == rs[1..] + [r];
      Appended(rs[1..], r, w, x);
    } else {
      assert rs + [r] == [r] && [r][1..] == [];
    }
  }

  // ------------------------------------------------------------ invariant

  /** Both slots of a worker: free, or used by a request or an answer on its way. */
  ghost predicate SlotsOk(s: State, w: nat)
    requires w < |s.ws|
  {
    var x := s.ws[w];
    && x.free >= 0 && |x.busy| <= 1 && |x.hand| <= 1
    && x.free + |x.box| + |x.busy| + |x.hand| + From(s.mbox, w) + From(s.batch, w) == WSLOTS
  }

  ghost predicate Inv(s: State)
  {
    && |s.ws| > 0
    && (forall w :: 0 <= w < |s.ws| ==> SlotsOk(s, w))
    && (forall k :: 0 <= k < |s.mbox| ==> s.mbox[k].worker < |s.ws|)
    && (forall k :: 0 <= k < |s.batch| ==> s.batch[k].worker < |s.ws|)
    && s.freeSlots == FreeSum(s.ws)
    && s.unresponded == s.tasks - |s.answered|
    && forall x: nat :: Places(s, x) == if x < s.tasks then 1 else 0
  }

  lemma StepSlots(s: State, s': State, a: Action)
    requires Inv(s) && Step(s, s', a)
    ensures |s'.ws| == |s.ws| && forall w :: 0 <= w < |s'.ws| ==> SlotsOk(s', w)
  {
    hide Places, FreeSum;
    forall w | 0 <= w < |s'.ws| ensures SlotsOk(s', w) {
      assert SlotsOk(s, w);
      if a.Post? { Appended(s.mbox, s'.mbox[|s.mbox|], w, 0); }
    }
  }

  lemma StepFree(s: State, s': State, a: Action)
    requires Inv(s) && Step(s, s', a)
    ensures s'.freeSlots == FreeSum(s'.ws)
  {
    hide Places, FreeSum, SlotsOk;
    match a
    case Submit(w) => FreeSumUpdate(s.ws, w, s'.ws[w]);
    case Wait =>
    case Process => FreeSumUpdate(s.ws, s.batch[0].worker, s'.ws[s.batch[0].worker]);
    case Start(w, i) => FreeSumUpdate(s.ws, w, s'.ws[w]);
    case Finish(w) => FreeSumUpdate(s.ws, w, s'.ws[w]);
    case Post(w) => FreeSumUpdate(s.ws, w, s'.ws[w]);
  }

  /** No step loses or duplicates a task. */
  lemma StepPlaces(s: State, s': State, a: Action, x: nat)
    requires Inv(s) && Step(s, s', a)
    ensures Places(s', x) == Places(s, x)
  {
    hide Occ, OccWorkers, FreeSum;
    match a
    case Submit(w) =>
      OccWorkersUpdate(s.ws, w, s'.ws[w], x);
      assert s.todo == [s.todo[0]] + s'.todo;
      OccConcat([s.todo[0]], s'.todo, x);
      OccConcat(s.ws[w].box, [s.todo[0]], x);
    case Wait =>
    case Process =>
      var w := s.batch[0].worker;
      OccWorkersUpdate(s.ws, w, s'.ws[w], x);
      OccConcat(s.answered, [s.batch[0].id], x);
      OccOne(s.batch[0].id, x);
    case Start(w, i) =>
      OccWorkersUpdate(s.ws, w, s'.ws[w], x);
      Removed(s.ws[w].box, i, x);
      OccOne(s.ws[w].box[i], x);
    case Finish(w) =>
      OccWorkersUpdate(s.ws, w, s'.ws[w], x);
    case Post(w) =>
      OccWorkersUpdate(s.ws, w, s'.ws[w], x);
      Appended(s.mbox, s'.mbox[|s.mbox|], w, x);
      assert SlotsOk(s, w);
      assert s.ws[w].hand == [s.ws[w].hand[0]];
      OccOne(s.ws[w].hand[0], x);
  }

  lemma Removed(b: seq<nat>, i: nat, x: nat)
    requires i < |b|
    ensures Occ(b, x) == Occ(b[..i] + b[i+1..], x) + Occ([b[i]], x)
  {
    OccConcat(b[..i], [b[i]] + b[i+1..], x);
    OccConcat([b[i]], b[i+1..], x);
    OccConcat(b[..i], b[i+1..], x);
    assert b == b[..i] + ([b[i]] + b[i+1..]);
  }

  lemma StepInv(s: State, s': State, a: Action)
    requires Inv(s) && Step(s, s', a)
    ensures Inv(s')
  {
    StepSlots(s, s', a);
    StepFree(s, s', a);
    forall x: nat ensures Places(s', x) == Places(s, x) { StepPlaces(s, s', a, x); }
    hide Places, FreeSum, SlotsOk;
  }

  // ----------------------------------------------------------- whole runs

  lemma {:induction false} OccUpto(n: nat, x: nat)
    ensures Occ(Upto(n), x) == if x < n then 1 else 0
  {
    if n > 0 {
      OccUpto(n - 1, x);
      assert Upto(n) == Upto(n - 1) + [n - 1];
      OccConcat(Upto(n - 1), [n - 1], x);
      OccOne(n - 1, x);
    }
  }

  lemma {:induction false} FreshWorkers(ws: seq<Worker>, x: nat)
    requires forall w :: 0 <= w < |ws| ==> ws[w] == Worker(WSLOTS, [], [], [])
    ensures FreeSum(ws) == |ws| * WSLOTS && OccWorkers(ws, x) == 0
  {
    if ws != [] { FreshWorkers(ws[1..], x); }
  }

  lemma InitInv(s: State)
    requires Init(s)
    ensures Inv(s)
  {
    forall x: nat ensures Places(s, x) == if x < s.tasks then 1 else 0 {
      OccUpto(s.tasks, x);
      FreshWorkers(s.ws, x);
    }
    FreshWorkers(s.ws, 0);
  }

  ghost predicate Next(s: State, s': State) { exists a :: Step(s, s', a) }

  ghost predicate Stuck(s: State) { forall s' :: !Next(s, s') }

  ghost predicate IsRun(run: seq<State>)
  {
    && |run| > 0 && Init(run[0])
    && forall k :: 0 <= k < |run| - 1 ==> Next(run[k], run[k+1])
  }

  lemma {:induction false} RunInv(run: seq<State>, k: nat)
    requires IsRun(run) && k < |run|
    ensures Inv(run[k]) && run[k].tasks == run[0].tasks
  {
    hide Inv, Init;
    if k == 0 {
      InitInv(run[0]);
    } else {
      RunInv(run, k - 1);
      assert Next(run[k-1], run[k-1+1]);
      var a :| Step(run[k-1], run[k], a);
      StepInv(run[k-1], run[k], a);
    }
  }

  // ------------------------------------------------------------- capacities

  /** Responses to the master, counted worker by worker. */
  function FromAll(rs: seq<Response>, n: nat): nat
  {
    if n == 0 then 0 else FromAll(rs, n - 1) + From(rs, n - 1)
  }

  lemma {:induction false} FromAllCons(rs: seq<Response>, n: nat)
    requires rs != []
    ensures FromAll(rs, n) == FromAll(rs[1..], n) + if rs[0].worker < n then 1 else 0
  {
    if n > 0 { FromAllCons(rs, n - 1); }
  }

  lemma {:induction false} FromAllIsLength(rs: seq<Response>, n: nat)
    requires forall k :: 0 <= k < |rs| ==> rs[k].worker < n
    ensures FromAll(rs, n) == |rs|
  {
    if rs == [] {
      FromAllEmpty(n);
    } else {
      FromAllCons(rs, n);
      FromAllIsLength(rs[1..], n);
    }
  }

  lemma {:induction false} FromAllEmpty(n: nat)
    ensures FromAll([], n) == 0
  {
    if n > 0 { FromAllEmpty(n - 1); }
  }

  lemma {:induction false} FromAllBound(s: State, n: nat)
    requires Inv(s) && n <= |s.ws|
    ensures FromAll(s.mbox, n) + FromAll(s.batch, n) <= WSLOTS * n
  {
    hide Places, FreeSum;
    if n > 0 {
      FromAllBound(s, n - 1);
      assert SlotsOk(s, n - 1);
    }
  }

  lemma {:induction false} FreeSumPositive(ws: seq<Worker>) returns (w: nat)
    requires FreeSum(ws) > 0
    ensures w < |ws| && ws[w].free > 0 && forall v :: 0 <= v < w ==> ws[v].free <= 0
  {
    if ws[0].free > 0 {
      w := 0;
    } else {
      w := FreeSumPositive(ws[1..]);
      assert forall v :: 1 <= v < w + 1 ==> ws[v] == ws[1..][v - 1];
      w := w + 1;
    }
  }

  /** Main result on safety, for every number of workers, every number of tasks and
      every interleaving. */
  lemma SchedulerSafe(run: seq<State>, k: nat)
    requires IsRun(run) && k < |run|
    ensures var s := run[k];
      // the total agrees with the counters of the workers
      && s.freeSlots == FreeSum(s.ws)
      // whenever the master submits, a worker with a free slot is found
      && (s.freeSlots > 0 ==> exists w :: 0 <= w < |s.ws| && s.ws[w].free > 0)
      // no camlbox overflows: requests in a worker's box, responses in the master's
      && (forall w :: 0 <= w < |s.ws| ==> |s.ws[w].box| + |s.ws[w].busy| <= WSLOTS)
      && |s.mbox| + |s.batch| <= 2 * |s.ws|
      // every task is in exactly one place, and answered at most once
      && (forall x: nat :: Places(s, x) == if x < s.tasks then 1 else 0)
  {
    hide Init, Places, FreeSum, FromAll, OccWorkers;
    RunInv(run, k);
    var s := run[k];
    forall w | 0 <= w < |s.ws| ensures |s.ws[w].box| + |s.ws[w].busy| <= WSLOTS { assert SlotsOk(s, w); }
    FromAllBound(s, |s.ws|);
    FromAllIsLength(s.mbox, |s.ws|);
    FromAllIsLength(s.batch, |s.ws|);
    if s.freeSlots > 0 { var w := FreeSumPositive(s.ws); }
  }

  // ------------------------------------------------- what the master does

  /** The slots of worker `w` that are in use. */
  function InUse(s: State, w: nat): nat
    requires w < |s.ws|
  {
    |s.ws[w].box| + |s.ws[w].busy| + |s.ws[w].hand| + From(s.mbox, w) + From(s.batch, w)
  }

  lemma {:induction false} FreeSumBound(ws: seq<Worker>, w: nat)
    requires w < |ws| && forall v :: 0 <= v < |ws| ==> ws[v].free >= 0
    ensures ws[w].free <= FreeSum(ws)
    ensures FreeSum(ws) >= 0
  {
    if |ws| > 1 {
      FreeSumBound(ws[1..], if w > 0 then w - 1 else 0);
    }
  }

  lemma {:induction false} TasksInOrder(run: seq<State>, k: nat)
    requires IsRun(run) && k < |run|
    ensures var s := run[k];
      |s.todo| <= s.tasks && forall i :: 0 <= i < |s.todo| ==> s.todo[i] == s.tasks - |s.todo| + i
  {
    if k > 0 {
      TasksInOrder(run, k - 1);
      assert Next(run[k-1], run[k-1+1]);
    }
  }

  /** Main result on the policy, in every run: tasks are submitted in their order, each to
      the first worker that has a slot left, and the master waits for responses only
      when all slots of all workers are in use or nothing is left to submit. */
  lemma MasterPolicy(run: seq<State>, k: nat, a: Action)
    requires IsRun(run) && k + 1 < |run| && Step(run[k], run[k+1], a)
    ensures var s, s' := run[k], run[k+1];
      match a
      case Submit(w) =>
        && w < |s.ws| && w < |s'.ws| && InUse(s, w) < WSLOTS && (forall v :: 0 <= v < w ==> InUse(s, v) == WSLOTS)
        && s'.ws[w].box == s.ws[w].box + [s.tasks - |s.todo|]
      case Wait => s.todo == [] || forall v :: 0 <= v < |s.ws| ==> InUse(s, v) == WSLOTS
      case _ => true
  {
    hide Init, Places, FreeSum, From;
    RunInv(run, k);
    TasksInOrder(run, k);
    var s := run[k];
    forall v | 0 <= v < |s.ws| ensures s.ws[v].free == WSLOTS - InUse(s, v) >= 0 { assert SlotsOk(s, v); }
    if a.Wait? && s.todo != [] {
      forall v | 0 <= v < |s.ws| ensures InUse(s, v) == WSLOTS { FreeSumBound(s.ws, v); }
    }
  }

  // ------------------------------------------------------ the end of the loop

  lemma {:induction false} OccLength(a: seq<nat>, x: nat)
    requires x in a
    ensures Occ(a, x) > 0
  {
    if a[0] != x { OccLength(a[1..], x); }
  }

  lemma {:induction false} OccIn(a: seq<nat>, x: nat)
    requires Occ(a, x) > 0
    ensures x in a
  {
    if a[0] != x { OccIn(a[1..], x); }
  }

  /** A list that holds every task below `n` at most once, and has `n` entries, holds
      every task. */
  lemma {:induction false} CoversAll(a: seq<nat>, n: nat)
    requires |a| == n && forall x: nat :: Occ(a, x) <= if x < n then 1 else 0
    ensures forall x: nat :: x < n ==> x in a
  {
    forall x: nat | x in a ensures x < n { OccLength(a, x); }
    DistinctSet(a);
    FullSubset(Elements(a), Below(n));
  }

  ghost function Elements(a: seq<nat>): (r: set<nat>)
    ensures |r| <= |a| && forall x :: x in r <==> x in a
  {
    if a == [] then {} else {a[0]} + Elements(a[1..])
  }

  lemma {:induction false} DistinctSet(a: seq<nat>)
    requires forall x: nat :: Occ(a, x) <= 1
    ensures |Elements(a)| == |a|
  {
    if a != [] {
      var rest := a[1..];
      assert forall x: nat :: Occ(rest, x) <= Occ(a, x);
      DistinctSet(rest);
      if a[0] in rest { OccLength(rest, a[0]); }
    }
  }

  /** When the master leaves its loop, every task has its response. */
  lemma AllAnswered(run: seq<State>)
    requires IsRun(run) && run[|run|-1].unresponded == 0
    ensures var s := run[|run|-1];
      |s.answered| == s.tasks && forall x: nat :: x < s.tasks ==> x in s.answered
  {
    hide Init, FreeSum, OccWorkers;
    RunInv(run, |run| - 1);
    var s := run[|run|-1];
    forall x: nat ensures Occ(s.answered, x) <= if x < s.tasks then 1 else 0 {
      assert Places(s, x) == if x < s.tasks then 1 else 0;
    }
    CoversAll(s.answered, s.tasks);
  }

  // -------------------------------------------------------------- progress

  function WorkerEffort(w: Worker): nat { 5 * |w.box| + 4 * |w.busy| + 3 * |w.hand| }

  function WorkersEffort(ws: seq<Worker>): nat
  {
    if ws == [] then 0 else WorkerEffort(ws[0]) + WorkersEffort(ws[1..])
  }

  lemma {:induction false} EffortUpdate(ws: seq<Worker>, i: nat, w: Worker)
    requires i < |ws|
    ensures WorkersEffort(ws[i := w]) == WorkersEffort(ws) - WorkerEffort(ws[i]) + WorkerEffort(w)
  {
    if i == 0 {
      assert ws[i := w][1..] == ws[1..];
    } else {
      EffortUpdate(ws[1..], i - 1, w);
      assert ws[i := w][1..] == ws[1..][i - 1 := w];
    }
  }

  function Rank(s: State): nat
  {
    6 * |s.todo| + WorkersEffort(s.ws) + 2 * |s.mbox| + |s.batch|
  }

  lemma RankDecreases(s: State, s': State, a: Action)
    requires Inv(s) && Step(s, s', a)
    ensures Rank(s') < Rank(s)
  {
    hide WorkersEffort, Places, FreeSum;
    match a
    case Submit(w) => EffortUpdate(s.ws, w, s'.ws[w]);
    case Wait =>
    case Process => EffortUpdate(s.ws, s.batch[0].worker, s'.ws[s.batch[0].worker]);
    case Start(w, i) => EffortUpdate(s.ws, w, s'.ws[w]);
    case Finish(w) =>
      assert SlotsOk(s, w);
      EffortUpdate(s.ws, w, s'.ws[w]);
    case Post(w) =>
      assert SlotsOk(s, w);
      EffortUpdate(s.ws, w, s'.ws[w]);
  }

  /** Is anything on its way?  If all slots are free and nothing is in a box of the
      master, no worker has anything to do. */
  lemma {:induction false} SomewhereBusy(ws: seq<Worker>) returns (w: nat)
    requires forall k :: 0 <= k < |ws| ==> ws[k].free <= WSLOTS
    requires FreeSum(ws) < |ws| * WSLOTS
    ensures w < |ws| && ws[w].free < WSLOTS
  {
    if ws[0].free < WSLOTS {
      w := 0;
    } else {
      w := SomewhereBusy(ws[1..]);
      w := w + 1;
    }
  }

  /** A worker whose slots are not all free, with no answer at the master, can go on. */
  lemma WorkerProgress(s: State, w: nat) returns (a: Action, s': State)
    requires Inv(s) && w < |s.ws| && s.ws[w].free < WSLOTS && s.mbox == [] && s.batch == []
    ensures Step(s, s', a)
  {
    hide Places, FreeSum;
    assert SlotsOk(s, w);
    var x := s.ws[w];
    if x.hand != [] {
      a, s' := Post(w), Put(s, w, x.(hand := [])).(mbox := s.mbox + [Response(x.hand[0], w)]);
    } else if x.busy != [] {
      a, s' := Finish(w), Put(s, w, x.(busy := [], hand := x.busy));
    } else {
      a, s' := Start(w, 0), Put(s, w, x.(box := x.box[..0] + x.box[1..], busy := [x.box[0]]));
    }
  }

  /** While a response is missing, the master can go on or some worker will answer: the
      master never waits with nothing in flight. */
  lemma SchedulerProgress(s: State) returns (a: Action, s': State)
    requires Inv(s) && s.unresponded > 0
    ensures Step(s, s', a)
  {
    hide Places, FreeSum;
    if s.batch != [] {
      var r := s.batch[0];
      a := Process;
      s' := Put(s, r.worker, s.ws[r.worker].(free := s.ws[r.worker].free + 1))
              .(batch := s.batch[1..], freeSlots := s.freeSlots + 1, unresponded := s.unresponded - 1,
                answered := s.answered + [r.id]);
    } else if s.freeSlots > 0 && s.todo != [] {
      var w := FreeSumPositive(s.ws);
      a := Submit(w);
      s' := Put(s, w, s.ws[w].(free := s.ws[w].free - 1, box := s.ws[w].box + [s.todo[0]]))
              .(todo := s.todo[1..], freeSlots := s.freeSlots - 1);
    } else if s.mbox != [] {
      a, s' := Wait, s.(batch := s.mbox, mbox := []);
    } else {
      var w := InFlight(s);
      a, s' := WorkerProgress(s, w);
    }
  }

  lemma InFlight(s: State) returns (w: nat)
    requires Inv(s) && s.unresponded > 0 && s.batch == [] && s.mbox == [] && !(s.freeSlots > 0 && s.todo != [])
    ensures w < |s.ws| && s.ws[w].free < WSLOTS
  {
    forall k | 0 <= k < |s.ws| ensures s.ws[k].free <= WSLOTS { assert SlotsOk(s, k); }
    if s.freeSlots > 0 {
      var x := Unanswered(s);
      w := HasTask(s.ws, x);
      assert SlotsOk(s, w);
    } else {
      w := SomewhereBusy(s.ws);
    }
  }

  /** With nothing left to do, an unanswered task is at a worker. */
  lemma Unanswered(s: State) returns (x: nat)
    requires Inv(s) && s.unresponded > 0 && s.batch == [] && s.mbox == [] && s.todo == []
    ensures OccWorkers(s.ws, x) > 0
  {
    hide FreeSum, SlotsOk;
    if forall x: nat :: x < s.tasks ==> x in s.answered {
      TooManyAnswers(s.answered, s.tasks);
      assert false;
    }
    x :| x < s.tasks && x !in s.answered;
    assert Places(s, x) == 1;
    if Occ(s.answered, x) > 0 { OccIn(s.answered, x); }
  }

  lemma TooManyAnswers(a: seq<nat>, n: nat)
    requires forall x: nat :: x < n ==> x in a
    ensures |a| >= n
  {
    FullSubset(Below(n), Elements(a));
  }

  lemma {:induction false} HasTask(ws: seq<Worker>, x: nat) returns (w: nat)
    requires OccWorkers(ws, x) > 0
    ensures w < |ws| && |ws[w].box| + |ws[w].busy| + |ws[w].hand| > 0
  {
    if OccAt(ws[0], x) > 0 {
      w := 0;
    } else {
      w := HasTask(ws[1..], x);
      w := w + 1;
    }
  }

  lemma {:induction false} RunBounded(run: seq<State>, k: nat)
    requires IsRun(run) && k < |run|
    ensures Rank(run[k]) + k <= Rank(run[0])
  {
    hide Inv, Init, Rank;
    if k > 0 {
      RunBounded(run, k - 1);
      RunInv(run, k - 1);
      assert Next(run[k-1], run[k-1+1]);
      var a :| Step(run[k-1], run[k], a);
      RankDecreases(run[k-1], run[k], a);
    }
  }

  /** Main result on termination: every run is finite, and a run that cannot go on has
      answered every task. */
  lemma SchedulerEnds(run: seq<State>)
    requires IsRun(run)
    ensures |run| <= Rank(run[0]) + 1
    ensures Stuck(run[|run|-1]) ==>
      var s := run[|run|-1];
      |s.answered| == s.tasks && forall x: nat :: x < s.tasks ==> x in s.answered
  {
    hide Init, Step, Places;
    RunBounded(run, |run| - 1);
    RunInv(run, |run| - 1);
    var s := run[|run|-1];
    if s.unresponded > 0 {
      var a, s' := SchedulerProgress(s);
      assert Next(s, s');
    } else {
      NotNegative(s);
      AllAnswered(run);
    }
  }

  lemma NotNegative(s: State)
    requires Inv(s)
    ensures s.unresponded >= 0
  {
    hide FreeSum, OccWorkers, SlotsOk;
    var a := s.answered;
    forall x: nat ensures Occ(a, x) <= if x < s.tasks then 1 else 0 {
      assert Places(s, x) == if x < s.tasks then 1 else 0;
    }
    forall x: nat | x in a ensures x < s.tasks { OccLength(a, x); }
    DistinctSet(a);
    FullSubset(Elements(a), Below(s.tasks));
  }
}
