/** Notification events of src/netsys/netsys_c_event.c.  With a pipe, a signaller
    that turns `state` from 0 to 1 by compare-and-swap writes one byte, and a consumer
    reads a byte and resets `state`.  With eventfd the kernel keeps the counter.  Both
    show the signals and consumptions of the same coalescing flag, and no others.
 */
module NotEvent {

  // ------------------------------------------------------- the abstract event

  /** The event is set or not.  Signals coalesce; consuming waits until it is set. */
  datatype Abstract = Abstract(isSet: bool)

  datatype Observed = Signal | Consume | Internal

  ghost predicate AbstractStep(a: Abstract, a': Abstract, o: Observed)
  {
    match o
    case Signal => a'.isSet
    case Consume => a.isSet && !a'.isSet
    case Internal => a' == a
  }

  // ------------------------------------------------------------ NE_PIPE

  /** A thread is outside, between a successful compare-and-swap and the write, or
      between the read and the reset. */
  datatype Phase = Idle | MustWrite | MustReset

  datatype State = State(threads: seq<Phase>, state: int, bytes: nat)

  datatype Action = Cas(i: nat) | Write(i: nat) | Read(i: nat) | Reset(i: nat)

  ghost predicate Init(s: State)
  {
    s.state == 0 && s.bytes == 0 && forall i :: 0 <= i < |s.threads| ==> s.threads[i].Idle?
  }

  ghost predicate At(s: State, i: nat, p: Phase) { i < |s.threads| && s.threads[i] == p }

  ghost predicate Step(s: State, s': State, a: Action)
  {
    match a
    case Cas(i) =>
      && At(s, i, Idle)
      && s' == if s.state == 0 then s.(threads := s.threads[i := MustWrite], state := 1) else s
    case Write(i) =>
      At(s, i, MustWrite) && s' == s.(threads := s.threads[i := Idle], bytes := s.bytes + 1)
    case Read(i) =>
      // a read of the empty pipe blocks
      At(s, i, Idle) && s.bytes > 0 && s' == s.(threads := s.threads[i := MustReset], bytes := s.bytes - 1)
    case Reset(i) =>
      At(s, i, MustReset) && s' == s.(threads := s.threads[i := Idle], state := 0)
  }

  function Inside(threads: seq<Phase>): nat
  {
    if threads == [] then 0 else (if threads[0].Idle? then 0 else 1) + Inside(threads[1..])
  }

  lemma {:induction false} InsideUpdate(threads: seq<Phase>, i: nat, p: Phase)
    requires i < |threads|
    ensures Inside(threads[i := p])
      == Inside(threads) - (if threads[i].Idle? then 0 else 1) + (if p.Idle? then 0 else 1)
  {
    if i == 0 {
      assert threads[i := p][1..] == threads[1..];
    } else {
      InsideUpdate(threads[1..], i - 1, p);
      assert threads[i := p][1..] == threads[1..][i - 1 := p];
    }
  }

  lemma {:induction false} SomebodyInside(threads: seq<Phase>) returns (i: nat)
    requires Inside(threads) > 0
    ensures i < |threads| && !threads[i].Idle?
  {
    if threads[0].Idle? {
      i := SomebodyInside(threads[1..]);
      i := i + 1;
    } else {
      i := 0;
    }
  }

  lemma {:induction false} NobodyInside(threads: seq<Phase>)
    requires forall i :: 0 <= i < |threads| ==> threads[i].Idle?
    ensures Inside(threads) == 0
  {
    if threads != [] { NobodyInside(threads[1..]); }
  }

  /** `state` counts the one token there is: a thread that will write it, a byte in
      the pipe, or a thread that has read it. */
  ghost predicate Inv(s: State)
  {
    s.state == Inside(s.threads) + s.bytes && s.state <= 1
  }

  lemma StepInv(s: State, s': State, a: Action)
    requires Inv(s) && Step(s, s', a)
    ensures Inv(s')
  {
    hide Inside;
    match a
    case Cas(i) => if s.state == 0 { InsideUpdate(s.threads, i, MustWrite); }
    case Write(i) => InsideUpdate(s.threads, i, Idle);
    case Read(i) => InsideUpdate(s.threads, i, MustReset);
    case Reset(i) => InsideUpdate(s.threads, i, Idle);
  }

  function View(s: State): Abstract { Abstract(s.state != 0) }

  /** Signals take effect at the compare-and-swap, consuming at the reset. */
  function Observe(a: Action): Observed
  {
    match a
    case Cas(_) => Signal
    case Reset(_) => Consume
    case _ => Internal
  }

  /** The pipe implementation refines the abstract event. */
  lemma PipeRefines(s: State, s': State, a: Action)
    requires Inv(s) && Step(s, s', a)
    ensures AbstractStep(View(s), View(s'), Observe(a))
  {
    if a.Reset? {
      InsideUpdate(s.threads, a.i, Idle);
      assert Inside(s.threads) > 0;
    }
  }

  // ----------------------------------------------------------- whole runs

  ghost predicate IsRun(run: seq<State>, actions: seq<Action>)
  {
    && |run| == |actions| + 1 && Init(run[0])
    && forall k :: 0 <= k < |actions| ==> Step(run[k], run[k+1], actions[k])
  }

  lemma {:induction false} RunInv(run: seq<State>, actions: seq<Action>, k: nat)
    requires IsRun(run, actions) && k < |run|
    ensures Inv(run[k])
  {
    hide Inv;
    if k == 0 {
      NobodyInside(run[0].threads);
      assert Inv(run[0]) by { InitIsInv(run[0]); }
    } else {
      RunInv(run, actions, k - 1);
      assert Step(run[k-1], run[k-1+1], actions[k-1]);
      StepInv(run[k-1], run[k], actions[k-1]);
    }
  }

  lemma InitIsInv(s: State)
    requires Init(s)
    ensures Inv(s)
  {
    NobodyInside(s.threads);
  }

  /** No signal is lost.  If a signal was given at step `m` and nobody has reset the
      event since then, the token is still there: a byte can be read right now, or a
      thread is about to write it, or about to reset.  The pipe never holds more than
      one byte, so the write never blocks. */
  lemma {:induction false} SignalNotLost(run: seq<State>, actions: seq<Action>, m: nat, k: nat)
    requires IsRun(run, actions) && m < k < |run| && actions[m].Cas?
    requires forall j :: m < j < k ==> !actions[j].Reset?
    ensures run[k].bytes <= 1 && run[k].state == 1
    ensures run[k].bytes == 1 || exists i :: 0 <= i < |run[k].threads| && !run[k].threads[i].Idle?
  {
    hide Init;
    StillSet(run, actions, m, k);
    RunInv(run, actions, k);
    var s := run[k];
    if s.bytes == 0 {
      var i := SomebodyInside(s.threads);
    }
  }

  lemma {:induction false} StillSet(run: seq<State>, actions: seq<Action>, m: nat, k: nat)
    requires IsRun(run, actions) && m < k < |run| && actions[m].Cas?
    requires forall j :: m < j < k ==> !actions[j].Reset?
    ensures run[k].state == 1
    decreases k - m
  {
    hide Init, Inside;
    assert Step(run[k-1], run[k-1+1], actions[k-1]);
    RunInv(run, actions, k - 1);
    if k - 1 > m { StillSet(run, actions, m, k - 1); }
  }

  lemma Extend(run: seq<State>, actions: seq<Action>, a: Action, s': State)
    requires IsRun(run, actions) && Step(run[|run|-1], s', a)
    ensures IsRun(run + [s'], actions + [a])
  {
    hide Init, Step;
    var r, t := run + [s'], actions + [a];
    forall k | 0 <= k < |t| ensures Step(r[k], r[k+1], t[k]) {
      if k < |actions| { assert Step(run[k], run[k+1], actions[k]); }
    }
  }

  /** Wherever a run stands after a signal that is not covered, at most three more
      steps lead to the end of a consume that covers it. */
  lemma SignalConsumable(run: seq<State>, actions: seq<Action>, m: nat)
    returns (run': seq<State>, actions': seq<Action>)
    requires IsRun(run, actions) && m < |actions| && actions[m].Cas?
    requires forall j :: m < j < |actions| ==> !actions[j].Reset?
    ensures IsRun(run', actions') && actions <= actions' && |actions| < |actions'| <= |actions| + 3
    ensures actions'[|actions'|-1].Reset? && run'[|run'|-1].state == 0
  {
    SignalNotLost(run, actions, m, |run| - 1);
    RunInv(run, actions, |run| - 1);
    var i := HasThread(run, actions, m);
    hide IsRun, Init, Inside;
    run', actions' := run, actions;
    var s := run[|run|-1];
    if s.bytes == 0 { i := SomebodyInside(s.threads); }
    if s.bytes == 0 && s.threads[i].MustWrite? {
      s := s.(threads := s.threads[i := Idle], bytes := 1);
      Extend(run', actions', Write(i), s);
      run', actions' := run' + [s], actions' + [Write(i)];
    } else if s.bytes == 1 {
      AllIdle(s.threads, i);
    }
    if s.bytes == 1 {
      s := s.(threads := s.threads[i := MustReset], bytes := 0);
      Extend(run', actions', Read(i), s);
      run', actions' := run' + [s], actions' + [Read(i)];
    }
    s := s.(threads := s.threads[i := Idle], state := 0);
    Extend(run', actions', Reset(i), s);
    run', actions' := run' + [s], actions' + [Reset(i)];
  }

  lemma {:induction false} AllIdle(threads: seq<Phase>, i: nat)
    requires Inside(threads) == 0 && i < |threads|
    ensures threads[i].Idle?
  {
    if i > 0 { AllIdle(threads[1..], i - 1); }
  }

  lemma {:induction false} SameThreads(run: seq<State>, actions: seq<Action>, k: nat)
    requires IsRun(run, actions) && k < |run|
    ensures |run[k].threads| == |run[0].threads|
  {
    if k > 0 {
      SameThreads(run, actions, k - 1);
      assert Step(run[k-1], run[k-1+1], actions[k-1]);
    }
  }

  lemma HasThread(run: seq<State>, actions: seq<Action>, m: nat) returns (i: nat)
    requires IsRun(run, actions) && m < |actions| && actions[m].Cas?
    ensures i < |run[|run|-1].threads|
  {
    assert Step(run[m], run[m+1], actions[m]);
    SameThreads(run, actions, m);
    SameThreads(run, actions, |run| - 1);
    i := actions[m].i;
  }

  // ---------------------------------------------------------- NE_EVENTFD

  datatype EventFd = EventFd(counter: nat)

  function Trace(actions: seq<Action>): seq<Observed>
  {
    if actions == [] then []
    else
      var o := Observe(actions[|actions|-1]);
      Trace(actions[..|actions|-1]) + if o.Internal? then [] else [o]
  }

  /** Does the event stand set after this sequence of signals and consumptions?  None
      of the consumptions may have come when it was not set. */
  function AfterTrace(t: seq<Observed>): (r: (bool, bool))
  {
    if t == [] then (true, false)
    else
      var (ok, isSet) := AfterTrace(t[..|t|-1]);
      match t[|t|-1]
      case Signal => (ok, true)
      case Consume => (ok && isSet, false)
      case Internal => (ok, isSet)
  }

  /** eventfd under the same signals and consumptions: a write adds to the counter, a
      read returns and clears it and would block at zero (then the first component is
      false).  `state` plays no part. */
  function FdRun(t: seq<Observed>): (r: (bool, EventFd))
  {
    if t == [] then (true, EventFd(0))
    else
      var (ok, e) := FdRun(t[..|t|-1]);
      match t[|t|-1]
      case Signal => (ok, EventFd(e.counter + 1))
      case Consume => (ok && e.counter > 0, EventFd(0))
      case Internal => (ok, e)
  }

  lemma {:induction false} FdRefines(t: seq<Observed>)
    ensures FdRun(t).0 == AfterTrace(t).0 && (FdRun(t).1.counter > 0 <==> AfterTrace(t).1)
  {
    if t != [] { FdRefines(t[..|t|-1]); }
  }

  lemma AfterTraceNext(t: seq<Observed>, o: Observed)
    ensures AfterTrace(t + [o]) ==
      var (ok, isSet) := AfterTrace(t);
      match o
      case Signal => (ok, true)
      case Consume => (ok && isSet, false)
      case Internal => (ok, isSet)
  {
    assert (t + [o])[..|t|] == t;
  }

  lemma {:induction false} PipeTrace(run: seq<State>, actions: seq<Action>)
    requires IsRun(run, actions)
    ensures var t := AfterTrace(Trace(actions));
      t.0 && t.1 == View(run[|run|-1]).isSet
  {
    hide Init, Inside;
    if actions == [] {
      assert run[0].state == 0 by { InitStateZero(run[0]); }
    } else {
      var n := |actions| - 1;
      PipeTrace(run[..n+1], actions[..n]);
      RunInv(run, actions, n);
      assert Step(run[n], run[n+1], actions[n]);
      PipeRefines(run[n], run[n+1], actions[n]);
      var front, o := Trace(actions[..n]), Observe(actions[n]);
      assert front + [] == front;
      AfterTraceNext(front, o);
    }
  }

  lemma InitStateZero(s: State)
    requires Init(s)
    ensures s.state == 0
  {
  }

  /** Main result: whatever the threads do with the pipe, an eventfd that gets the
      same signals and consumptions in the same order would have blocked nobody either
      and is readable exactly when the pipe event is set. */
  lemma SameBehaviour(run: seq<State>, actions: seq<Action>)
    requires IsRun(run, actions)
    ensures var (ok, e) := FdRun(Trace(actions));
      ok && (e.counter > 0 <==> run[|run|-1].state == 1)
  {
    PipeTrace(run, actions);
    FdRefines(Trace(actions));
    RunInv(run, actions, |run| - 1);
  }

  lemma TraceNext(actions: seq<Action>, a: Action)
    ensures Trace(actions + [a]) == Trace(actions) + if Observe(a).Internal? then [] else [Observe(a)]
  {
    assert (actions + [a])[..|actions|] == actions;
  }

  /** One thread that is idle, with its last signal, if any, in the pipe. */
  ghost predicate AtRest(s: State, isSet: bool)
  {
    s == State([Idle], if isSet then 1 else 0, if isSet then 1 else 0)
  }

  lemma RestStart() returns (run: seq<State>)
    ensures IsRun(run, []) && AtRest(run[|run|-1], false)
  {
    run := [State([Idle], 0, 0)];
  }

  /** A signal by an idle thread, up to the write. */
  lemma RestSignal(run: seq<State>, actions: seq<Action>, isSet: bool) returns (run': seq<State>, actions': seq<Action>)
    requires IsRun(run, actions) && AtRest(run[|run|-1], isSet)
    ensures IsRun(run', actions') && AtRest(run'[|run'|-1], true) && Trace(actions') == Trace(actions) + [Signal]
  {
    var s := run[|run|-1];
    hide IsRun;
    var s1 := if isSet then s else State([MustWrite], 1, 0);
    Extend(run, actions, Cas(0), s1);
    TraceNext(actions, Cas(0));
    run', actions' := run + [s1], actions + [Cas(0)];
    if !isSet {
      var s2 := State([Idle], 1, 1);
      assert s1.threads[0 := Idle] == [Idle];
      Extend(run', actions', Write(0), s2);
      TraceNext(actions', Write(0));
      run', actions' := run' + [s2], actions' + [Write(0)];
      assert Trace(actions) + [Signal] + [] == Trace(actions) + [Signal];
    }
  }

  lemma RestConsume(run: seq<State>, actions: seq<Action>) returns (run': seq<State>, actions': seq<Action>)
    requires IsRun(run, actions) && AtRest(run[|run|-1], true)
    ensures IsRun(run', actions') && AtRest(run'[|run'|-1], false) && Trace(actions') == Trace(actions) + [Consume]
  {
    hide IsRun;
    var s1, s2 := State([MustReset], 1, 0), State([Idle], 0, 0);
    Extend(run, actions, Read(0), s1);
    TraceNext(actions, Read(0));
    assert Trace(actions) + [] == Trace(actions);
    run', actions' := run + [s1], actions + [Read(0)];
    assert s1.threads[0 := Idle] == [Idle];
    Extend(run', actions', Reset(0), s2);
    TraceNext(actions', Reset(0));
    run', actions' := run' + [s2], actions' + [Reset(0)];
  }

  /** The converse: whatever signals and consumptions an eventfd allows, the pipe event
      shows them too, with a single thread. */
  lemma {:induction false} PipeShows(t: seq<Observed>) returns (run: seq<State>, actions: seq<Action>)
    requires FdRun(t).0 && Internal !in t
    ensures IsRun(run, actions) && Trace(actions) == t && AtRest(run[|run|-1], FdRun(t).1.counter > 0)
  {
    assert Trace([]) == [];
    hide *;
    if t == [] {
      NothingRun();
      run := RestStart();
      actions := [];
    } else {
      var front, last := t[..|t|-1], t[|t|-1];
      FdRunNext(t);
      run, actions := PipeShows(front);
      assert t == front + [last];
      if last.Signal? {
        run, actions := RestSignal(run, actions, FdRun(front).1.counter > 0);
      } else {
        run, actions := RestConsume(run, actions);
      }
    }
  }

  lemma NothingRun()
    ensures FdRun([]) == (true, EventFd(0))
  {
  }

  lemma FdRunNext(t: seq<Observed>)
    requires t != [] && FdRun(t).0 && Internal !in t
    ensures var front, last := t[..|t|-1], t[|t|-1];
      && FdRun(front).0 && Internal !in front && (last.Signal? || last.Consume?)
      && (last.Signal? ==> FdRun(t).1.counter > 0)
      && (last.Consume? ==> FdRun(front).1.counter > 0 && FdRun(t).1.counter == 0)
  {
    assert t[|t|-1] in t;
  }
}
