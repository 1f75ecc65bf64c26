/** The chameneos game of examples/multicore/chameneos.ml: creatures send requests to
    a meeting place, which pairs them up and answers both, until the agreed number of
    meetings is reached.  A state machine over the steps of all processes.
 */
module Chameneos {

  /** The answer in a creature's response box. */
  datatype Answer = Mate(id: nat) | NoMore

  datatype Phase =
    | Ready                      // about to ask for a meeting
    | Asked                      // waits for the answer
    | Answered(answer: Answer)   // the answer is in the box
    | Done                       // left the game

  /** The current request of a creature: none, not looked at yet, or kept by the place. */
  datatype Request = NoRequest | New | Held

  /** `stale` counts slots of the request box whose request is answered but which are
      not deleted yet.  `mates` is the history of the creatures met. */
  datatype Creature = Creature(phase: Phase, request: Request, stale: nat, meetings: nat, withSelf: nat,
                               mates: multiset<nat>)

  /** What the place is doing.  For a pair `i`, `j` it answers `i`, answers `j`, counts
      the meeting and deletes the slot of `i`, and deletes the slot of `j`. */
  datatype Place = Idle | Pair(i: nat, j: nat, stage: nat) | Refuse(k: nat)

  /** `first` is the creature that waits in the place, or -1. */
  datatype State = State(cs: seq<Creature>, place: Place, first: int, left: nat)

  datatype Action = Ask(k: nat) | Take(k: nat) | Proceed | Receive(k: nat)

  ghost predicate Init(s: State, n: nat)
  {
    s == State(seq(|s.cs|, _ => Creature(Ready, NoRequest, 0, 0, 0, multiset{})), Idle, -1, n)
  }

  ghost function Put(s: State, k: nat, c: Creature): State
    requires k < |s.cs|
  {
    s.(cs := s.cs[k := c])
  }

  function Reply(c: Creature, a: Answer): Creature
  {
    c.(phase := Answered(a), request := NoRequest, stale := c.stale + 1)
  }

  function DropSlot(c: Creature): Creature
  {
    c.(stale := if c.stale > 0 then c.stale - 1 else 0)
  }

  ghost predicate Step(s: State, s': State, a: Action)
  {
    match a
    case Ask(k) =>
      && k < |s.cs| && s.cs[k].phase.Ready?
      && s' == Put(s, k, s.cs[k].(phase := Asked, request := New))
    case Take(k) =>
      && k < |s.cs| && s.place.Idle? && s.cs[k].request.New?
      && s' == if s.left == 0 then Put(s, k, s.cs[k].(request := NoRequest)).(place := Refuse(k))
               else if s.first < 0 then Put(s, k, s.cs[k].(request := Held)).(first := k)
               else Put(s, k, s.cs[k].(request := Held)).(place := Pair(s.first, k, 0))
    case Proceed => PlaceStep(s, s')
    case Receive(k) =>
      && k < |s.cs| && s.cs[k].phase.Answered?
      && var c := s.cs[k];
         match c.phase.answer
         case Mate(id) =>
           s' == Put(s, k, c.(phase := Ready, meetings := c.meetings + 1, mates := c.mates + multiset{id},
                              withSelf := if id == k then c.withSelf + 1 else c.withSelf))
         case NoMore => s' == Put(s, k, c.(phase := Done))
  }

  ghost predicate PlaceStep(s: State, s': State)
  {
    match s.place
    case Idle => false
    case Refuse(k) =>
      && k < |s.cs|
      && s' == Put(s, k, s.cs[k].(phase := Answered(NoMore))).(place := Idle)
    case Pair(i, j, stage) =>
      && i < |s.cs| && j < |s.cs|
      && match stage
         case 0 => s' == Put(s, i, Reply(s.cs[i], Mate(j))).(place := Pair(i, j, 1))
         case 1 => s' == Put(s, j, Reply(s.cs[j], Mate(i))).(place := Pair(i, j, 2))
         case 2 =>
           s.left > 0 && s' == Put(s, i, DropSlot(s.cs[i])).(place := Pair(i, j, 3), first := -1, left := s.left - 1)
         case _ => s' == Put(s, j, DropSlot(s.cs[j])).(place := Idle)
  }

  // ------------------------------------------------------------ invariant

  ghost predicate CreatureOk(s: State, k: nat)
    requires k < |s.cs|
  {
    var c := s.cs[k];
    && c.withSelf == 0
    && match c.phase
       case Asked => !c.request.NoRequest? || s.place == Refuse(k)
       case Answered(Mate(id)) => c.request.NoRequest? && id != k
       case Answered(NoMore) => c.request.NoRequest? && s.left == 0
       case Ready => c.request.NoRequest?
       case Done => c.request.NoRequest? && s.left == 0
  }

  /** Which requests the place keeps, and which slots are still to be deleted. */
  ghost predicate Keeps(s: State, held: set<nat>, stale: set<nat>)
  {
    forall k: nat :: k < |s.cs| ==>
      && (s.cs[k].request.Held? <==> k in held)
      && s.cs[k].stale == if k in stale then 1 else 0
  }

  ghost predicate PlaceOk(s: State)
  {
    match s.place
    case Idle =>
      if s.first == -1 then Keeps(s, {}, {})
      else 0 <= s.first < |s.cs| && s.left > 0 && Keeps(s, {s.first}, {})
    case Refuse(k) =>
      && k < |s.cs| && s.first == -1 && s.left == 0 && Keeps(s, {}, {})
      && s.cs[k].phase.Asked? && s.cs[k].request.NoRequest?
    case Pair(i, j, stage) =>
      && i < |s.cs| && j < |s.cs| && i != j && stage <= 3
      && (if stage < 3 then s.first == i && s.left > 0 else s.first == -1)
      && match stage
         case 0 => Keeps(s, {i, j}, {})
         case 1 => Keeps(s, {j}, {i})
         case 2 => Keeps(s, {}, {i, j})
         case _ => Keeps(s, {}, {j})
  }

  // sums over all creatures

  function Sum(cs: seq<Creature>, f: Creature -> int): int
  {
    if cs == [] then 0 else f(cs[0]) + Sum(cs[1..], f)
  }

  lemma {:induction false} SumUpdate(cs: seq<Creature>, k: nat, c: Creature, f: Creature -> int)
    requires k < |cs|
    ensures Sum(cs[k := c], f) == Sum(cs, f) - f(cs[k]) + f(c)
  {
    if k == 0 {
      assert cs[k := c][1..] == cs[1..];
    } else {
      SumUpdate(cs[1..], k - 1, c, f);
      assert cs[k := c][1..] == cs[1..][k - 1 := c];
    }
  }

  lemma {:induction false} SumBound(cs: seq<Creature>, f: Creature -> int, lo: int, hi: int)
    requires forall k :: 0 <= k < |cs| ==> lo <= f(cs[k]) <= hi
    ensures lo * |cs| <= Sum(cs, f) <= hi * |cs|
  {
    if cs != [] { SumBound(cs[1..], f, lo, hi); }
  }

  function Met(c: Creature): int { c.meetings + if c.phase.Answered? && c.phase.answer.Mate? then 1 else 0 }

  function Slots(c: Creature): int { c.stale + if c.request.NoRequest? then 0 else 1 }

  /** Meetings that are answered but not counted yet. */
  function Uncounted(p: Place): nat
  {
    if p.Pair? && p.stage == 1 then 1 else if p.Pair? && p.stage == 2 then 2 else 0
  }

  ghost predicate Inv(s: State, n: nat)
  {
    && (forall k :: 0 <= k < |s.cs| ==> CreatureOk(s, k))
    && PlaceOk(s)
    && s.left <= n
    && Sum(s.cs, Met) == 2 * (n - s.left) + Uncounted(s.place)
  }

  lemma StepCreatures(s: State, s': State, a: Action, n: nat)
    requires Inv(s, n) && Step(s, s', a)
    ensures forall k :: 0 <= k < |s'.cs| ==> CreatureOk(s', k)
  {
    hide Sum;
    forall k | 0 <= k < |s'.cs| ensures CreatureOk(s', k) {
      assert CreatureOk(s, k);
      if s.place.Refuse? { assert CreatureOk(s, s.place.k); }
    }
  }

  /** What a step of the place does to the requests it keeps. */
  lemma ProceedPlace(s: State, s': State)
    requires PlaceOk(s) && PlaceStep(s, s')
    ensures PlaceOk(s')
  {
    match s.place
    case Refuse(k) =>
    case Pair(i, j, stage) =>
      if stage == 0 { assert Keeps(s', {j}, {i}); }
      else if stage == 1 { assert Keeps(s', {}, {i, j}); }
      else if stage == 2 { assert Keeps(s', {}, {j}); }
      else { assert Keeps(s', {}, {}); }
  }

  lemma TakePlace(s: State, s': State, k: nat)
    requires PlaceOk(s) && Step(s, s', Take(k)) && s.cs[k].phase.Asked?
    ensures PlaceOk(s')
  {
    if s.left == 0 { assert Keeps(s', {}, {}); }
    else if s.first == -1 { assert Keeps(s', {k}, {}); }
    else { assert Keeps(s', {s.first, k}, {}); }
  }

  /** Creatures do not touch what the place keeps. */
  lemma OtherPlace(s: State, s': State, k: nat, c: Creature)
    requires PlaceOk(s) && k < |s.cs| && s' == Put(s, k, c) && c.stale == s.cs[k].stale
    requires !c.request.Held? && !s.cs[k].request.Held? && s.place != Refuse(k)
    ensures PlaceOk(s')
  {
    assert forall held, stale :: Keeps(s, held, stale) ==> Keeps(s', held, stale);
  }

  lemma StepPlace(s: State, s': State, a: Action, n: nat)
    requires Inv(s, n) && Step(s, s', a)
    ensures PlaceOk(s') && s'.left <= n
  {
    match a
    case Ask(k) =>
      assert CreatureOk(s, k);
      hide Sum, Keeps;
      OtherPlace(s, s', k, s'.cs[k]);
    case Take(k) =>
      assert CreatureOk(s, k);
      hide Sum, Keeps;
      TakePlace(s, s', k);
    case Receive(k) =>
      assert CreatureOk(s, k);
      hide Sum, Keeps;
      OtherPlace(s, s', k, s'.cs[k]);
    case Proceed =>
      hide Sum, Keeps;
      ProceedPlace(s, s');
  }

  lemma StepSum(s: State, s': State, a: Action, n: nat)
    requires Inv(s, n) && Step(s, s', a)
    ensures Sum(s'.cs, Met) == 2 * (n - s'.left) + Uncounted(s'.place)
  {
    hide Sum;
    match a
    case Ask(k) => SumUpdate(s.cs, k, s'.cs[k], Met);
    case Take(k) => SumUpdate(s.cs, k, s'.cs[k], Met);
    case Receive(k) => SumUpdate(s.cs, k, s'.cs[k], Met);
    case Proceed =>
      match s.place
      case Refuse(k) =>
        assert CreatureOk(s, k);
        SumUpdate(s.cs, k, s'.cs[k], Met);
      case Pair(i, j, stage) =>
        assert CreatureOk(s, i) && CreatureOk(s, j);
        if stage % 2 == 0 { SumUpdate(s.cs, i, s'.cs[i], Met); }
        else { SumUpdate(s.cs, j, s'.cs[j], Met); }
  }

  lemma StepInv(s: State, s': State, a: Action, n: nat)
    requires Inv(s, n) && Step(s, s', a)
    ensures Inv(s', n)
  {
    StepCreatures(s, s', a, n);
    StepPlace(s, s', a, n);
    StepSum(s, s', a, n);
  }

  // ----------------------------------------------------------- whole runs

  ghost predicate Next(s: State, s': State) { exists a :: Step(s, s', a) }

  ghost predicate IsRun(run: seq<State>, n: nat)
  {
    && |run| > 0 && Init(run[0], n)
    && forall k :: 0 <= k < |run| - 1 ==> Next(run[k], run[k+1])
  }

  ghost predicate Stuck(s: State) { forall s' :: !Next(s, s') }

  ghost predicate Finished(s: State) { forall k :: 0 <= k < |s.cs| ==> s.cs[k].phase.Done? }

  lemma InitInv(s: State, n: nat)
    requires Init(s, n)
    ensures Inv(s, n)
  {
    SumBound(s.cs, Met, 0, 0);
  }

  lemma {:induction false} RunInv(run: seq<State>, n: nat, k: nat)
    requires IsRun(run, n) && k < |run|
    ensures Inv(run[k], n) && |run[k].cs| == |run[0].cs|
  {
    hide Inv, Init;
    if k == 0 {
      InitInv(run[0], n);
    } else {
      RunInv(run, n, k - 1);
      assert Next(run[k-1], run[k-1+1]);
      var a :| Step(run[k-1], run[k], a);
      StepInv(run[k-1], run[k], a, n);
    }
  }

  function NoStale(c: Creature): Creature { c.(stale := 0) }

  /** At most one slot for each creature, and those of one pair. */
  lemma SlotBound(s: State)
    requires PlaceOk(s)
    ensures Sum(s.cs, Slots) <= |s.cs| + 2
  {
    hide Sum;
    if s.place.Pair? {
      var i, j := s.place.i, s.place.j;
      var cs := s.cs[i := NoStale(s.cs[i])];
      SumUpdate(s.cs, i, NoStale(s.cs[i]), Slots);
      SumUpdate(cs, j, NoStale(cs[j]), Slots);
      SumBound(cs[j := NoStale(cs[j])], Slots, 0, 1);
    } else {
      SumBound(s.cs, Slots, 0, 1);
    }
  }

  /** The creatures that the place is going to answer. */
  predicate ToAnswer(s: State, k: nat)
  {
    match s.place
    case Idle => false
    case Refuse(i) => k == i
    case Pair(i, j, stage) => (k == i && stage == 0) || (k == j && stage <= 1)
  }

  /** Main result on safety: nobody meets itself, the place is empty whenever it
      refuses a meeting, the request box is used for at most one slot for each creature
      and two more, and an answer goes only to a creature that has none.  So
      `camlbox_wait` in `meet` never returns two slots. */
  lemma GameSafe(run: seq<State>, n: nat, k: nat)
    requires IsRun(run, n) && k < |run|
    ensures var s := run[k];
      && (forall i :: 0 <= i < |s.cs| ==> s.cs[i].withSelf == 0)
      && (s.place.Refuse? ==> s.first == -1)
      && Sum(s.cs, Slots) <= |s.cs| + 2
      && (forall i: nat :: ToAnswer(s, i) ==> i < |s.cs| && s.cs[i].phase.Asked?)
  {
    hide Init, Next, Sum;
    RunInv(run, n, k);
    var s := run[k];
    SlotBound(s);
    forall i | 0 <= i < |s.cs| ensures s.cs[i].withSelf == 0 && (ToAnswer(s, i) ==> s.cs[i].phase.Asked?) {
      assert CreatureOk(s, i);
    }
  }

  function Meetings(c: Creature): int { c.meetings }

  lemma {:induction false} AllDoneSum(cs: seq<Creature>)
    requires forall k :: 0 <= k < |cs| ==> cs[k].phase.Done?
    ensures Sum(cs, Met) == Sum(cs, Meetings)
  {
    if cs != [] { AllDoneSum(cs[1..]); }
  }

  /** Main result on the total: when all creatures have left, the recorded meetings add
      up to exactly two for each of the `n` meetings. */
  lemma GameTotal(run: seq<State>, n: nat)
    requires IsRun(run, n) && Finished(run[|run|-1]) && |run[0].cs| > 0
    ensures Sum(run[|run|-1].cs, Meetings) == 2 * n
  {
    hide Init, Next, Sum;
    RunInv(run, n, |run| - 1);
    var s := run[|run|-1];
    AllDoneSum(s.cs);
    assert CreatureOk(s, 0);
    assert s.cs[0].phase.Done?;
    PlaceIdleWhenDone(s, n);
  }

  lemma PlaceIdleWhenDone(s: State, n: nat)
    requires Inv(s, n) && Finished(s) && |s.cs| > 0
    ensures s.left == 0 && Uncounted(s.place) == 0
  {
    hide Sum;
    assert CreatureOk(s, 0);
    assert s.cs[0].phase.Done?;
  }

  // -------------------------------------------------------------- symmetry

  /** How often creature `i` was told to meet `j`. */
  function Told(s: State, i: nat, j: nat): nat
    requires i < |s.cs|
  {
    s.cs[i].mates[j] + if s.cs[i].phase == Answered(Mate(j)) then 1 else 0
  }

  /** The first creature of the pair is told, the second one not yet. */
  predicate HalfTold(s: State, i: nat, j: nat) { s.place == Pair(i, j, 1) }

  ghost predicate Mutual(s: State, i: nat, j: nat)
    requires i < |s.cs| && j < |s.cs|
  {
    Told(s, i, j) + (if HalfTold(s, j, i) then 1 else 0) == Told(s, j, i) + if HalfTold(s, i, j) then 1 else 0
  }

  /** The history has every meeting in it. */
  ghost predicate Counted(c: Creature, i: nat) { c.meetings == |c.mates| && c.withSelf == c.mates[i] }

  /** A creature is told something only as one of a pair. */
  lemma ToldStep(s: State, s': State, a: Action, n: nat, i: nat, j: nat)
    requires Inv(s, n) && Step(s, s', a) && i < |s.cs|
    ensures |s'.cs| == |s.cs|
    ensures Told(s', i, j) == Told(s, i, j) +
                              if a == Proceed && (s.place == Pair(i, j, 0) || s.place == Pair(j, i, 1)) then 1 else 0
  {
    hide Sum;
    assert CreatureOk(s, i);
  }

  lemma StepMutual(s: State, s': State, a: Action, n: nat, i: nat, j: nat)
    requires Inv(s, n) && Step(s, s', a) && i < |s.cs| && j < |s.cs| && Mutual(s, i, j)
    ensures |s'.cs| == |s.cs| && Mutual(s', i, j)
  {
    hide Sum, Told, Keeps;
    ToldStep(s, s', a, n, i, j);
    ToldStep(s, s', a, n, j, i);
  }

  lemma StepCounted(s: State, s': State, a: Action, i: nat)
    requires Step(s, s', a) && i < |s.cs| && Counted(s.cs[i], i)
    ensures |s'.cs| == |s.cs| && Counted(s'.cs[i], i)
  {
  }

  lemma {:induction false} RunMutual(run: seq<State>, n: nat, k: nat, i: nat, j: nat)
    requires IsRun(run, n) && k < |run| && i < |run[0].cs| && j < |run[0].cs|
    ensures |run[k].cs| == |run[0].cs| && Mutual(run[k], i, j) && Counted(run[k].cs[i], i)
  {
    hide Inv, Step;
    if k > 0 {
      hide Mutual, Counted;
      RunMutual(run, n, k - 1, i, j);
      RunInv(run, n, k - 1);
      assert Next(run[k-1], run[k-1+1]);
      var a :| Step(run[k-1], run[k], a);
      StepMutual(run[k-1], run[k], a, n, i, j);
      StepCounted(run[k-1], run[k], a, i);
    }
  }

  /** Main result on the meetings: two creatures that meet are told of each other.  At
      any time they were told equally often, except that the second one of the pair in
      the place may be one behind.  When all have left, each has met any other one as
      often as the other way round, and itself never. */
  lemma MeetingsMutual(run: seq<State>, n: nat, k: nat, i: nat, j: nat)
    requires IsRun(run, n) && k < |run| && i < |run[0].cs| && j < |run[0].cs|
    ensures |run[k].cs| == |run[0].cs|
    ensures var s := run[k];
      && (!s.place.Pair? || s.place.stage != 1 ==> Told(s, i, j) == Told(s, j, i))
      && s.cs[i].meetings == |s.cs[i].mates| && s.cs[i].mates[i] == 0
      && (Finished(s) ==> s.cs[i].mates[j] == s.cs[j].mates[i])
  {
    hide Init, Next, Sum;
    RunMutual(run, n, k, i, j);
    RunInv(run, n, k);
    var s := run[k];
    assert CreatureOk(s, i);
    if Finished(s) {
      assert s.cs[i].phase.Done? && s.cs[j].phase.Done?;
      PlaceIdleWhenDone(s, n);
    }
  }

  // ----------------------------------------------------------- termination

  function Effort(c: Creature): int
  {
    match c.phase
    case Done => 0
    case Answered(NoMore) => 1
    case Asked => if c.request.New? then 3 else 2
    case Ready => 4
    case Answered(Mate(_)) => 5
  }

  function PlaceEffort(p: Place): int
  {
    match p
    case Pair(_, _, stage) => if stage == 0 then 10 else if stage == 1 then 6 else if stage == 2 then 2 else 1
    case _ => 0
  }

  /** Meetings that have not begun. */
  function Outstanding(s: State): int
  {
    s.left - if s.place.Pair? && s.place.stage < 3 then 1 else 0
  }

  function Rank(s: State): int { Sum(s.cs, Effort) + PlaceEffort(s.place) + 10 * Outstanding(s) }

  lemma RankDecreases(s: State, s': State, a: Action, n: nat)
    requires Inv(s, n) && Step(s, s', a)
    ensures Rank(s') < Rank(s)
  {
    hide Sum;
    match a
    case Ask(k) => SumUpdate(s.cs, k, s'.cs[k], Effort);
    case Take(k) =>
      assert CreatureOk(s, k);
      SumUpdate(s.cs, k, s'.cs[k], Effort);
    case Receive(k) => SumUpdate(s.cs, k, s'.cs[k], Effort);
    case Proceed =>
      match s.place
      case Refuse(k) => SumUpdate(s.cs, k, s'.cs[k], Effort);
      case Pair(i, j, stage) =>
        assert CreatureOk(s, i) && CreatureOk(s, j);
        if stage % 2 == 0 { SumUpdate(s.cs, i, s'.cs[i], Effort); }
        else { SumUpdate(s.cs, j, s'.cs[j], Effort); }
  }

  lemma RankNatural(s: State, n: nat)
    requires Inv(s, n)
    ensures Rank(s) >= 0
  {
    hide Sum;
    SumBound(s.cs, Effort, 0, 5);
  }

  /** With two creatures or more the game never gets stuck. */
  lemma GameProgress(s: State, n: nat) returns (a: Action, s': State)
    requires Inv(s, n) && |s.cs| >= 2 && !Finished(s)
    ensures Step(s, s', a)
  {
    hide Sum;
    if !s.place.Idle? {
      a := Proceed;
      s' := PlaceProgress(s);
    } else if k :| 0 <= k < |s.cs| && s.cs[k].phase.Ready? {
      a, s' := Ask(k), Put(s, k, s.cs[k].(phase := Asked, request := New));
    } else if k :| 0 <= k < |s.cs| && s.cs[k].phase.Answered? {
      var c := s.cs[k];
      a := Receive(k);
      s' := match c.phase.answer
        case Mate(id) =>
          Put(s, k, c.(phase := Ready, meetings := c.meetings + 1, mates := c.mates + multiset{id},
                       withSelf := if id == k then c.withSelf + 1 else c.withSelf))
        case NoMore => Put(s, k, c.(phase := Done));
    } else {
      var k := NewRequest(s, n);
      a := Take(k);
      s' := if s.left == 0 then Put(s, k, s.cs[k].(request := NoRequest)).(place := Refuse(k))
            else if s.first == -1 then Put(s, k, s.cs[k].(request := Held)).(first := k)
            else Put(s, k, s.cs[k].(request := Held)).(place := Pair(s.first, k, 0));
    }
  }

  lemma PlaceProgress(s: State) returns (s': State)
    requires PlaceOk(s) && !s.place.Idle?
    ensures PlaceStep(s, s')
  {
    match s.place
    case Refuse(k) => s' := Put(s, k, s.cs[k].(phase := Answered(NoMore))).(place := Idle);
    case Pair(i, j, stage) =>
      s' := match stage
        case 0 => Put(s, i, Reply(s.cs[i], Mate(j))).(place := Pair(i, j, 1))
        case 1 => Put(s, j, Reply(s.cs[j], Mate(i))).(place := Pair(i, j, 2))
        case 2 => Put(s, i, DropSlot(s.cs[i])).(place := Pair(i, j, 3), first := -1, left := s.left - 1)
        case _ => Put(s, j, DropSlot(s.cs[j])).(place := Idle);
  }

  /** When everybody waits for the place, one request has not been looked at. */
  lemma NewRequest(s: State, n: nat) returns (k: nat)
    requires Inv(s, n) && |s.cs| >= 2 && !Finished(s) && s.place.Idle?
    requires forall k :: 0 <= k < |s.cs| ==> !s.cs[k].phase.Ready? && !s.cs[k].phase.Answered?
    ensures k < |s.cs| && s.cs[k].request.New?
  {
    hide Sum;
    k :| k < |s.cs| && !s.cs[k].phase.Done?;
    assert CreatureOk(s, k);
    if s.cs[k].request.Held? {
      k := if k == 0 then 1 else 0;
      assert CreatureOk(s, k);
    }
  }

  lemma LoneStep(s: State, s': State, a: Action, n: nat)
    requires Inv(s, n) && |s.cs| == 1 && s.left == n > 0 && Step(s, s', a)
    ensures s'.left == n
  {
    StepInv(s, s', a, n);
  }

  /** In every run a lone creature waits for ever, unless there is nothing to wait for. */
  lemma {:induction false} LoneCreatureWaits(run: seq<State>, n: nat, k: nat)
    requires IsRun(run, n) && |run[0].cs| == 1 && n > 0 && k < |run|
    ensures run[k].left == n && !Finished(run[k]) && |run[k].cs| == 1 && run[k].cs[0].meetings == 0
  {
    hide Step, Sum;
    RunInv(run, n, k);
    if k > 0 {
      LoneCreatureWaits(run, n, k - 1);
      RunInv(run, n, k - 1);
      assert Next(run[k-1], run[k-1+1]);
      var a :| Step(run[k-1], run[k], a);
      LoneStep(run[k-1], run[k], a, n);
    }
    LoneState(run[k], n);
  }

  lemma LoneState(s: State, n: nat)
    requires Inv(s, n) && |s.cs| == 1 && s.left == n > 0
    ensures !Finished(s) && s.cs[0].meetings == 0
  {
    assert CreatureOk(s, 0);
    assert Sum(s.cs, Met) == Met(s.cs[0]) + Sum(s.cs[1..], Met) && s.cs[1..] == [];
  }

  lemma {:induction false} RunBounded(run: seq<State>, n: nat, k: nat)
    requires IsRun(run, n) && k < |run|
    ensures Rank(run[k]) + k <= Rank(run[0])
  {
    hide Inv, Init, Rank;
    if k > 0 {
      RunBounded(run, n, k - 1);
      RunInv(run, n, k - 1);
      assert Next(run[k-1], run[k-1+1]);
      var a :| Step(run[k-1], run[k], a);
      RankDecreases(run[k-1], run[k], a, n);
    }
  }

  /** Main result on termination: every run is finite, and a run of two or more
      creatures that cannot go on has ended with the right total. */
  lemma GameEnds(run: seq<State>, n: nat)
    requires IsRun(run, n)
    ensures |run| <= Rank(run[0]) + 1
    ensures |run[0].cs| >= 2 && Stuck(run[|run|-1]) ==>
      Finished(run[|run|-1]) && Sum(run[|run|-1].cs, Meetings) == 2 * n
  {
    hide Init, Sum, Step;
    RunBounded(run, n, |run| - 1);
    RunInv(run, n, |run| - 1);
    var s := run[|run|-1];
    RankNatural(s, n);
    if |run[0].cs| >= 2 {
      if !Finished(s) {
        var a, s' := GameProgress(s, n);
        assert Next(s, s');
      } else {
        GameTotal(run, n);
      }
    }
  }
}
