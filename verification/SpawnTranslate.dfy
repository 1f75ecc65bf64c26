/** The translation of descriptor actions into posix_spawn file actions
    (`netsys_posix_spawn_nat` in src/netsys/netsys_c_spawn.c), against the ideal
    interpreter that the fork/exec version refines.
 */
module SpawnTranslate {
  import opened SpawnActions

  datatype FileAction = AddClose(fd: int) | AddDup2(src: int, dst: int)

  /** posix_spawn performs one file action in the child.  For equal descriptors the
      current POSIX standard has it clear FD_CLOEXEC. */
  function PerformFile(u: Fds, f: FileAction, nofile: nat): StepResult
  {
    match f
    case AddClose(fd) => if fd in u then Some(u - {fd}) else None
    case AddDup2(src, dst) =>
      if src !in u || !InRange(dst, nofile) then None
      else Some(u[dst := Entry(u[src].file, false)])
  }

  function RunFile(u: Fds, fs: seq<FileAction>, nofile: nat): StepResult
  {
    if fs == [] then Some(u)
    else
      match RunFile(u, fs[..|fs|-1], nofile)
      case None => None
      case Some(v) => PerformFile(v, fs[|fs|-1], nofile)
  }

  lemma {:induction false} RunFileConcat(u: Fds, a: seq<FileAction>, b: seq<FileAction>, nofile: nat)
    ensures RunFile(u, a + b, nofile) ==
      match RunFile(u, a, nofile)
      case None => None
      case Some(v) => RunFile(v, b, nofile)
  {
    if b == [] {
      assert a + b == a;
    } else {
      RunFileConcat(u, a, b[..|b|-1], nofile);
      assert (a + b)[..|a + b|-1] == a + b[..|b|-1];
    }
  }

  // --------------------------------------------------------- translation

  /** adddup2 and addclose refuse descriptors that cannot exist. */
  datatype Translation = Listed(fs: seq<FileAction>) | Refused

  function CloseOne(known: int, fd: int): seq<FileAction> { [AddDup2(known, fd), AddClose(fd)] }

  function CloseMany(known: int, keep: seq<bool>, k: nat): seq<FileAction>
  {
    if k == 0 then []
    else CloseMany(known, keep, k - 1) + if Kept(keep, k - 1) || k - 1 == known then [] else CloseOne(known, k - 1)
  }

  function Translate(a: Action, known: int, nofile: nat): Translation
  {
    match a
    case Close(fd) =>
      if fd == known then Listed([]) else if InRange(fd, nofile) then Listed([AddClose(fd)]) else Refused
    case CloseIgnore(fd) =>
      if fd == known then Listed([]) else if InRange(fd, nofile) then Listed(CloseOne(known, fd)) else Refused
    case CloseExcept(keep) => Listed(CloseMany(known, keep, nofile))
    case Dup2(src, dst) =>
      if InRange(src, nofile) && InRange(dst, nofile) then Listed([AddDup2(src, dst)]) else Refused
  }

  function TranslateAll(actions: seq<Action>, known: int, nofile: nat): Translation
  {
    if actions == [] then Listed([])
    else
      var front := TranslateAll(actions[..|actions|-1], known, nofile);
      var last := Translate(actions[|actions|-1], known, nofile);
      if front.Refused? || last.Refused? then Refused else Listed(front.fs + last.fs)
  }

  /** posix_spawn_file_actions_adddup2 and _addclose */
  method Add(fs: seq<FileAction>, f: FileAction, nofile: nat) returns (ok: bool, fs': seq<FileAction>)
    ensures ok <==> if f.AddClose? then InRange(f.fd, nofile) else InRange(f.src, nofile) && InRange(f.dst, nofile)
    ensures fs' == if ok then fs + [f] else fs
  {
    ok := if f.AddClose? then InRange(f.fd, nofile) else InRange(f.src, nofile) && InRange(f.dst, nofile);
    fs' := if ok then fs + [f] else fs;
  }

  /** The loop over all descriptors; no call in it fails. */
  method AddExcept(fs: seq<FileAction>, keep: seq<bool>, known: int, nofile: nat) returns (fs': seq<FileAction>)
    requires InRange(known, nofile)
    ensures fs' == fs + CloseMany(known, keep, nofile)
  {
    var ok := true;
    fs' := fs;
    for k := 0 to nofile
      invariant ok && fs' == fs + CloseMany(known, keep, k)
    {
      if k >= |keep| || !keep[k] {
        if k != known {
          ok, fs' := Add(fs', AddDup2(known, k), nofile);
          ok, fs' := Add(fs', AddClose(k), nofile);
        }
      }
    }
  }

  /** The switch over one action. */
  method AddAction(fs: seq<FileAction>, a: Action, known: int, nofile: nat)
    returns (ok: bool, fs': seq<FileAction>)
    requires InRange(known, nofile)
    ensures ok <==> Translate(a, known, nofile).Listed?
    ensures ok ==> fs' == fs + Translate(a, known, nofile).fs
  {
    hide CloseMany;
    ok, fs' := true, fs;
    match a
    case CloseIgnore(fd) =>
      if fd != known {
        ok, fs' := Add(fs', AddDup2(known, fd), nofile);
        if ok { ok, fs' := Add(fs', AddClose(fd), nofile); }
      }
    case Close(fd) =>
      if fd != known { ok, fs' := Add(fs', AddClose(fd), nofile); }
    case CloseExcept(keep) =>
      fs' := AddExcept(fs, keep, known, nofile);
    case Dup2(src, dst) =>
      ok, fs' := Add(fs', AddDup2(src, dst), nofile);
  }

  /** The loop over the list of actions. */
  method AddActions(actions: seq<Action>, known: int, nofile: nat) returns (r: Translation)
    requires InRange(known, nofile)
    ensures r == TranslateAll(actions, known, nofile)
  {
    hide Translate;
    var fs := [];
    assert actions[..0] == [];
    for k := 0 to |actions|
      invariant TranslateAll(actions[..k], known, nofile) == Listed(fs)
    {
      assert actions[..k+1][..k] == actions[..k];
      var ok;
      ok, fs := AddAction(fs, actions[k], known, nofile);
      if !ok {
        RefusedStays(actions, k + 1, known, nofile);
        return Refused;
      }
    }
    assert actions[..|actions|] == actions;
    return Listed(fs);
  }

  lemma {:induction false} RefusedStays(actions: seq<Action>, k: nat, known: int, nofile: nat)
    requires k <= |actions| && TranslateAll(actions[..k], known, nofile).Refused?
    ensures TranslateAll(actions, known, nofile).Refused?
  {
    if k < |actions| {
      assert actions[..|actions|-1][..k] == actions[..k];
      RefusedStays(actions[..|actions|-1], k, known, nofile);
    } else {
      assert actions[..k] == actions;
    }
  }

  // ----------------------------------------------------------- one action

  /** The table inside posix_spawn: the ideal one plus the directory that is opened
      as a valid descriptor, close-on-exec, at a descriptor nobody else uses. */
  ghost predicate Beside(t: Fds, u: Fds, known: int, dot: nat)
  {
    known !in t && u == t[known := Entry(dot, true)]
  }

  /** An action may take the helper's descriptor over.  Then both tables are the same,
      and the file that is there now stays open over exec. */
  ghost predicate Matches(t: Fds, u: Fds, known: int, dot: nat)
  {
    Beside(t, u, known, dot) || (known in t && u == t && !t[known].cloexec)
  }

  /** What the translation of one action does. */
  ghost function SpawnStep(u: Fds, a: Action, known: int, nofile: nat): StepResult
  {
    match Translate(a, known, nofile)
    case Refused => None
    case Listed(fs) => RunFile(u, fs, nofile)
  }

  ghost predicate Agree(i: StepResult, s: StepResult, known: int, dot: nat)
  {
    if i.None? then s.None? else s.Some? && Matches(i.t, s.t, known, dot)
  }

  /** What the program that is started can tell: both fail, or both succeed and exec
      leaves the same table. */
  ghost predicate SameSpawn(i: StepResult, s: StepResult)
  {
    if i.None? then s.None? else s.Some? && Exec(i.t) == Exec(s.t)
  }

  /** When the translation of one action does what the action says, in terms of the
      table the action is applied to. */
  ghost predicate Guard(t: Fds, a: Action, known: int, nofile: nat)
  {
    match a
    case Close(fd) => fd != known
    case CloseIgnore(fd) => InRange(fd, nofile) && (fd == known ==> known !in t)
    case CloseExcept(keep) => known in t ==> Kept(keep, known)
    case Dup2(src, dst) =>
      if !InRange(dst, nofile) then true
      else if src !in t then src != known
      else src == dst ==> !t[src].cloexec
  }

  lemma RunTwo(u: Fds, f: FileAction, g: FileAction, nofile: nat)
    ensures RunFile(u, [f], nofile) == PerformFile(u, f, nofile)
    ensures RunFile(u, [f, g], nofile) ==
      match PerformFile(u, f, nofile)
      case None => None
      case Some(v) => PerformFile(v, g, nofile)
  {
    assert [f][..0] == [];
    assert RunFile(u, [f][..0], nofile) == Some(u);
    assert [f, g][..1] == [f];
  }

  /** dup2 then close: the descriptor is closed whether it was open or not. */
  lemma CloseOneCloses(u: Fds, known: int, fd: int, nofile: nat)
    requires known in u && fd != known && InRange(fd, nofile)
    ensures RunFile(u, CloseOne(known, fd), nofile) == Some(u - {fd})
  {
    RunTwo(u, AddDup2(known, fd), AddClose(fd), nofile);
  }

  /** What is left of a table when the first `k` descriptors have been treated. */
  ghost function Left(u: Fds, known: int, keep: seq<bool>, k: nat): Fds
  {
    map fd | fd in u && (!(0 <= fd < k) || Kept(keep, fd) || fd == known) :: u[fd]
  }

  lemma LeftNext(u: Fds, known: int, keep: seq<bool>, k: nat)
    ensures k == 0 ==> Left(u, known, keep, k) == u
    ensures k > 0 ==>
      var front := Left(u, known, keep, k - 1);
      Left(u, known, keep, k) == if Kept(keep, k - 1) || k - 1 == known then front else front - {k - 1}
    ensures known in u ==> known in Left(u, known, keep, k)
  {
  }

  lemma {:induction false} CloseManyCloses(u: Fds, known: int, keep: seq<bool>, k: nat, nofile: nat)
    requires known in u && k <= nofile
    ensures RunFile(u, CloseMany(known, keep, k), nofile) == Some(Left(u, known, keep, k))
  {
    LeftNext(u, known, keep, k);
    if k > 0 {
      hide RunFile, Left;
      CloseManyCloses(u, known, keep, k - 1, nofile);
      var v := RunFile(u, CloseMany(known, keep, k - 1), nofile).t;
      if Kept(keep, k - 1) || k - 1 == known {
        assert CloseMany(known, keep, k - 1) + [] == CloseMany(known, keep, k - 1);
      } else {
        RunFileConcat(u, CloseMany(known, keep, k - 1), CloseOne(known, k - 1), nofile);
        hide CloseMany;
        CloseOneCloses(v, known, k - 1, nofile);
      }
    }
  }

  /** Tables that differ after exec, or match. */
  ghost predicate Decided(i: StepResult, s: StepResult, known: int, dot: nat, good: bool)
  {
    (Agree(i, s, known, dot) <==> good) && (SameSpawn(i, s) <==> good)
  }

  lemma MatchesExec(t: Fds, u: Fds, known: int, dot: nat)
    requires Matches(t, u, known, dot)
    ensures Exec(t) == Exec(u)
  {
  }

  lemma DifferAt(t: Fds, u: Fds, fd: int)
    requires fd in Exec(t) <==> fd !in Exec(u)
    ensures Exec(t) != Exec(u)
  {
  }

  lemma CloseDecided(t: Fds, u: Fds, fd: int, known: int, dot: nat, nofile: nat)
    requires Matches(t, u, known, dot) && TableOk(t, nofile) && InRange(known, nofile)
    ensures Decided(IdealStep(t, Close(fd), nofile), SpawnStep(u, Close(fd), known, nofile), known, dot,
      Guard(t, Close(fd), known, nofile))
  {
    RunTwo(u, AddClose(fd), AddClose(fd), nofile);
    hide RunFile;
    var i, s := IdealStep(t, Close(fd), nofile), SpawnStep(u, Close(fd), known, nofile);
    if fd == known {
      RunNothing(u, nofile);
      if known in t { DifferAt(u, t - {known}, known); }
    } else if i.Some? {
      assert Matches(i.t, s.t, known, dot);
      MatchesExec(i.t, s.t, known, dot);
    }
  }

  lemma IgnoreDecided(t: Fds, u: Fds, fd: int, known: int, dot: nat, nofile: nat)
    requires Matches(t, u, known, dot) && TableOk(t, nofile) && InRange(known, nofile)
    ensures Decided(IdealStep(t, CloseIgnore(fd), nofile), SpawnStep(u, CloseIgnore(fd), known, nofile), known, dot,
      Guard(t, CloseIgnore(fd), known, nofile))
  {
    if fd == known {
      if known in t { DifferAt(u, t - {known}, known); } else { assert t - {fd} == t; MatchesExec(t, u, known, dot); }
    } else if InRange(fd, nofile) {
      CloseOneCloses(u, known, fd, nofile);
      hide RunFile;
      assert Matches(t - {fd}, u - {fd}, known, dot);
      MatchesExec(t - {fd}, u - {fd}, known, dot);
    }
  }

  lemma ExceptDecided(t: Fds, u: Fds, keep: seq<bool>, known: int, dot: nat, nofile: nat)
    requires Matches(t, u, known, dot) && TableOk(t, nofile) && InRange(known, nofile)
    ensures Decided(IdealStep(t, CloseExcept(keep), nofile), SpawnStep(u, CloseExcept(keep), known, nofile), known, dot,
      Guard(t, CloseExcept(keep), known, nofile))
  {
    hide RunFile, CloseMany;
    CloseManyCloses(u, known, keep, nofile, nofile);
    var v := map fd | fd in t && Kept(keep, fd) :: t[fd];
    var w := Left(u, known, keep, nofile);
    if known !in t {
      assert v[known := Entry(dot, true)] == w;
      MatchesExec(v, w, known, dot);
    } else if Kept(keep, known) {
      assert v == w;
    } else {
      DifferAt(w, v, known);
    }
  }

  lemma Dup2Decided(t: Fds, u: Fds, src: int, dst: int, known: int, dot: nat, nofile: nat)
    requires Matches(t, u, known, dot) && TableOk(t, nofile) && InRange(known, nofile)
    ensures Decided(IdealStep(t, Dup2(src, dst), nofile), SpawnStep(u, Dup2(src, dst), known, nofile), known, dot,
      Guard(t, Dup2(src, dst), known, nofile))
  {
    RunTwo(u, AddDup2(src, dst), AddDup2(src, dst), nofile);
    hide RunFile;
    var i, s := IdealStep(t, Dup2(src, dst), nofile), SpawnStep(u, Dup2(src, dst), known, nofile);
    if InRange(dst, nofile) && src in t {
      if src == dst && t[src].cloexec {
        DifferAt(s.t, i.t, dst);
      } else {
        assert Matches(i.t, s.t, known, dot);
        MatchesExec(i.t, s.t, known, dot);
      }
    }
  }

  /** The translation of one action agrees with the action exactly under `Guard`, for the
      tables during the spawn and for what the started program finds. */
  lemma StepAgrees(t: Fds, u: Fds, a: Action, known: int, dot: nat, nofile: nat)
    requires Matches(t, u, known, dot) && TableOk(t, nofile) && InRange(known, nofile)
    ensures Agree(IdealStep(t, a, nofile), SpawnStep(u, a, known, nofile), known, dot) <==> Guard(t, a, known, nofile)
    ensures SameSpawn(IdealStep(t, a, nofile), SpawnStep(u, a, known, nofile)) <==> Guard(t, a, known, nofile)
  {
    hide Matches, Guard, IdealStep, SpawnStep, Agree, SameSpawn;
    match a
    case Close(fd) => CloseDecided(t, u, fd, known, dot, nofile);
    case CloseIgnore(fd) => IgnoreDecided(t, u, fd, known, dot, nofile);
    case CloseExcept(keep) => ExceptDecided(t, u, keep, known, dot, nofile);
    case Dup2(src, dst) => Dup2Decided(t, u, src, dst, known, dot, nofile);
  }

  /** One failing input of each kind.  The helper is descriptor 3; in the last case an
      action has put a file there. */
  lemma Disagreements(dot: nat)
    ensures var t: Fds := map[0 := Entry(1, true)];
      var u, w := t[3 := Entry(dot, true)], t[3 := Entry(1, false)];
      && IdealStep(t, Close(3), 8) == None && SpawnStep(u, Close(3), 3, 8) == Some(u)
      && IdealStep(t, CloseIgnore(9), 8) == Some(t) && SpawnStep(u, CloseIgnore(9), 3, 8) == None
      && IdealStep(t, Dup2(3, 4), 8) == None && SpawnStep(u, Dup2(3, 4), 3, 8).Some?
      && IdealStep(t, Dup2(0, 0), 8) == Some(t) && SpawnStep(u, Dup2(0, 0), 3, 8) == Some(u[0 := Entry(1, false)])
      && IdealStep(w, CloseIgnore(3), 8) == Some(t) && SpawnStep(w, CloseIgnore(3), 3, 8) == Some(w)
  {
    var t: Fds := map[0 := Entry(1, true)];
    var u, w := t[3 := Entry(dot, true)], t[3 := Entry(1, false)];
    RunTwo(u, AddDup2(3, 4), AddDup2(3, 4), 8);
    RunTwo(u, AddDup2(0, 0), AddDup2(0, 0), 8);
    hide RunFile;
    assert t - {9} == t && w - {3} == t;
    assert RunFile(u, [], 8) == Some(u) && RunFile(w, [], 8) == Some(w) by { RunNothing(u, 8); RunNothing(w, 8); }
  }

  lemma RunNothing(u: Fds, nofile: nat)
    ensures RunFile(u, [], nofile) == Some(u)
  {
  }

  // ------------------------------------------------------------ whole lists

  /** Every action that the ideal interpreter reaches is translated faithfully. */
  ghost predicate Guarded(t: Fds, actions: seq<Action>, known: int, nofile: nat)
  {
    forall k :: 0 <= k < |actions| ==>
      var before := IdealRun(t, actions[..k], nofile);
      before.Ran? ==> Guard(before.t, actions[k], known, nofile)
  }

  /** `netsys_posix_spawn_nat` on a whole list. */
  ghost function SpawnRun(u: Fds, actions: seq<Action>, known: int, nofile: nat): StepResult
  {
    match TranslateAll(actions, known, nofile)
    case Refused => None
    case Listed(fs) => RunFile(u, fs, nofile)
  }

  lemma SpawnRunNext(u: Fds, actions: seq<Action>, a: Action, known: int, nofile: nat)
    ensures match SpawnRun(u, actions, known, nofile)
      case None => SpawnRun(u, actions + [a], known, nofile).None?
      case Some(v) => SpawnRun(u, actions + [a], known, nofile) == SpawnStep(v, a, known, nofile)
  {
    hide RunFile, Translate;
    assert (actions + [a])[..|actions|] == actions;
    var front, last := TranslateAll(actions, known, nofile), Translate(a, known, nofile);
    if front.Listed? && last.Listed? {
      RunFileConcat(u, front.fs, last.fs, nofile);
    }
  }

  lemma {:induction false} IdealRunOk(t: Fds, actions: seq<Action>, nofile: nat)
    requires TableOk(t, nofile)
    ensures IdealRun(t, actions, nofile).Ran? ==> TableOk(IdealRun(t, actions, nofile).t, nofile)
  {
    if actions != [] { IdealRunOk(t, actions[..|actions|-1], nofile); }
  }

  lemma GuardedFront(t: Fds, actions: seq<Action>, a: Action, known: int, nofile: nat)
    requires Guarded(t, actions + [a], known, nofile)
    ensures Guarded(t, actions, known, nofile)
    ensures var before := IdealRun(t, actions, nofile);
      before.Ran? ==> Guard(before.t, a, known, nofile)
  {
    hide IdealRun, Guard;
    var more := actions + [a];
    assert forall k :: 0 <= k < |actions| ==> actions[..k] == more[..k] && actions[k] == more[k];
    assert more[..|actions|] == actions;
  }

  /** Main result on the translation: for a guarded list, posix_spawn succeeds
      exactly when the ideal interpreter does, and exec leaves the same table. */
  lemma {:induction false} SpawnAgrees(t: Fds, u: Fds, actions: seq<Action>, known: int, dot: nat, nofile: nat)
    requires Matches(t, u, known, dot) && TableOk(t, nofile) && InRange(known, nofile)
    requires Guarded(t, actions, known, nofile)
    ensures var i, s := IdealRun(t, actions, nofile), SpawnRun(u, actions, known, nofile);
      && (i.Ran? <==> s.Some?)
      && (i.Ran? ==> Matches(i.t, s.t, known, dot) && Exec(i.t) == Exec(s.t))
  {
    if actions == [] {
      MatchesExec(t, u, known, dot);
    } else {
      var front, a := actions[..|actions|-1], actions[|actions|-1];
      hide SpawnRun, SpawnStep, IdealStep, Guarded, Exec, Matches, Guard, SameSpawn;
      assert actions == front + [a];
      GuardedFront(t, front, a, known, nofile);
      SpawnAgrees(t, u, front, known, dot, nofile);
      SpawnRunNext(u, front, a, known, nofile);
      var before := IdealRun(t, front, nofile);
      if before.Ran? {
        IdealRunOk(t, front, nofile);
        StepAgrees(before.t, SpawnRun(u, front, known, nofile).t, a, known, dot, nofile);
        if IdealRun(t, actions, nofile).Ran? {
          MatchesExec(IdealRun(t, actions, nofile).t, SpawnRun(u, actions, known, nofile).t, known, dot);
        }
      }
    }
  }

  /** A condition on the list alone: it does not name the helper in a close or dup2,
      dup2 gets two different descriptors, and close-ignore real ones. */
  ghost predicate Plain(a: Action, known: int, nofile: nat)
  {
    match a
    case Close(fd) => fd != known
    case CloseIgnore(fd) => InRange(fd, nofile)
    case CloseExcept(_) => true
    case Dup2(src, dst) => src != known && dst != known && src != dst
  }

  /** Another one: the list may duplicate onto the helper, and never closes it. */
  ghost predicate Taking(a: Action, known: int, nofile: nat)
  {
    match a
    case Close(fd) => fd != known
    case CloseIgnore(fd) => InRange(fd, nofile) && fd != known
    case CloseExcept(keep) => Kept(keep, known)
    case Dup2(src, dst) => src != known && src != dst
  }

  /** Without the helper in it, a table keeps it out under plain actions. */
  lemma {:induction false} PlainStays(t: Fds, actions: seq<Action>, known: int, nofile: nat)
    requires known !in t && forall k :: 0 <= k < |actions| ==> Plain(actions[k], known, nofile)
    ensures IdealRun(t, actions, nofile).Ran? ==> known !in IdealRun(t, actions, nofile).t
  {
    if actions != [] {
      PlainStays(t, actions[..|actions|-1], known, nofile);
      assert Plain(actions[|actions|-1], known, nofile);
    }
  }

  lemma PlainIsGuarded(t: Fds, actions: seq<Action>, known: int, nofile: nat)
    requires known !in t && forall k :: 0 <= k < |actions| ==> Plain(actions[k], known, nofile)
    ensures Guarded(t, actions, known, nofile)
  {
    hide IdealRun;
    forall k | 0 <= k < |actions|
      ensures var before := IdealRun(t, actions[..k], nofile);
        before.Ran? ==> Guard(before.t, actions[k], known, nofile)
    {
      assert Plain(actions[k], known, nofile);
      PlainStays(t, actions[..k], known, nofile);
    }
  }

  lemma TakingIsGuarded(t: Fds, actions: seq<Action>, known: int, nofile: nat)
    requires forall k :: 0 <= k < |actions| ==> Taking(actions[k], known, nofile)
    ensures Guarded(t, actions, known, nofile)
  {
    forall k | 0 <= k < |actions|
      ensures var before := IdealRun(t, actions[..k], nofile);
        before.Ran? ==> Guard(before.t, actions[k], known, nofile)
    {
      assert Taking(actions[k], known, nofile);
    }
  }

  /** Main result: the two ways of spawning succeed together and leave the same
      descriptors open.  `after` is the table of the fork/exec child right before exec. */
  lemma SameAfterExec(parent: Fds, actions: seq<Action>, nofile: nat,
                      known: int, dot: nat, ctrl: int, pipe: nat, after: Fds)
    requires TableOk(parent, nofile) && InRange(known, nofile) && known !in parent
    requires Guarded(parent, actions, known, nofile)
    requires IdealRun(parent, actions, nofile).Ran? ==>
      && ctrl !in IdealRun(parent, actions, nofile).t
      && after == IdealRun(parent, actions, nofile).t[ctrl := Entry(pipe, true)]
    ensures var s := SpawnRun(parent[known := Entry(dot, true)], actions, known, nofile);
      && (s.Some? <==> IdealRun(parent, actions, nofile).Ran?)
      && (s.Some? ==> Exec(s.t) == Exec(after))
  {
    hide IdealRun, SpawnRun, Guarded;
    SpawnAgrees(parent, parent[known := Entry(dot, true)], actions, known, dot, nofile);
  }
}
