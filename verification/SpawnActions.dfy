/** The descriptor actions of src/netsys/netsys_c_spawn.c.  `netsys_spawn_nat`
    performs them between fork and exec, while it hides the control pipe that
    reports errors to the parent.  `netsys_posix_spawn_nat` translates the same
    list into file actions for posix_spawn.
 */
module SpawnActions {

  /** An open descriptor: which file it refers to, and its FD_CLOEXEC flag. */
  datatype Entry = Entry(file: nat, cloexec: bool)

  type Fds = map<int, Entry>

  datatype Action = Close(fd: int) | CloseIgnore(fd: int) | CloseExcept(keep: seq<bool>) | Dup2(src: int, dst: int)

  datatype Errno = Ok | EBADF | EMFILE

  predicate InRange(fd: int, nofile: nat) { 0 <= fd < nofile }

  ghost predicate TableOk(t: Fds, nofile: nat) { forall fd :: fd in t ==> InRange(fd, nofile) }

  /** What exec leaves open. */
  ghost function Exec(t: Fds): Fds { map fd | fd in t && !t[fd].cloexec :: t[fd] }

  // ------------------------------------------------- the ideal interpreter

  datatype Outcome = Ran(t: Fds) | Failed(at: nat)

  predicate Kept(keep: seq<bool>, fd: int) { 0 <= fd < |keep| && keep[fd] }

  /** What an action is documented to do to a table without a control pipe.  None
      means EBADF. */
  datatype StepResult = Some(t: Fds) | None

  function IdealStep(t: Fds, a: Action, nofile: nat): StepResult
  {
    match a
    case Close(fd) => if fd in t then Some(t - {fd}) else None
    case CloseIgnore(fd) => Some(t - {fd})
    case CloseExcept(keep) => Some(map fd | fd in t && Kept(keep, fd) :: t[fd])
    case Dup2(src, dst) =>
      if src !in t || !InRange(dst, nofile) then None
      else if src == dst then Some(t)
      else Some(t[dst := Entry(t[src].file, false)])
  }

  function IdealRun(t: Fds, actions: seq<Action>, nofile: nat): Outcome
  {
    if actions == [] then Ran(t)
    else
      match IdealRun(t, actions[..|actions|-1], nofile)
      case Failed(at) => Failed(at)
      case Ran(u) =>
        match IdealStep(u, actions[|actions|-1], nofile)
        case Some(v) => Ran(v)
        case None => Failed(|actions| - 1)
  }

  lemma IdealRunNext(t: Fds, actions: seq<Action>, k: nat, nofile: nat)
    requires k < |actions|
    ensures IdealRun(t, actions[..k+1], nofile) ==
      match IdealRun(t, actions[..k], nofile)
      case Failed(at) => Failed(at)
      case Ran(u) =>
        match IdealStep(u, actions[k], nofile)
        case Some(v) => Ran(v)
        case None => Failed(k)
  {
    assert actions[..k+1][..k] == actions[..k];
  }

  /** A run that has failed stays failed. */
  lemma {:induction false} IdealRunFails(t: Fds, actions: seq<Action>, k: nat, nofile: nat)
    requires k <= |actions| && IdealRun(t, actions[..k], nofile).Failed?
    ensures IdealRun(t, actions, nofile) == IdealRun(t, actions[..k], nofile)
    decreases |actions| - k
  {
    if k < |actions| {
      IdealRunNext(t, actions, k, nofile);
      IdealRunFails(t, actions, k + 1, nofile);
    } else {
      assert actions[..k] == actions;
    }
  }

  // -------------------------------------------------- where a file comes from

  /** Where the file of a descriptor comes from, looking back from the end of the list:
      the descriptor that had it before, and whether it was duplicated since. */
  datatype Origin = Nowhere | From(fd: int, copied: bool)

  function OriginOf(actions: seq<Action>, fd: int): Origin
    decreases |actions|
  {
    if actions == [] then From(fd, false)
    else
      var front := actions[..|actions|-1];
      match actions[|actions|-1]
      case Close(k) => if k == fd then Nowhere else OriginOf(front, fd)
      case CloseIgnore(k) => if k == fd then Nowhere else OriginOf(front, fd)
      case CloseExcept(keep) => if 0 <= fd < |keep| && keep[fd] then OriginOf(front, fd) else Nowhere
      case Dup2(src, dst) =>
        if dst != fd || src == dst then OriginOf(front, fd)
        else match OriginOf(front, src)
             case Nowhere => Nowhere
             case From(k, _) => From(k, true)
  }

  /** The entry that a descriptor has after the list, if it has one. */
  predicate IsOpen(t: Fds, o: Origin) { o.From? && o.fd in t }

  function EntryOf(t: Fds, o: Origin): Entry
    requires IsOpen(t, o)
  {
    Entry(t[o.fd].file, t[o.fd].cloexec && !o.copied)
  }

  ghost predicate TableFrom(t: Fds, actions: seq<Action>, u: Fds)
  {
    forall fd {:trigger fd in u} {:trigger OriginOf(actions, fd)} ::
      && (fd in u <==> IsOpen(t, OriginOf(actions, fd)))
      && (fd in u ==> u[fd] == EntryOf(t, OriginOf(actions, fd)))
  }

  /** Can the action with number `k` be done? */
  predicate CanDo(t: Fds, actions: seq<Action>, k: nat, nofile: nat)
    requires k < |actions|
  {
    match actions[k]
    case Close(fd) => IsOpen(t, OriginOf(actions[..k], fd))
    case Dup2(src, dst) => IsOpen(t, OriginOf(actions[..k], src)) && 0 <= dst < nofile
    case _ => true
  }

  lemma TableFromNext(t: Fds, front: seq<Action>, a: Action, u: Fds, nofile: nat)
    requires TableFrom(t, front, u)
    ensures IdealStep(u, a, nofile).Some? <==> CanDo(t, front + [a], |front|, nofile)
    ensures IdealStep(u, a, nofile).Some? ==> TableFrom(t, front + [a], IdealStep(u, a, nofile).t)
  {
    var all := front + [a];
    assert all[..|front|] == front && all[|front|] == a && all[..|all|-1] == front;
  }

  /** The meaning of a list of actions, for every list and every table.  It runs to its
      end if and only if every action can be done, otherwise it fails at the first that
      cannot.  Afterwards a descriptor is open if and only if looking back leads to an
      open descriptor, and then it refers to the file of this one. */
  lemma {:induction false} IdealMeans(t: Fds, actions: seq<Action>, nofile: nat)
    ensures match IdealRun(t, actions, nofile)
      case Ran(u) => (forall k :: 0 <= k < |actions| ==> CanDo(t, actions, k, nofile)) && TableFrom(t, actions, u)
      case Failed(at) =>
        && at < |actions| && !CanDo(t, actions, at, nofile)
        && forall k :: 0 <= k < at ==> CanDo(t, actions, k, nofile)
  {
    hide IdealStep, TableFrom;
    if actions == [] {
      NothingDone(t);
    } else {
      var front, a := actions[..|actions|-1], actions[|actions|-1];
      IdealMeans(t, front, nofile);
      assert actions == front + [a];
      forall k | 0 <= k < |front| ensures CanDo(t, front, k, nofile) == CanDo(t, actions, k, nofile) {
        assert front[..k] == actions[..k];
      }
      if IdealRun(t, front, nofile).Ran? {
        TableFromNext(t, front, a, IdealRun(t, front, nofile).t, nofile);
      }
    }
  }

  /** What the new program finds: files that came from a descriptor of the parent, and
      were duplicated on the way or had no FD_CLOEXEC flag. */
  lemma ExecMeans(t: Fds, actions: seq<Action>, nofile: nat, fd: int)
    requires IdealRun(t, actions, nofile).Ran?
    ensures var o, after := OriginOf(actions, fd), Exec(IdealRun(t, actions, nofile).t);
      && (fd in after <==> o.From? && o.fd in t && (o.copied || !t[o.fd].cloexec))
      && (fd in after ==> after[fd] == Entry(t[o.fd].file, false))
  {
    hide IdealRun, OriginOf;
    IdealMeans(t, actions, nofile);
  }

  lemma NothingDone(t: Fds)
    ensures TableFrom(t, [], t)
  {
  }

  // --------------------------------------------------- the child process

  /** The system calls of the child on its descriptor table. */
  class Process {
    const nofile: nat
    var fds: Fds

    ghost predicate Valid()
      reads this
    {
      TableOk(fds, nofile)
    }

    constructor (nofile: nat, fds: Fds)
      requires TableOk(fds, nofile)
      ensures Valid() && this.nofile == nofile && this.fds == fds
    {
      this.nofile := nofile;
      this.fds := fds;
    }

    method CloseFd(fd: int) returns (e: Errno)
      requires Valid()
      modifies this
      ensures Valid() && fds == old(fds) - {fd} && e == if fd in old(fds) then Ok else EBADF
    {
      e := if fd in fds then Ok else EBADF;
      fds := fds - {fd};
    }

    method SetCloexec(fd: int) returns (e: Errno)
      requires Valid()
      modifies this
      ensures Valid() && e == if fd in old(fds) then Ok else EBADF
      ensures fds == if e.Ok? then old(fds)[fd := old(fds)[fd].(cloexec := true)] else old(fds)
    {
      if fd !in fds { return EBADF; }
      fds := fds[fd := fds[fd].(cloexec := true)];
      e := Ok;
    }

    /** dup: the lowest descriptor that is not in use. */
    method Dup(fd: int) returns (e: Errno, r: int)
      requires Valid()
      modifies this
      ensures Valid()
      ensures e.Ok? ==> fd in old(fds) && InRange(r, nofile) && r !in old(fds)
      ensures e.Ok? ==> fds == old(fds)[r := Entry(old(fds)[fd].file, false)]
      ensures e.Ok? ==> forall k :: 0 <= k < r ==> k in old(fds)
      ensures !e.Ok? ==> fds == old(fds) && r == -1
      ensures fd !in old(fds) ==> e == EBADF
      ensures fd in old(fds) ==> (e == EMFILE <==> forall k :: 0 <= k < nofile ==> k in old(fds)) && e != EBADF
    {
      if fd !in fds { return EBADF, -1; }
      r := 0;
      while r < nofile && r in fds
        invariant 0 <= r <= nofile && forall k :: 0 <= k < r ==> k in fds
      {
        r := r + 1;
      }
      if r == nofile { return EMFILE, -1; }
      fds := fds[r := Entry(fds[fd].file, false)];
      e := Ok;
    }

    method DupTo(src: int, dst: int) returns (e: Errno)
      requires Valid()
      modifies this
      ensures Valid() && e == if src in old(fds) && InRange(dst, nofile) then Ok else EBADF
      ensures fds == if !e.Ok? || src == dst then old(fds) else old(fds)[dst := Entry(old(fds)[src].file, false)]
    {
      if src !in fds || !InRange(dst, nofile) { return EBADF; }
      if src != dst { fds := fds[dst := Entry(fds[src].file, false)]; }
      e := Ok;
    }
  }

  /** The child's table is the ideal table plus the write end of the control pipe,
      marked close-on-exec, at a descriptor that the ideal table does not use. */
  ghost predicate Hidden(p: Process, ctrl: int, pipe: nat, t: Fds)
    reads p
  {
    p.Valid() && ctrl !in t && p.fds == t[ctrl := Entry(pipe, true)]
  }

  /** Every descriptor is in use. */
  ghost predicate Exhausted(t: Fds, ctrl: int, nofile: nat)
  {
    forall k :: 0 <= k < nofile ==> k in t || k == ctrl
  }

  /** Fda_close_except: `k` runs over all possible descriptors. */
  method CloseAllExcept(p: Process, ctrl: int, ghost pipe: nat, keep: seq<bool>, ghost t: Fds)
    requires Hidden(p, ctrl, pipe, t)
    modifies p
    ensures Hidden(p, ctrl, pipe, IdealStep(t, CloseExcept(keep), p.nofile).t)
  {
    ghost var u := t;
    assert forall fd :: fd in t ==> fd in p.fds;
    for k := 0 to p.nofile
      invariant Hidden(p, ctrl, pipe, u)
      invariant u == map fd | fd in t && (fd >= k || Kept(keep, fd)) :: t[fd]
    {
      if k >= |keep| || !keep[k] {
        if k != ctrl {
          var e := p.CloseFd(k);
          u := u - {k};
        }
      }
    }
  }

  /** One action; `e` is the error that ends the child. */
  method Perform(p: Process, ctrl: int, ghost pipe: nat, a: Action, ghost t: Fds)
    returns (e: Errno, ctrl': int)
    requires Hidden(p, ctrl, pipe, t)
    modifies p
    ensures p.Valid() && ctrl' in p.fds && p.fds[ctrl'].file == pipe
    ensures e.Ok? ==> IdealStep(t, a, p.nofile).Some? && Hidden(p, ctrl', pipe, IdealStep(t, a, p.nofile).t)
    ensures e == EBADF ==> IdealStep(t, a, p.nofile).None?
    ensures !e.Ok? ==> ctrl' == ctrl
    ensures e == EMFILE ==> Exhausted(t, ctrl, p.nofile)
  {
    e, ctrl' := Ok, ctrl;
    match a
    case Close(fd) =>
      if fd == ctrl { return EBADF, ctrl; }
      e := p.CloseFd(fd);
    case CloseIgnore(fd) =>
      if fd != ctrl { var ignored := p.CloseFd(fd); }
    case CloseExcept(keep) =>
      CloseAllExcept(p, ctrl, pipe, keep, t);
    case Dup2(src, dst) =>
      if src == ctrl || src !in p.fds { return EBADF, ctrl; }
      if dst == ctrl {
        var r;
        e, r := p.Dup(ctrl);
        if !e.Ok? {
          assert forall k :: k in p.fds ==> k in t || k == ctrl;
          return e, ctrl;
        }
        ctrl' := r;
        var ignored := p.SetCloexec(ctrl');
      }
      e := p.DupTo(src, dst);
  }

  /** The child from fork to exec.  `parent` is the caller's table before the pipe
      was made.  `at` is the number of the action that failed.  The table that exec
      leaves is the one the ideal interpreter leaves, and both fail at the same
      action, unless every descriptor is in use.  The error report always finds the
      control pipe. */
  method ForkExec(p: Process, read: int, write: int, ghost pipe: nat, actions: seq<Action>, ghost parent: Fds)
    returns (e: Errno, at: nat, ctrl: int)
    requires p.Valid() && TableOk(parent, p.nofile)
    requires read != write && read !in parent && write !in parent
    requires InRange(write, p.nofile)
    requires read in p.fds && p.fds - {read} == parent[write := Entry(pipe, false)]
    modifies p
    ensures p.Valid() && at <= |actions|
    ensures ctrl in p.fds && p.fds[ctrl].file == pipe
    ensures var ideal := IdealRun(parent, actions, p.nofile);
      match e
      case Ok => ideal.Ran? && Hidden(p, ctrl, pipe, ideal.t) && Exec(p.fds) == Exec(ideal.t)
      case EBADF => ideal == Failed(at)
      case EMFILE =>
        && IdealRun(parent, actions[..at], p.nofile).Ran?
        && Exhausted(IdealRun(parent, actions[..at], p.nofile).t, ctrl, p.nofile)
  {
    hide IdealStep, Exhausted;
    ctrl := write;
    e := p.CloseFd(read);
    e := p.SetCloexec(ctrl);
    at := 0;
    assert actions[..0] == [];
    assert p.fds == parent[write := Entry(pipe, true)];
    while at < |actions|
      invariant at <= |actions| && e.Ok? && p.Valid()
      invariant IdealRun(parent, actions[..at], p.nofile).Ran?
      invariant Hidden(p, ctrl, pipe, IdealRun(parent, actions[..at], p.nofile).t)
    {
      IdealRunNext(parent, actions, at, p.nofile);
      e, ctrl := Perform(p, ctrl, pipe, actions[at], IdealRun(parent, actions[..at], p.nofile).t);
      if !e.Ok? {
        if e.EBADF? { IdealRunFails(parent, actions, at + 1, p.nofile); }
        return;
      }
      at := at + 1;
    }
    assert actions[..at] == actions;
    assert Exec(p.fds) == Exec(IdealRun(parent, actions, p.nofile).t);
  }
}
