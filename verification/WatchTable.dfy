/** The table of watched subprocesses of src/netsys/netsys_c_subprocess.c.  All
    operations, and the handling of SIGCHLD, run under one lock, so each is one step.
 */
module WatchTable {
  import opened Sequences

  /** `struct sigchld_atom`; a `pid` of 0 marks a free atom. */
  datatype Atom = Atom(pid: int, pgid: int, killFlag: bool, terminated: bool, status: int,
                       ignore: bool, pipeFd: int, killSent: bool)

  const FREE := Atom(0, 0, false, false, 0, false, -1, false)

  /** The process is watched and its end has not been seen. */
  predicate Pending(a: Atom) { a.pid != 0 && !a.terminated }

  /** The atom owns an open pipe end, which is closed when the process terminates. */
  predicate Owns(a: Atom) { Pending(a) && !a.ignore }

  // -------------------------------------------------------------- the kernel

  datatype Child = Running | Zombie(status: int)

  /** The system calls.  What their callers must never do is in the preconditions:
      close a descriptor that is not open, or signal a child that was already reaped. */
  class Kernel {
    var open: set<int>             // write ends of pipes made for the table
    var children: map<int, Child>  // not reaped yet
    var signals: seq<(int, int)>   // process (or minus process group), signal

    constructor ()
      ensures open == {} && children == map[] && signals == []
    {
      open, children, signals := {}, map[], [];
    }

    method Close(fd: int)
      requires fd in open
      modifies this`open
      ensures open == old(open) - {fd}
    {
      open := open - {fd};
    }

    /** pipe: the kernel picks a descriptor that is not in use. */
    method Pipe(candidate: int) returns (fd: int)
      modifies this`open
      ensures fd !in old(open) && open == old(open) + {fd}
    {
      fd := candidate;
      var tried: set<int> := {};
      while fd in open
        invariant tried <= open && fd !in tried && forall x :: x in tried ==> x < fd
        decreases open - tried
      {
        tried := tried + {fd};
        fd := fd + 1;
      }
      open := open + {fd};
    }

    /** waitpid with WNOHANG */
    method WaitPid(pid: int) returns (code: int, status: int)
      requires pid > 0
      modifies this`children
      ensures code == if pid !in old(children) then -1 else if old(children)[pid].Running? then 0 else pid
      ensures children == if code > 0 then old(children) - {pid} else old(children)
      ensures code > 0 ==> old(children)[pid] == Zombie(status)
    {
      code, status := -1, 0;
      if pid in children {
        code := 0;
        if children[pid].Zombie? {
          code, status := pid, children[pid].status;
          children := children - {pid};
        }
      }
    }

    method Kill(pid: int, sig: int)
      requires pid in children
      modifies this`signals
      ensures signals == old(signals) + [(pid, sig)]
    {
      signals := signals + [(pid, sig)];
    }

    method KillGroup(pgid: int, sig: int)
      requires pgid > 0
      modifies this`signals
      ensures signals == old(signals) + [(-pgid, sig)]
    {
      signals := signals + [(-pgid, sig)];
    }
  }

  // ------------------------------------------------------------ invariants

  /** The open pipe ends are exactly those of the atoms that own one. */
  ghost predicate FdsOk(s: seq<Atom>, open: set<int>)
  {
    && (forall i :: 0 <= i < |s| && Owns(s[i]) ==> s[i].pipeFd in open)
    && (forall i, j :: 0 <= i < j < |s| && Owns(s[i]) && Owns(s[j]) ==> s[i].pipeFd != s[j].pipeFd)
    && (forall fd :: fd in open ==> exists i :: 0 <= i < |s| && Owns(s[i]) && s[i].pipeFd == fd)
  }

  /** Pending atoms are about different children that have not been reaped. */
  ghost predicate PidsOk(s: seq<Atom>, children: map<int, Child>)
  {
    && (forall i :: 0 <= i < |s| && Pending(s[i]) ==> s[i].pid > 0 && s[i].pid in children)
    && (forall i, j :: 0 <= i < j < |s| && Pending(s[i]) && Pending(s[j]) ==> s[i].pid != s[j].pid)
  }

  /** Handles that the caller may still use. */
  ghost predicate HandlesOk(s: seq<Atom>, handles: set<nat>)
  {
    forall h :: h in handles ==> h < |s| && s[h].pid != 0 && !s[h].ignore
  }

  lemma FdsRelease(s: seq<Atom>, open: set<int>, i: nat, a: Atom)
    requires FdsOk(s, open) && i < |s| && Owns(s[i]) && !Owns(a)
    ensures FdsOk(s[i := a], open - {s[i].pipeFd})
  {
    var t := s[i := a];
    forall fd | fd in open - {s[i].pipeFd} ensures exists k :: 0 <= k < |t| && Owns(t[k]) && t[k].pipeFd == fd {
      var k :| 0 <= k < |s| && Owns(s[k]) && s[k].pipeFd == fd;
      assert t[k] == s[k];
    }
  }

  lemma FdsAcquire(s: seq<Atom>, open: set<int>, i: nat, a: Atom)
    requires FdsOk(s, open) && i < |s| && !Owns(s[i]) && Owns(a) && a.pipeFd !in open
    ensures FdsOk(s[i := a], open + {a.pipeFd})
  {
    var t := s[i := a];
    assert t[i] == a;
    forall fd | fd in open ensures exists k :: 0 <= k < |t| && Owns(t[k]) && t[k].pipeFd == fd {
      var k :| 0 <= k < |s| && Owns(s[k]) && s[k].pipeFd == fd;
      assert t[k] == s[k];
    }
  }

  lemma FdsKeep(s: seq<Atom>, open: set<int>, i: nat, a: Atom)
    requires FdsOk(s, open) && i < |s| && !Owns(s[i]) && !Owns(a)
    ensures FdsOk(s[i := a], open)
  {
    var t := s[i := a];
    forall fd | fd in open ensures exists k :: 0 <= k < |t| && Owns(t[k]) && t[k].pipeFd == fd {
      var k :| 0 <= k < |s| && Owns(s[k]) && s[k].pipeFd == fd;
      assert t[k] == s[k];
    }
  }

  lemma FdsExtend(s: seq<Atom>, open: set<int>, more: seq<Atom>)
    requires FdsOk(s, open) && forall k :: 0 <= k < |more| ==> more[k] == FREE
    ensures FdsOk(s + more, open)
  {
    var t := s + more;
    forall fd | fd in open ensures exists k :: 0 <= k < |t| && Owns(t[k]) && t[k].pipeFd == fd {
      var k :| 0 <= k < |s| && Owns(s[k]) && s[k].pipeFd == fd;
      assert t[k] == s[k];
    }
  }

  // -------------------------------------------------------------- the table

  datatype StatusOption = StillRunning | Terminated(status: int)

  datatype WatchResult = Entered(idx: nat) | NoProcess | NoHelper

  class WatchList {
    const kernel: Kernel
    var list: array<Atom>
    var initialised: bool       // the helper thread and its pipe exist
    ghost var handles: set<nat>
    ghost var leaked: set<int>  // pipe ends that a failed call has left open

    ghost predicate Valid()
      reads this, list, kernel
    {
      && list.Length > 0
      && leaked <= kernel.open
      && FdsOk(list[..], kernel.open - leaked)
      && PidsOk(list[..], kernel.children)
      && HandlesOk(list[..], handles)
    }

    /** `netsys_install_sigchld_handler` on an empty table. */
    constructor (kernel: Kernel)
      requires kernel.open == {}
      ensures Valid() && fresh(list) && this.kernel == kernel && handles == {} && leaked == {} && !initialised
      ensures list.Length == 100 && forall k :: 0 <= k < 100 ==> list[k] == FREE
    {
      this.kernel := kernel;
      list := new Atom[100](_ => FREE);
      handles, leaked, initialised := {}, {}, false;
    }

    // steps of the outside world

    /** A new child; its process ID may have been used before. */
    method ChildStarts(pid: int)
      requires Valid() && pid > 0 && pid !in kernel.children
      modifies kernel`children
      ensures Valid() && kernel.children == old(kernel.children)[pid := Running]
    {
      kernel.children := kernel.children[pid := Running];
    }

    method ChildExits(pid: int, status: int)
      requires Valid() && pid in kernel.children && kernel.children[pid].Running?
      modifies kernel`children
      ensures Valid() && kernel.children == old(kernel.children)[pid := Zombie(status)]
    {
      kernel.children := kernel.children[pid := Zombie(status)];
    }

    /** The rest of the run is that of a forked process, which has no children. */
    method Fork()
      requires Valid()
      modifies this, kernel
      ensures Valid() && fresh(list) && handles == {} && kernel.children == map[]
      ensures kernel.open == leaked == old(leaked) && !initialised
    {
      kernel.children := map[];
      CleanupAfterFork();
    }

    // operations

    /** The search for a free atom; the list is doubled when there is none.  Every
        atom, and so every handle, keeps its place. */
    method FreeAtom() returns (idx: nat, ghost more: seq<Atom>)
      requires list.Length > 0
      modifies this`list
      ensures list == old(list) || fresh(list)
      ensures list[..] == old(list[..]) + more && forall k :: 0 <= k < |more| ==> more[k] == FREE
      ensures idx < list.Length && list[idx].pid == 0 && forall k :: 0 <= k < idx ==> list[k].pid != 0
      ensures |more| == if exists k :: 0 <= k < old(list.Length) && old(list[k].pid) == 0 then 0 else old(list.Length)
    {
      more := [];
      for k := 0 to list.Length
        invariant forall j :: 0 <= j < k ==> list[j].pid != 0
      {
        if list[k].pid == 0 { return k, []; }
      }
      var size := list.Length;
      var bigger := new Atom[2 * size](_ => FREE);
      forall k | 0 <= k < size { bigger[k] := list[k]; }
      more := bigger[size..];
      list := bigger;
      return size, more;
    }

    method Store(idx: nat, a: Atom)
      requires idx < list.Length
      modifies list
      ensures list[..] == old(list[..])[idx := a]
    {
      list[idx] := a;
    }

    /** `netsys_watch_subprocess`.  The helper thread is started by the first call; when
        this fails (`starts` is false), the call ends without closing the pipe that it
        has made.  `NoProcess` is the exception of waitpid. */
    method Watch(pid: int, pgid: int, killFlag: bool, starts: bool, candidate: int)
      returns (r: WatchResult, ghost lost: set<int>)
      requires Valid() && pid > 0 && Unwatched(list[..], pid)
      modifies this, list, kernel
      ensures Valid() && (list == old(list) || fresh(list))
      ensures r.NoHelper? <==> !old(initialised) && !starts
      ensures r.NoProcess? <==> (old(initialised) || starts) && pid !in old(kernel.children)
      ensures initialised == (old(initialised) || starts) && kernel.signals == old(kernel.signals)
      ensures leaked == old(leaked) + lost && lost !! old(kernel.open) && |lost| == if r.NoHelper? then 1 else 0
      ensures !r.Entered? ==> kernel.open == old(kernel.open) + lost && handles == old(handles)
      ensures r.Entered? ==> r.idx < list.Length && r.idx !in old(handles) && handles == old(handles) + {r.idx}
      ensures r.Entered? ==> Watched(list[r.idx], pid, pgid, killFlag, old(kernel.children)[pid])
      ensures old(list.Length) <= list.Length && forall h :: h in old(handles) ==> h < old(list.Length)
      ensures forall k :: 0 <= k < old(list.Length) && (r.Entered? ==> k != r.idx) ==> list[k] == old(list[k])
      ensures r.Entered? && r.idx < old(list.Length) ==> old(list[r.idx]).pid == 0
      ensures forall k :: old(list.Length) <= k < list.Length && (r.Entered? ==> k != r.idx) ==> list[k] == FREE
      ensures kernel.children == if r.Entered? && old(kernel.children)[pid].Zombie?
                                 then old(kernel.children) - {pid} else old(kernel.children)
    {
      hide FdsOk, PidsOk, HandlesOk, Watched;
      HandlesInside(list[..], handles);
      ghost var open := kernel.open - leaked;
      var fd := kernel.Pipe(candidate);
      if !initialised && !starts {
        leaked, lost := leaked + {fd}, {fd};
        assert kernel.open - leaked == open;
        return NoHelper, lost;
      }
      initialised, lost := true, {};
      assert kernel.open - leaked - {fd} == open;
      r := Enter(pid, pgid, killFlag, fd);
    }

    /** Valid but for one new descriptor that no atom has yet. */
    ghost predicate Entering(fd: int)
      reads this, list, kernel
    {
      && list.Length > 0 && fd in kernel.open && fd !in leaked && leaked <= kernel.open
      && FdsOk(list[..], kernel.open - leaked - {fd})
      && PidsOk(list[..], kernel.children)
      && HandlesOk(list[..], handles)
    }

    /** The part of `netsys_watch_subprocess` that follows the initialisation. */
    method Enter(pid: int, pgid: int, killFlag: bool, fd: int) returns (r: WatchResult)
      requires Entering(fd) && pid > 0 && Unwatched(list[..], pid)
      modifies this`list, this`handles, list, kernel`open, kernel`children
      ensures Valid() && (list == old(list) || fresh(list))
      ensures !r.NoHelper? && (r.Entered? <==> pid in old(kernel.children))
      ensures r.NoProcess? ==> kernel.open == old(kernel.open) - {fd} && handles == old(handles)
      ensures r.Entered? ==> r.idx < list.Length && r.idx !in old(handles) && handles == old(handles) + {r.idx}
      ensures r.Entered? ==> Watched(list[r.idx], pid, pgid, killFlag, old(kernel.children)[pid])
      ensures old(list.Length) <= list.Length
      ensures forall k :: 0 <= k < old(list.Length) && (r.Entered? ==> k != r.idx) ==> list[k] == old(list[k])
      ensures r.Entered? && r.idx < old(list.Length) ==> old(list[r.idx]).pid == 0
      ensures forall k :: old(list.Length) <= k < list.Length && (r.Entered? ==> k != r.idx) ==> list[k] == FREE
      ensures kernel.children == if r.Entered? && old(kernel.children)[pid].Zombie?
                                 then old(kernel.children) - {pid} else old(kernel.children)
    {
      hide FdsOk, PidsOk, HandlesOk;
      ghost var s, open, children := list[..], kernel.open - leaked - {fd}, kernel.children;
      var idx: nat;
      ghost var more;
      idx, more := FreeAtom();
      ghost var t := list[..];
      Extended(s, more, open, children, handles, pid);
      var code, status := kernel.WaitPid(pid);
      if code == -1 {
        kernel.Close(fd);
        assert kernel.open - leaked == open;
        return NoProcess;
      }
      var a := Atom(pid, pgid, killFlag, code != 0, status, false, if code == 0 then fd else -1, list[idx].killSent);
      if code != 0 {
        kernel.Close(fd);
      }
      assert kernel.open - leaked == if code == 0 then open + {fd} else open;
      Store(idx, a);
      Added(t, open, children, handles, idx, a);
      handles := handles + {idx};
      r := Entered(idx);
    }

    /** `netsys_ignore_subprocess`.  The handle is given up; the atom is freed when the
        process ends, or stays occupied if it has ended already. */
    method Ignore(idx: nat)
      requires Valid() && idx in handles
      modifies this`handles, list, kernel`open
      ensures Valid() && handles == old(handles) - {idx}
      ensures list[..] == old(list[..])[idx := old(list[idx]).(ignore := true)]
    {
      hide FdsOk, PidsOk;
      ghost var s, open := list[..], kernel.open - leaked;
      var a := list[idx];
      Changed(s, open, kernel.children, handles, idx, a.(ignore := true));
      if !a.ignore && !a.terminated {
        OwnedIsOpen(s, open, idx);
        kernel.Close(a.pipeFd);
        assert kernel.open - leaked == open - {a.pipeFd};
      }
      Store(idx, a.(ignore := true));
      handles := handles - {idx};
    }

    /** `netsys_forget_subprocess` */
    method Forget(idx: nat)
      requires Valid() && idx in handles
      modifies this`handles, list, kernel`open
      ensures Valid() && handles == old(handles) - {idx}
      ensures list[..] == old(list[..])[idx := old(list[idx]).(pid := 0)]
    {
      hide FdsOk, PidsOk;
      ghost var s, open := list[..], kernel.open - leaked;
      var a := list[idx];
      Changed(s, open, kernel.children, handles, idx, a.(pid := 0));
      if !a.ignore && !a.terminated {
        OwnedIsOpen(s, open, idx);
        kernel.Close(a.pipeFd);
        assert kernel.open - leaked == open - {a.pipeFd};
      }
      Store(idx, a.(pid := 0));
      handles := handles - {idx};
    }

    /** `netsys_kill_subprocess`: the signal goes to a child that is not reaped. */
    method Kill(sig: int, idx: nat)
      requires Valid() && idx in handles
      modifies kernel`signals
      ensures Valid()
      ensures kernel.signals == old(kernel.signals) + if list[idx].terminated then [] else [(list[idx].pid, sig)]
    {
      if !list[idx].terminated {
        assert Pending(list[..][idx]);
        kernel.Kill(list[idx].pid, sig);
      }
    }

    /** `netsys_kill_all_subprocesses`.  `who` are the atoms whose processes get the
        signal, in the order of the table. */
    method KillAll(sig: int, oFlag: bool, ngFlag: bool) returns (ghost who: seq<nat>, ghost sent: seq<(int, int)>)
      requires Valid()
      modifies kernel`signals
      ensures Valid() && (forall i, j :: 0 <= i < j < |who| ==> who[i] < who[j])
      ensures forall i :: 0 <= i < |who| ==> who[i] < list.Length
      ensures forall k: nat :: k in who <==>
        && k < list.Length && list[k].pid != 0 && !list[k].terminated
        && (ngFlag ==> list[k].pgid == 0) && (oFlag || list[k].killFlag)
      ensures kernel.signals == old(kernel.signals) + sent && |sent| == |who|
      ensures forall i :: 0 <= i < |who| ==> sent[i] == (list[who[i]].pid, sig)
    {
      hide FdsOk, HandlesOk, Chosen;
      ghost var s := list[..];
      who, sent := [], [];
      ChosenNone(s, oFlag, ngFlag);
      for k := 0 to list.Length
        invariant Valid() && list[..] == s
        invariant Chosen(s, k, oFlag, ngFlag, who) && |sent| == |who|
        invariant forall i :: 0 <= i < |who| ==> who[i] < |s| && sent[i] == (s[who[i]].pid, sig)
        invariant kernel.signals == old(kernel.signals) + sent
      {
        ChosenNext(s, k, oFlag, ngFlag, who);
        if list[k].pid != 0 && !list[k].terminated && (!ngFlag || list[k].pgid == 0) && (oFlag || list[k].killFlag) {
          assert Pending(s[k]);
          kernel.Kill(list[k].pid, sig);
          who, sent := who + [k], sent + [(list[k].pid, sig)];
        }
      }
      ChosenAll(s, oFlag, ngFlag, who);
    }

    /** `sigchld_process`: asks for every pending atom whether its process has ended. */
    method SigchldProcess()
      requires Valid()
      modifies list, kernel`open, kernel`children
      ensures Valid()
      ensures forall k :: 0 <= k < list.Length && HasEnded(old(list[k]), old(kernel.children)) ==>
        && list[k].terminated && Zombie(list[k].status) == old(kernel.children)[old(list[k]).pid]
        && list[k].pid == (if old(list[k]).ignore then 0 else old(list[k]).pid)
        && list[k] == old(list[k]).(terminated := true, status := list[k].status, pid := list[k].pid)
      ensures forall k :: 0 <= k < list.Length && !HasEnded(old(list[k]), old(kernel.children)) ==>
        list[k] == old(list[k])
      ensures forall pid :: pid in kernel.children <==>
        && pid in old(kernel.children)
        && !exists k :: 0 <= k < list.Length && old(list[k]).pid == pid && HasEnded(old(list[k]), old(kernel.children))
      ensures forall pid :: pid in kernel.children ==> kernel.children[pid] == old(kernel.children)[pid]
    {
      hide FdsOk, PidsOk, HandlesOk;
      ghost var s, children := list[..], kernel.children;
      PendingIsChild(s, children);
      for k := 0 to list.Length
        invariant Valid()
        invariant forall j :: k <= j < list.Length ==> list[j] == s[j]
        invariant forall j :: 0 <= j < k ==> list[j] == Reaped(s[j], children)
        invariant kernel.children == children - Ends(s[..k], children)
        invariant forall j :: k <= j < list.Length && Pending(s[j]) ==>
          s[j].pid in kernel.children && s[j].pid in children && kernel.children[s[j].pid] == children[s[j].pid]
      {
        ProcessAtom(k, s, children);
        EndsNext(s, k, children);
      }
      assert s[..list.Length] == s;
      EndsExactly(s, children);
    }

    /** The body of the loop of `sigchld_process`. */
    method ProcessAtom(k: nat, ghost s: seq<Atom>, ghost children: map<int, Child>)
      requires Valid() && k < list.Length == |s| && PidsOk(s, children)
      requires forall j :: k <= j < list.Length ==> list[j] == s[j]
      requires forall j :: k <= j < list.Length && Pending(s[j]) ==>
        s[j].pid in kernel.children && s[j].pid in children && kernel.children[s[j].pid] == children[s[j].pid]
      modifies list, kernel`open, kernel`children
      ensures Valid()
      ensures list[..] == old(list[..])[k := Reaped(s[k], children)]
      ensures kernel.children == old(kernel.children) - End(s[k], children)
      ensures forall j :: k < j < list.Length && Pending(s[j]) ==>
        s[j].pid in kernel.children && kernel.children[s[j].pid] == children[s[j].pid]
    {
      var a := list[k];
      if a.pid != 0 && !a.terminated {
        assert Pending(s[k]) && a.pid > 0;
        ghost var t, open, live := list[..], kernel.open - leaked, kernel.children;
        var code, status := kernel.WaitPid(a.pid);
        if code > 0 {
          var b := a.(terminated := true, status := status, pid := if a.ignore then 0 else a.pid);
          Ended(t, open, live, handles, k, b);
          if !a.ignore {
            OwnedIsOpen(t, open, k);
            kernel.Close(a.pipeFd);
            assert kernel.open - leaked == open - {a.pipeFd};
          }
          Store(k, b);
        }
      }
    }

    /** `netsys_killpg_all_subprocesses`: exactly one signal for every process group
        with an eligible atom, and none for others. */
    method KillGroups(sig: int, oFlag: bool) returns (ghost groups: seq<int>)
      requires Valid()
      modifies list, kernel`signals
      ensures Valid() && SameBut(old(list[..]), list[..])
      ensures kernel.signals == old(kernel.signals) + seq(|groups|, i requires 0 <= i < |groups| => (-groups[i], sig))
      ensures forall i, j :: 0 <= i < j < |groups| ==> groups[i] != groups[j]
      ensures forall g :: g in groups <==>
        exists k :: 0 <= k < list.Length && list[k].pgid == g > 0 && list[k].pid != 0 && !list[k].terminated &&
                    (oFlag || list[k].killFlag)
    {
      hide FdsOk, PidsOk, HandlesOk;
      ghost var s := list[..];
      forall k | 0 <= k < list.Length { list[k] := list[k].(killSent := false); }
      groups := [];
      for k := 0 to list.Length
        invariant SameBut(s, list[..])
        invariant kernel.signals == old(kernel.signals) + GroupSignals(groups, sig)
        invariant GroupsOk(s[..k], oFlag, groups)
        invariant SentOk(list[..], k, groups)
      {
        ghost var g0, t := groups, list[..];
        if list[k].pid != 0 && !list[k].terminated && list[k].pgid > 0 && !list[k].killSent &&
           (oFlag || list[k].killFlag) {
          var pgid := list[k].pgid;
          kernel.KillGroup(pgid, sig);
          groups := groups + [pgid];
          GroupSignalsMore(g0, pgid, sig);
          MarkGroup(k + 1, pgid);
        }
        GroupsNext(s, t, k, oFlag, g0, groups);
      }
      assert s[..list.Length] == s;
      Unmarked(s, list[..], kernel.open - leaked, kernel.children, handles);
      assert GroupsOk(list[..], oFlag, groups) by { GroupsSame(s, list[..], oFlag, groups); }
    }

    /** `netsys_get_subprocess_status`, as far as it matters here. */
    method Status(idx: nat) returns (r: StatusOption)
      requires Valid() && idx in handles
      ensures idx < list.Length && r == if Pending(list[idx]) then StillRunning else Terminated(list[idx].status)
    {
      r := if list[idx].terminated then Terminated(list[idx].status) else StillRunning;
    }

    /** `netsys_killpg_subprocess` looks for any pending atom, of whatever group.  It does
        what is documented exactly under `ProbeGuard`. */
    method KillGroupOf(sig: int, idx: nat)
      requires Valid() && idx in handles
      modifies kernel`signals
      ensures Valid() && idx < list.Length
      ensures (kernel.signals == old(kernel.signals) + Documented(list[..], idx, sig)) <==> ProbeGuard(list[..], idx)
      ensures kernel.signals == old(kernel.signals) +
        if list[idx].pgid > 0 && AnyPending(list[..]) then [(-list[idx].pgid, sig)] else []
    {
      hide FdsOk, PidsOk, HandlesOk;
      HandleInside(list[..], handles, idx);
      var pgid := list[idx].pgid;
      if pgid > 0 {
        var alive := false;
        for k := 0 to list.Length
          invariant alive <==> AnyPending(list[..k])
        {
          alive := alive || (list[k].pid != 0 && !list[k].terminated);
        }
        if alive { kernel.KillGroup(pgid, sig); }
      }
      ProbeExact(list[..], handles, idx);
    }

    /** The inner loop: later atoms of the same group. */
    method MarkGroup(from: nat, pgid: int)
      requires from <= list.Length
      modifies list
      ensures SameBut(old(list[..]), list[..])
      ensures forall j :: 0 <= j < from ==> list[j] == old(list[j])
      ensures forall j :: from <= j < list.Length ==>
        list[j].killSent == (old(list[j]).killSent || (list[j].pid != 0 && list[j].pgid == pgid))
    {
      ghost var s := list[..];
      for j := from to list.Length
        invariant forall i :: 0 <= i < from || j <= i < list.Length ==> list[i] == s[i]
        invariant forall i :: from <= i < j ==>
          list[i] == s[i].(killSent := s[i].killSent || (s[i].pid != 0 && s[i].pgid == pgid))
      {
        if list[j].pid != 0 && list[j].pgid == pgid { list[j] := list[j].(killSent := true); }
      }
    }

    /** `netsys_subprocess_cleanup_after_fork`, in the new process: it has inherited the
        descriptors but not the children. */
    method CleanupAfterFork()
      requires list.Length > 0 && leaked <= kernel.open && FdsOk(list[..], kernel.open - leaked)
      modifies this`list, this`handles, this`initialised, kernel`open
      ensures Valid() && fresh(list) && kernel.open == leaked && handles == {} && !initialised
      ensures list.Length == 100 && forall k :: 0 <= k < 100 ==> list[k] == FREE
    {
      ghost var s := list[..];
      ghost var t := s;
      for k := 0 to list.Length
        invariant list[..] == s && |t| == |s| && leaked <= kernel.open
        invariant forall j :: k <= j < |s| ==> t[j] == s[j]
        invariant forall j :: 0 <= j < k ==> !Owns(t[j])
        invariant FdsOk(t, kernel.open - leaked)
      {
        hide FdsOk;
        var a := list[k];
        if a.pid != 0 && !a.ignore && !a.terminated {
          ghost var open := kernel.open - leaked;
          OwnedIsOpen(t, open, k);
          FdsRelease(t, open, k, FREE);
          kernel.Close(a.pipeFd);
          assert kernel.open - leaked == open - {a.pipeFd};
          t := t[k := FREE];
        }
      }
      NoneOwned(t, kernel.open - leaked);
      assert kernel.open == leaked + (kernel.open - leaked);
      list := new Atom[100](_ => FREE);
      handles, initialised := {}, false;
    }
  }

  predicate Unwatched(s: seq<Atom>, pid: int)
  {
    forall i :: 0 <= i < |s| && Pending(s[i]) ==> s[i].pid != pid
  }

  /** What the atom says right after the call. */
  ghost predicate Watched(a: Atom, pid: int, pgid: int, killFlag: bool, child: Child)
  {
    && a.pid == pid && a.pgid == pgid && a.killFlag == killFlag && !a.ignore
    && (a.terminated <==> child.Zombie?) && (a.terminated ==> a.status == child.status && a.pipeFd == -1)
  }

  lemma Extended(s: seq<Atom>, more: seq<Atom>, open: set<int>, children: map<int, Child>, handles: set<nat>, pid: int)
    requires FdsOk(s, open) && PidsOk(s, children) && HandlesOk(s, handles) && Unwatched(s, pid)
    requires forall k :: 0 <= k < |more| ==> more[k] == FREE
    ensures var t := s + more;
      FdsOk(t, open) && PidsOk(t, children) && HandlesOk(t, handles) && Unwatched(t, pid)
  {
    FdsExtend(s, open, more);
  }

  /** A new atom in a free place. */
  lemma Added(t: seq<Atom>, open: set<int>, children: map<int, Child>, handles: set<nat>, idx: nat, a: Atom)
    requires FdsOk(t, open) && PidsOk(t, children) && HandlesOk(t, handles)
    requires idx < |t| && t[idx].pid == 0 && a.pid > 0 && !a.ignore && Unwatched(t, a.pid) && a.pid in children
    requires !a.terminated ==> a.pipeFd !in open
    ensures idx !in handles
    ensures var u := t[idx := a];
      && FdsOk(u, if a.terminated then open else open + {a.pipeFd})
      && PidsOk(u, if a.terminated then children - {a.pid} else children)
      && HandlesOk(u, handles + {idx})
  {
    if a.terminated { FdsKeep(t, open, idx, a); } else { FdsAcquire(t, open, idx, a); }
  }

  lemma OwnedIsOpen(s: seq<Atom>, open: set<int>, i: nat)
    requires FdsOk(s, open) && i < |s| && Owns(s[i])
    ensures s[i].pipeFd in open
  {
  }

  lemma HandlesInside(s: seq<Atom>, handles: set<nat>)
    requires HandlesOk(s, handles)
    ensures forall h :: h in handles ==> h < |s|
  {
  }

  lemma HandleInside(s: seq<Atom>, handles: set<nat>, idx: nat)
    requires HandlesOk(s, handles) && idx in handles
    ensures idx < |s|
  {
  }

  lemma PendingIsChild(s: seq<Atom>, children: map<int, Child>)
    requires PidsOk(s, children)
    ensures forall j :: 0 <= j < |s| && Pending(s[j]) ==> s[j].pid in children
  {
  }

  lemma NoneOwned(s: seq<Atom>, open: set<int>)
    requires FdsOk(s, open) && forall i :: 0 <= i < |s| ==> !Owns(s[i])
    ensures open == {}
  {
    assert forall fd :: fd !in open;
  }

  /** An atom loses its pipe end, or changes without one. */
  lemma Changed(s: seq<Atom>, open: set<int>, children: map<int, Child>, handles: set<nat>, i: nat, a: Atom)
    requires FdsOk(s, open) && PidsOk(s, children) && HandlesOk(s, handles) && i < |s|
    requires !Owns(a) && (Pending(a) ==> Pending(s[i]) && a.pid == s[i].pid)
    ensures FdsOk(s[i := a], if Owns(s[i]) then open - {s[i].pipeFd} else open)
    ensures PidsOk(s[i := a], children) && HandlesOk(s[i := a], handles - {i})
  {
    if Owns(s[i]) { FdsRelease(s, open, i, a); } else { FdsKeep(s, open, i, a); }
  }

  /** A process has ended and was reaped. */
  lemma Ended(s: seq<Atom>, open: set<int>, children: map<int, Child>, handles: set<nat>, i: nat, a: Atom)
    requires FdsOk(s, open) && PidsOk(s, children) && HandlesOk(s, handles) && i < |s|
    requires Pending(s[i]) && a.terminated && a.ignore == s[i].ignore && a.pid == if a.ignore then 0 else s[i].pid
    ensures FdsOk(s[i := a], if Owns(s[i]) then open - {s[i].pipeFd} else open)
    ensures PidsOk(s[i := a], children - {s[i].pid}) && HandlesOk(s[i := a], handles)
  {
    if Owns(s[i]) { FdsRelease(s, open, i, a); } else { FdsKeep(s, open, i, a); }
  }

  /** The process of the atom is watched, and waits to be reaped. */
  predicate HasEnded(a: Atom, children: map<int, Child>)
  {
    a.pid != 0 && !a.terminated && a.pid in children && children[a.pid].Zombie?
  }

  lemma {:induction false} EndsExactly(s: seq<Atom>, children: map<int, Child>)
    ensures forall pid :: pid in Ends(s, children) <==>
      exists k :: 0 <= k < |s| && s[k].pid == pid && HasEnded(s[k], children)
  {
    if s != [] {
      var front := s[..|s|-1];
      EndsExactly(front, children);
      forall pid
        ensures pid in Ends(s, children) <==> exists k :: 0 <= k < |s| && s[k].pid == pid && HasEnded(s[k], children)
      {
        if k :| 0 <= k < |front| && front[k].pid == pid && HasEnded(front[k], children) { assert s[k] == front[k]; }
        if k :| 0 <= k < |s| && s[k].pid == pid && HasEnded(s[k], children) {
          if k < |s| - 1 { assert front[k] == s[k]; }
        }
      }
    }
  }

  /** What SIGCHLD processing makes of an atom. */
  function Reaped(a: Atom, children: map<int, Child>): Atom
  {
    if Pending(a) && a.pid in children && children[a.pid].Zombie? then
      a.(terminated := true, status := children[a.pid].status, pid := if a.ignore then 0 else a.pid)
    else a
  }

  /** The child that is reaped on behalf of an atom, if any. */
  function End(a: Atom, children: map<int, Child>): set<int>
  {
    if Pending(a) && a.pid in children && children[a.pid].Zombie? then {a.pid} else {}
  }

  function Ends(s: seq<Atom>, children: map<int, Child>): set<int>
  {
    if s == [] then {} else Ends(s[..|s|-1], children) + End(s[|s|-1], children)
  }

  lemma EndsNext(s: seq<Atom>, k: nat, children: map<int, Child>)
    requires k < |s|
    ensures Ends(s[..k+1], children) == Ends(s[..k], children) + End(s[k], children)
  {
    assert s[..k+1][..k] == s[..k];
  }

  predicate Signalled(a: Atom, oFlag: bool, ngFlag: bool)
  {
    a.pid != 0 && !a.terminated && (ngFlag ==> a.pgid == 0) && (oFlag || a.killFlag)
  }

  /** `who` are the atoms before `n` that are to be signalled. */
  ghost predicate Chosen(s: seq<Atom>, n: nat, oFlag: bool, ngFlag: bool, who: seq<nat>)
    requires n <= |s|
  {
    && (forall i, j :: 0 <= i < j < |who| ==> who[i] < who[j])
    && (forall k: nat :: k in who <==> k < n && Signalled(s[k], oFlag, ngFlag))
  }

  lemma ChosenNone(s: seq<Atom>, oFlag: bool, ngFlag: bool)
    ensures Chosen(s, 0, oFlag, ngFlag, [])
  {
  }

  lemma ChosenNext(s: seq<Atom>, n: nat, oFlag: bool, ngFlag: bool, who: seq<nat>)
    requires n < |s| && Chosen(s, n, oFlag, ngFlag, who)
    ensures Chosen(s, n + 1, oFlag, ngFlag, if Signalled(s[n], oFlag, ngFlag) then who + [n] else who)
  {
    assert forall i :: 0 <= i < |who| ==> who[i] in who;
  }

  lemma ChosenAll(s: seq<Atom>, oFlag: bool, ngFlag: bool, who: seq<nat>)
    requires Chosen(s, |s|, oFlag, ngFlag, who)
    ensures forall i, j :: 0 <= i < j < |who| ==> who[i] < who[j]
    ensures forall k: nat :: k in who <==> k < |s| && Signalled(s[k], oFlag, ngFlag)
  {
  }

  predicate Eligible(a: Atom, oFlag: bool) { Pending(a) && a.pgid > 0 && (oFlag || a.killFlag) }

  function GroupSignals(groups: seq<int>, sig: int): seq<(int, int)>
  {
    seq(|groups|, k requires 0 <= k < |groups| => (-groups[k], sig))
  }

  /** Only the scratch flag differs. */
  ghost predicate SameBut(s: seq<Atom>, t: seq<Atom>)
  {
    |s| == |t| && forall k :: 0 <= k < |s| ==> t[k] == s[k].(killSent := t[k].killSent)
  }

  ghost predicate GroupsOk(s: seq<Atom>, oFlag: bool, groups: seq<int>)
  {
    && NoDuplicates(groups)
    && forall g :: g in groups <==> exists k :: 0 <= k < |s| && Eligible(s[k], oFlag) && s[k].pgid == g
  }

  ghost predicate SentOk(s: seq<Atom>, from: nat, groups: seq<int>)
  {
    forall j :: from <= j < |s| ==> (s[j].killSent <==> s[j].pid != 0 && s[j].pgid in groups)
  }

  lemma GroupSignalsMore(groups: seq<int>, pgid: int, sig: int)
    ensures GroupSignals(groups + [pgid], sig) == GroupSignals(groups, sig) + [(-pgid, sig)]
  {
  }

  lemma GroupsNext(s: seq<Atom>, t: seq<Atom>, k: nat, oFlag: bool, groups: seq<int>, groups': seq<int>)
    requires k < |s| && SameBut(s, t) && GroupsOk(s[..k], oFlag, groups) && SentOk(t, k, groups)
    requires groups' == if Eligible(t[k], oFlag) && !t[k].killSent then groups + [t[k].pgid] else groups
    ensures GroupsOk(s[..k+1], oFlag, groups')
  {
    var a, b := s[..k], s[..k+1];
    assert b == a + [s[k]];
    forall g ensures g in groups' <==> exists j :: 0 <= j < |b| && Eligible(b[j], oFlag) && b[j].pgid == g {
      if g in groups {
        var j :| 0 <= j < |a| && Eligible(a[j], oFlag) && a[j].pgid == g;
        assert b[j] == a[j];
      }
      if j :| 0 <= j < |b| && Eligible(b[j], oFlag) && b[j].pgid == g {
        if j < k { assert a[j] == b[j]; }
      }
      if Eligible(t[k], oFlag) { assert b[k] == s[k]; }
    }
  }

  lemma GroupsSame(s: seq<Atom>, t: seq<Atom>, oFlag: bool, groups: seq<int>)
    requires SameBut(s, t) && GroupsOk(s, oFlag, groups)
    ensures GroupsOk(t, oFlag, groups)
  {
    forall g ensures g in groups <==> exists k :: 0 <= k < |t| && Eligible(t[k], oFlag) && t[k].pgid == g {
      if g in groups {
        var k :| 0 <= k < |s| && Eligible(s[k], oFlag) && s[k].pgid == g;
        assert Eligible(t[k], oFlag);
      }
      if k :| 0 <= k < |t| && Eligible(t[k], oFlag) && t[k].pgid == g {
        assert Eligible(s[k], oFlag);
      }
    }
  }

  lemma Unmarked(s: seq<Atom>, t: seq<Atom>, open: set<int>, children: map<int, Child>, handles: set<nat>)
    requires SameBut(s, t) && FdsOk(s, open) && PidsOk(s, children) && HandlesOk(s, handles)
    ensures FdsOk(t, open) && PidsOk(t, children) && HandlesOk(t, handles)
  {
    forall fd | fd in open ensures exists k :: 0 <= k < |t| && Owns(t[k]) && t[k].pipeFd == fd {
      var k :| 0 <= k < |s| && Owns(s[k]) && s[k].pipeFd == fd;
      assert Owns(t[k]);
    }
  }

  ghost predicate AnyPending(s: seq<Atom>) { exists k :: 0 <= k < |s| && Pending(s[k]) }

  ghost predicate GroupPending(s: seq<Atom>, pgid: int)
  {
    exists k :: 0 <= k < |s| && Pending(s[k]) && s[k].pgid == pgid
  }

  /** What `killpg_subprocess` is documented to send: a signal to the group of a handle
      if a watched process of this group is still there. */
  ghost function Documented(s: seq<Atom>, idx: nat, sig: int): seq<(int, int)>
    requires idx < |s|
  {
    if s[idx].pgid > 0 && GroupPending(s, s[idx].pgid) then [(-s[idx].pgid, sig)] else []
  }

  /** The handle has no group, or its own process has not ended, or no other watched
      process is left, or one of the others belongs to the group. */
  ghost predicate ProbeGuard(s: seq<Atom>, idx: nat)
    requires idx < |s|
  {
    || s[idx].pgid <= 0
    || !s[idx].terminated
    || (forall j :: 0 <= j < |s| && j != idx ==> !Pending(s[j]))
    || (exists j :: 0 <= j < |s| && j != idx && Pending(s[j]) && s[j].pgid == s[idx].pgid)
  }

  lemma ProbeExact(s: seq<Atom>, handles: set<nat>, idx: nat)
    requires HandlesOk(s, handles) && idx in handles
    ensures !s[idx].terminated ==> GroupPending(s, s[idx].pgid)
    ensures s[idx].pgid > 0 ==> ((AnyPending(s) <==> GroupPending(s, s[idx].pgid)) <==> ProbeGuard(s, idx))
  {
    var pgid := s[idx].pgid;
    if !s[idx].terminated {
      assert Pending(s[idx]) && GroupPending(s, pgid) && AnyPending(s);
    } else if j :| 0 <= j < |s| && j != idx && Pending(s[j]) && s[j].pgid == pgid {
      assert GroupPending(s, pgid) && AnyPending(s);
    } else if j :| 0 <= j < |s| && j != idx && Pending(s[j]) {
      assert AnyPending(s) && !GroupPending(s, pgid);
    } else {
      assert !AnyPending(s) && !GroupPending(s, pgid);
    }
  }

  // ------------------------------------------------------------ whole runs

  datatype Event =
    | Started(pid: int)
    | Exited(pid: int, status: int)
    | Sigchld
    | Watching(pid: int, pgid: int, killFlag: bool, starts: bool, candidate: int)
    | Ignoring(idx: nat)
    | Forgetting(idx: nat)
    | Killing(sig: int, idx: nat)
    | KillingGroup(sig: int, idx: nat)
    | KillingAll(sig: int, oFlag: bool, ngFlag: bool)
    | KillingGroups(sig: int, oFlag: bool)
    | Forked

  // what the events say about a process

  /** Event `j` is the end of the process that event `b` has started. */
  ghost predicate IsExit(events: seq<Event>, b: nat, j: int)
    requires b < |events| && events[b].Started?
  {
    && b < j < |events| && EndOf(events[j], events[b].pid)
    && forall m :: b < m < j ==> !EndOf(events[m], events[b].pid)
  }

  predicate EndOf(e: Event, pid: int) { e.Exited? && e.pid == pid }

  /** The first event up to `k` that ends process `pid`, started by event `b`; -1 if none. */
  function ExitOf(events: seq<Event>, b: nat, pid: int, k: nat): (e: int)
    requires b < k <= |events|
    ensures e == -1 || b < e < k
    ensures e == -1 ==> forall m :: b < m < k ==> !EndOf(events[m], pid)
    ensures e >= 0 ==> EndOf(events[e], pid) && forall m :: b < m < e ==> !EndOf(events[m], pid)
  {
    if k == b + 1 then -1
    else
      var e := ExitOf(events, b, pid, k - 1);
      if e >= 0 then e else if EndOf(events[k-1], pid) then k - 1 else -1
  }

  ghost predicate SigchldAfter(events: seq<Event>, j: nat, k: nat)
    requires k <= |events|
  {
    exists m :: j < m < k && events[m].Sigchld?
  }

  /** The history of a run: the event that has started each child, and for each handle
      the events that have started its process and that have begun to watch it. */
  datatype History = History(born: map<int, nat>, start: map<nat, nat>, watch: map<nat, nat>)

  ghost predicate ChildOk(events: seq<Event>, k: nat, pid: int, c: Child, b: nat)
    requires k <= |events|
  {
    && b < k && events[b] == Started(pid)
    && var e := ExitOf(events, b, pid, k);
       if e == -1 then c.Running? else c == Zombie(events[e].status)
  }

  ghost predicate ChildrenOk(events: seq<Event>, k: nat, children: map<int, Child>, born: map<int, nat>)
    requires k <= |events|
  {
    forall pid :: pid in children ==> pid in born && ChildOk(events, k, pid, children[pid], born[pid])
  }

  /** What the atom of a handle knows: the process that `b` has started has terminated if
      and only if it ended before it was watched or before a later SIGCHLD. */
  ghost predicate AtomOk(events: seq<Event>, k: nat, a: Atom, b: nat, w: nat)
    requires k <= |events|
  {
    && b < w < k && events[b] == Started(a.pid) && events[w].Watching? && events[w].pid == a.pid
    && var e := ExitOf(events, b, a.pid, k);
       && (a.terminated <==> e >= 0 && (e < w || SigchldAfter(events, e, k)))
       && (a.terminated ==> a.status == events[e].status)
  }

  ghost predicate HandleOk(events: seq<Event>, k: nat, a: Atom, h: nat, children: map<int, Child>, hist: History)
    requires k <= |events|
  {
    && h in hist.start && h in hist.watch && AtomOk(events, k, a, hist.start[h], hist.watch[h])
    && (!a.terminated ==> a.pid in children && a.pid in hist.born && hist.born[a.pid] == hist.start[h])
  }

  ghost predicate HistoryOk(events: seq<Event>, k: nat, s: seq<Atom>, children: map<int, Child>, handles: set<nat>,
                            hist: History)
    requires k <= |events|
  {
    && ChildrenOk(events, k, children, hist.born)
    && forall h :: h in handles ==> h < |s| && HandleOk(events, k, s[h], h, children, hist)
  }

  /** An event that ends nothing and is not SIGCHLD changes nothing for a process. */
  lemma ChildKept(events: seq<Event>, k: nat, pid: int, c: Child, b: nat)
    requires k < |events| && ChildOk(events, k, pid, c, b) && (c.Zombie? || !EndOf(events[k], pid))
    ensures ChildOk(events, k + 1, pid, c, b)
  {
  }

  lemma AtomKept(events: seq<Event>, k: nat, a: Atom, b: nat, w: nat)
    requires k < |events| && AtomOk(events, k, a, b, w)
    requires events[k].Sigchld? ==> a.terminated || ExitOf(events, b, a.pid, k) == -1
    ensures AtomOk(events, k + 1, a, b, w)
  {
    var e := ExitOf(events, b, a.pid, k);
    assert ExitOf(events, b, a.pid, k + 1) == if e >= 0 then e else if EndOf(events[k], a.pid) then k else -1;
    if e >= 0 && SigchldAfter(events, e, k) {
      assert SigchldAfter(events, e, k + 1);
    }
  }

  /** What a handle tells. */
  predicate SameNews(a: Atom, b: Atom) { a.pid == b.pid && a.terminated == b.terminated && a.status == b.status }

  /** An event that starts and reaps nothing. */
  lemma HistoryKept(events: seq<Event>, k: nat, s: seq<Atom>, children: map<int, Child>, handles: set<nat>,
                    hist: History, s': seq<Atom>, handles': set<nat>)
    requires k < |events| && HistoryOk(events, k, s, children, handles, hist) && handles' <= handles
    requires !events[k].Sigchld?
    requires events[k].Exited? && events[k].pid in children ==> children[events[k].pid].Zombie?
    requires forall h :: h in handles' ==> h < |s| && h < |s'| && SameNews(s[h], s'[h])
    ensures HistoryOk(events, k + 1, s', children, handles', hist)
  {
    hide ChildOk, AtomOk;
    forall pid | pid in children ensures ChildOk(events, k + 1, pid, children[pid], hist.born[pid]) {
      ChildKept(events, k, pid, children[pid], hist.born[pid]);
    }
    forall h | h in handles' ensures HandleOk(events, k + 1, s'[h], h, children, hist) {
      assert HandleOk(events, k, s[h], h, children, hist);
      AtomKept(events, k, s[h], hist.start[h], hist.watch[h]);
      AtomSame(events, k + 1, s[h], s'[h], hist.start[h], hist.watch[h]);
    }
  }

  lemma AtomSame(events: seq<Event>, k: nat, a: Atom, b: Atom, start: nat, watch: nat)
    requires k <= |events| && AtomOk(events, k, a, start, watch) && SameNews(a, b)
    ensures AtomOk(events, k, b, start, watch)
  {
  }

  lemma HistoryStarted(events: seq<Event>, k: nat, s: seq<Atom>, children: map<int, Child>, handles: set<nat>,
                       hist: History, pid: int)
    requires k < |events| && HistoryOk(events, k, s, children, handles, hist)
    requires events[k] == Started(pid) && pid !in children
    ensures HistoryOk(events, k + 1, s, children[pid := Running], handles, hist.(born := hist.born[pid := k]))
  {
    HistoryKept(events, k, s, children, handles, hist, s, handles);
    hide AtomOk;
  }

  lemma HistoryExited(events: seq<Event>, k: nat, s: seq<Atom>, children: map<int, Child>, handles: set<nat>,
                      hist: History, pid: int, status: int)
    requires k < |events| && HistoryOk(events, k, s, children, handles, hist)
    requires events[k] == Exited(pid, status) && pid in children && children[pid].Running?
    ensures HistoryOk(events, k + 1, s, children[pid := Zombie(status)], handles, hist)
  {
    var children' := children[pid := Zombie(status)];
    forall p | p in children' ensures ChildOk(events, k + 1, p, children'[p], hist.born[p]) {
      if p != pid { ChildKept(events, k, p, children[p], hist.born[p]); }
    }
    hide ChildOk, AtomOk;
    forall h | h in handles ensures HandleOk(events, k + 1, s[h], h, children', hist) {
      assert HandleOk(events, k, s[h], h, children, hist);
      AtomKept(events, k, s[h], hist.start[h], hist.watch[h]);
    }
  }

  /** SIGCHLD processing. */
  lemma HistorySigchld(events: seq<Event>, k: nat, s: seq<Atom>, children: map<int, Child>, handles: set<nat>,
                       hist: History, s': seq<Atom>, children': map<int, Child>)
    requires k < |events| && HistoryOk(events, k, s, children, handles, hist) && events[k].Sigchld?
    requires HandlesOk(s, handles) && |s'| == |s|
    requires forall i :: 0 <= i < |s| && HasEnded(s[i], children) ==>
      s'[i].terminated && Zombie(s'[i].status) == children[s[i].pid] && (!s[i].ignore ==> s'[i].pid == s[i].pid)
    requires forall i :: 0 <= i < |s| && !HasEnded(s[i], children) ==> s'[i] == s[i]
    requires forall pid :: pid in children' ==> pid in children && children'[pid] == children[pid]
    requires forall pid :: pid in children && children[pid].Running? ==> pid in children'
    ensures HistoryOk(events, k + 1, s', children', handles, hist)
  {
    forall pid | pid in children' ensures ChildOk(events, k + 1, pid, children'[pid], hist.born[pid]) {
      ChildKept(events, k, pid, children[pid], hist.born[pid]);
    }
    forall h | h in handles ensures h < |s'| && HandleOk(events, k + 1, s'[h], h, children', hist) {
      assert HandleOk(events, k, s[h], h, children, hist);
      var a, b, w := s[h], hist.start[h], hist.watch[h];
      if HasEnded(a, children) {
        AtomReaped(events, k, a, b, w, children[a.pid], s'[h]);
      } else {
        AtomKept(events, k, a, b, w);
      }
    }
  }

  lemma AtomReaped(events: seq<Event>, k: nat, a: Atom, b: nat, w: nat, c: Child, a': Atom)
    requires k < |events| && AtomOk(events, k, a, b, w) && events[k].Sigchld? && !a.terminated
    requires ChildOk(events, k, a.pid, c, b) && c == Zombie(a'.status) && a'.terminated && a'.pid == a.pid
    ensures AtomOk(events, k + 1, a', b, w)
  {
    assert ExitOf(events, b, a.pid, k + 1) == ExitOf(events, b, a.pid, k);
    assert SigchldAfter(events, ExitOf(events, b, a.pid, k), k + 1);
  }

  /** A process is watched. */
  lemma HistoryWatched(events: seq<Event>, k: nat, s: seq<Atom>, children: map<int, Child>, handles: set<nat>,
                       hist: History, pid: int, idx: nat, s': seq<Atom>, children': map<int, Child>)
    requires k < |events| && HistoryOk(events, k, s, children, handles, hist) && HandlesOk(s, handles)
    requires events[k].Watching? && events[k].pid == pid && pid in children && Unwatched(s, pid)
    requires idx < |s'| && idx !in handles && |s| <= |s'|
    requires forall h :: h in handles ==> s'[h] == s[h]
    requires s'[idx].pid == pid && (s'[idx].terminated <==> children[pid].Zombie?)
    requires s'[idx].terminated ==> s'[idx].status == children[pid].status
    requires children' == if children[pid].Zombie? then children - {pid} else children
    ensures pid in hist.born
    ensures HistoryOk(events, k + 1, s', children', handles + {idx},
                      hist.(start := hist.start[idx := hist.born[pid]], watch := hist.watch[idx := k]))
  {
    HistoryKept(events, k, s, children, handles, hist, s', handles);
    assert ChildOk(events, k, pid, children[pid], hist.born[pid]);
    var hist' := hist.(start := hist.start[idx := hist.born[pid]], watch := hist.watch[idx := k]);
    assert AtomOk(events, k + 1, s'[idx], hist.born[pid], k);
    hide ChildOk, AtomOk;
    forall h | h in handles + {idx} ensures HandleOk(events, k + 1, s'[h], h, children', hist') {
      if h != idx { assert HandleOk(events, k + 1, s'[h], h, children, hist); }
    }
  }

  /** The pipe ends that atoms own. */
  ghost function OwnedEnds(s: seq<Atom>): set<int>
  {
    set i | 0 <= i < |s| && Owns(s[i]) :: s[i].pipeFd
  }

  lemma OpenExactly(s: seq<Atom>, open: set<int>, leaked: set<int>)
    requires leaked <= open && FdsOk(s, open - leaked)
    ensures open == OwnedEnds(s) + leaked && OwnedEnds(s) !! leaked
  {
    forall fd | fd in open - leaked ensures fd in OwnedEnds(s) {
      var i :| 0 <= i < |s| && Owns(s[i]) && s[i].pipeFd == fd;
    }
  }

  /** Any sequence of calls and outside events.  The client uses a handle until it
      ignores or forgets it, and watches no process twice at once; other calls are
      skipped.  That this verifies means that no descriptor is closed twice and no
      signal goes to a reaped child.  The open pipe ends are those of atoms that own
      one, and one for each call whose delayed initialisation has failed. */
  method Run(events: seq<Event>) returns (t: WatchList, mine: set<nat>, failures: nat, ghost hist: History)
    ensures t.Valid() && t.handles == mine
    ensures t.kernel.open == OwnedEnds(t.list[..]) + t.leaked && OwnedEnds(t.list[..]) !! t.leaked
    ensures |t.leaked| == failures
    ensures HistoryOk(events, |events|, t.list[..], t.kernel.children, mine, hist)
  {
    var kernel := new Kernel();
    t := new WatchList(kernel);
    mine, failures := {}, 0;
    hist := History(map[], map[], map[]);
    for k := 0 to |events|
      invariant t.Valid() && t.handles == mine && |t.leaked| == failures
      invariant HistoryOk(events, k, t.list[..], t.kernel.children, mine, hist)
      invariant fresh(t) && fresh(t.list) && fresh(t.kernel)
    {
      hide WatchList.Valid, HistoryOk;
      var failed;
      mine, failed, hist := Handle(t, mine, events, k, hist);
      if failed { failures := failures + 1; }
    }
    hide FdsOk, PidsOk, HandlesOk, HistoryOk;
    OpenExactly(t.list[..], t.kernel.open, t.leaked);
  }

  /** `failed`: this was a call whose delayed initialisation has failed. */
  method Handle(t: WatchList, mine: set<nat>, events: seq<Event>, k: nat, ghost hist: History)
    returns (left: set<nat>, failed: bool, ghost hist': History)
    requires t.Valid() && t.handles == mine && k < |events|
    requires HistoryOk(events, k, t.list[..], t.kernel.children, mine, hist)
    modifies t, t.list, t.kernel
    ensures t.Valid() && t.handles == left && (t.list == old(t.list) || fresh(t.list))
    ensures |t.leaked| == old(|t.leaked|) + if failed then 1 else 0
    ensures failed <==>
      && events[k].Watching? && !events[k].starts && !old(t.initialised)
      && events[k].pid > 0 && old(Unwatched(t.list[..], events[k].pid))
    ensures HistoryOk(events, k + 1, t.list[..], t.kernel.children, left, hist')
    ensures match events[k]
      case Watching(pid, _, _, starts, _) =>
        if pid > 0 && old(Unwatched(t.list[..], pid)) && (old(t.initialised) || starts) && pid in old(t.kernel.children)
        then exists idx :: idx !in mine && left == mine + {idx}
        else left == mine
      case Ignoring(idx) => left == mine - {idx}
      case Forgetting(idx) => left == mine - {idx}
      case Forked => left == {} && t.kernel.children == map[]
      case Started(pid) =>
        && left == mine
        && t.kernel.children == if pid > 0 && pid !in old(t.kernel.children) then old(t.kernel.children)[pid := Running]
                                else old(t.kernel.children)
      case Exited(pid, status) =>
        && left == mine
        && t.kernel.children == if pid in old(t.kernel.children) && old(t.kernel.children)[pid].Running?
                                then old(t.kernel.children)[pid := Zombie(status)] else old(t.kernel.children)
      case _ => left == mine
  {
    left, failed, hist' := mine, false, hist;
    ghost var s, children := t.list[..], t.kernel.children;
    HistoryInside(events, k, s, children, mine, hist);
    hide WatchList.Valid, HistoryOk;
    match events[k] {
      case Started(pid) =>
        if pid > 0 && pid !in t.kernel.children {
          t.ChildStarts(pid);
          HistoryStarted(events, k, s, children, mine, hist, pid);
          hist' := hist.(born := hist.born[pid := k]);
        } else {
          HistoryKept(events, k, s, children, mine, hist, s, mine);
        }
      case Exited(pid, status) =>
        if pid in t.kernel.children && t.kernel.children[pid].Running? {
          t.ChildExits(pid, status);
          HistoryExited(events, k, s, children, mine, hist, pid, status);
        } else {
          HistoryKept(events, k, s, children, mine, hist, s, mine);
        }
      case Sigchld => HandleSigchld(t, mine, events, k, hist);
      case Watching(pid, pgid, killFlag, starts, candidate) =>
        left, failed, hist' := HandleWatching(t, mine, events, k, hist);
      case Forked =>
        t.Fork();
        left := {};
      case _ => left := HandleCall(t, mine, events, k, hist);
    }
  }

  method HandleSigchld(t: WatchList, ghost mine: set<nat>, ghost events: seq<Event>, ghost k: nat, ghost hist: History)
    requires t.Valid() && t.handles == mine && k < |events| && events[k].Sigchld?
    requires HistoryOk(events, k, t.list[..], t.kernel.children, mine, hist)
    modifies t.list, t.kernel
    ensures t.Valid() && HistoryOk(events, k + 1, t.list[..], t.kernel.children, mine, hist)
  {
    ghost var s, children := t.list[..], t.kernel.children;
    assert HandlesOk(s, mine);
    hide WatchList.Valid, HistoryOk, HandlesOk;
    t.SigchldProcess();
    HistorySigchld(events, k, s, children, mine, hist, t.list[..], t.kernel.children);
  }

  method HandleWatching(t: WatchList, mine: set<nat>, events: seq<Event>, k: nat, ghost hist: History)
    returns (left: set<nat>, failed: bool, ghost hist': History)
    requires t.Valid() && t.handles == mine && k < |events| && events[k].Watching?
    requires HistoryOk(events, k, t.list[..], t.kernel.children, mine, hist)
    modifies t, t.list, t.kernel
    ensures t.Valid() && t.handles == left && (t.list == old(t.list) || fresh(t.list))
    ensures |t.leaked| == old(|t.leaked|) + if failed then 1 else 0
    ensures failed <==>
      !events[k].starts && !old(t.initialised) && events[k].pid > 0 && old(Unwatched(t.list[..], events[k].pid))
    ensures HistoryOk(events, k + 1, t.list[..], t.kernel.children, left, hist')
    ensures var pid := events[k].pid;
      if pid > 0 && old(Unwatched(t.list[..], pid)) && (old(t.initialised) || events[k].starts) &&
         pid in old(t.kernel.children)
      then exists idx :: idx !in mine && left == mine + {idx}
      else left == mine
  {
    left, failed, hist' := mine, false, hist;
    ghost var s, children := t.list[..], t.kernel.children;
    LeakedOpen(t);
    assert HandlesOk(s, mine);
    HistoryInside(events, k, s, children, mine, hist);
    hide WatchList.Valid, HistoryOk, HandlesOk;
    var pid := events[k].pid;
    if pid > 0 && Unwatched(t.list[..], pid) {
      var r;
      ghost var lost;
      r, lost := t.Watch(pid, events[k].pgid, events[k].killFlag, events[k].starts, events[k].candidate);
      if r.Entered? {
        left := mine + {r.idx};
        HistoryWatched(events, k, s, children, mine, hist, pid, r.idx, t.list[..], t.kernel.children);
        hist' := hist.(start := hist.start[r.idx := hist.born[pid]], watch := hist.watch[r.idx := k]);
      } else {
        HistoryKept(events, k, s, children, mine, hist, t.list[..], mine);
      }
      failed := r.NoHelper?;
    } else {
      HistoryKept(events, k, s, children, mine, hist, s, mine);
    }
  }

  /** Calls that neither begin to watch nor reap a process. */
  method HandleCall(t: WatchList, mine: set<nat>, events: seq<Event>, k: nat, ghost hist: History)
    returns (left: set<nat>)
    requires t.Valid() && t.handles == mine && k < |events|
    requires !events[k].Started? && !events[k].Exited? && !events[k].Sigchld? && !events[k].Watching?
    requires HistoryOk(events, k, t.list[..], t.kernel.children, mine, hist)
    modifies t`handles, t.list, t.kernel`open, t.kernel`signals
    ensures t.Valid() && t.handles == left
    ensures HistoryOk(events, k + 1, t.list[..], t.kernel.children, left, hist)
    ensures left == if events[k].Ignoring? || events[k].Forgetting? then mine - {events[k].idx} else mine
  {
    left := mine;
    ghost var s, children := t.list[..], t.kernel.children;
    HistoryInside(events, k, s, children, mine, hist);
    hide WatchList.Valid, HistoryOk;
    match events[k] {
      case Ignoring(idx) => if idx in mine { t.Ignore(idx); left := mine - {idx}; }
      case Forgetting(idx) => if idx in mine { t.Forget(idx); left := mine - {idx}; }
      case Killing(sig, idx) => if idx in mine { t.Kill(sig, idx); }
      case KillingGroup(sig, idx) => if idx in mine { t.KillGroupOf(sig, idx); }
      case KillingAll(sig, oFlag, ngFlag) => var who, sent := t.KillAll(sig, oFlag, ngFlag);
      case KillingGroups(sig, oFlag) => var groups := t.KillGroups(sig, oFlag);
      case _ =>
    }
    HistoryKept(events, k, s, children, mine, hist, t.list[..], left);
  }

  lemma HistoryInside(events: seq<Event>, k: nat, s: seq<Atom>, children: map<int, Child>, handles: set<nat>,
                      hist: History)
    requires k <= |events| && HistoryOk(events, k, s, children, handles, hist)
    ensures forall h :: h in handles ==> h < |s|
  {
  }

  /** Main result on the status, over every run: a handle in use stands for a process that
      was started and then watched, by the events `b` and `w`.  The process is reported as
      terminated if and only if it has ended, and this was before the call that watched it
      or before a later SIGCHLD; the status is the one it ended with. */
  method StatusAfter(events: seq<Event>, h: nat)
    returns (t: WatchList, known: bool, r: StatusOption, ghost b: nat, ghost w: nat)
    ensures t.Valid() && (known <==> h in t.handles)
    ensures known ==> b < w < |events| && events[w].Watching? && events[b] == Started(events[w].pid)
    ensures known ==>
      (r.Terminated? <==>
        exists j :: IsExit(events, b, j) && (j < w || exists m :: j < m < |events| && events[m].Sigchld?))
    ensures known && r.Terminated? ==> forall j :: IsExit(events, b, j) ==> r.status == events[j].status
  {
    r, b, w := StillRunning, 0, 0;
    var mine, failures;
    ghost var hist;
    t, mine, failures, hist := Run(events);
    known := h in mine;
    if known {
      ghost var a := t.list[..][h];
      assert HandleOk(events, |events|, a, h, t.kernel.children, hist);
      b, w := hist.start[h], hist.watch[h];
      hide WatchList.Valid, HistoryOk, ChildrenOk;
      AtomNews(events, a, b, w);
      r := t.Status(h);
    }
  }

  lemma AtomNews(events: seq<Event>, a: Atom, b: nat, w: nat)
    requires AtomOk(events, |events|, a, b, w)
    ensures a.terminated <==>
      exists j :: IsExit(events, b, j) && (j < w || exists m :: j < m < |events| && events[m].Sigchld?)
    ensures a.terminated ==> forall j :: IsExit(events, b, j) ==> a.status == events[j].status
  {
    var e := ExitOf(events, b, a.pid, |events|);
    if e >= 0 { assert IsExit(events, b, e); }
    assert forall j :: IsExit(events, b, j) ==> j == e;
  }

  lemma LeakedOpen(t: WatchList)
    requires t.Valid()
    ensures t.leaked <= t.kernel.open
  {
  }

  /** Process 8 leads group 8 and has ended; its handle is still there. */
  ghost predicate LeaderGone(t: WatchList, idx: nat)
    reads t, t.list, t.kernel
  {
    && idx < t.list.Length && t.handles == {idx} && t.list[idx].pgid == 8 && t.list[idx].terminated
    && (forall k :: 0 <= k < t.list.Length && k != idx ==> t.list[k] == FREE)
    && t.kernel.children == map[] && t.kernel.signals == []
  }

  /** Process 8 is watched as the leader of group 8. */
  ghost predicate LeaderWatched(t: WatchList, idx: nat)
    reads t, t.list, t.kernel
  {
    && idx < t.list.Length && t.handles == {idx}
    && t.list[idx].pid == 8 && t.list[idx].pgid == 8 && !t.list[idx].terminated && !t.list[idx].ignore
    && (forall k :: 0 <= k < t.list.Length && k != idx ==> t.list[k] == FREE)
    && t.kernel.children == map[8 := Running] && t.kernel.signals == []
  }

  method WatchLeader(candidate: int) returns (t: WatchList, idx: nat)
    ensures fresh(t) && fresh(t.list) && fresh(t.kernel) && t.Valid() && LeaderWatched(t, idx)
  {
    hide WatchList.Valid;
    var kernel := new Kernel();
    t := new WatchList(kernel);
    t.ChildStarts(8);
    var r;
    ghost var lost;
    r, lost := t.Watch(8, 8, false, true, candidate);
    idx := r.idx;
  }

  method LeaderEnds(candidate: int) returns (t: WatchList, idx: nat)
    ensures fresh(t) && fresh(t.list) && fresh(t.kernel) && t.Valid() && LeaderGone(t, idx)
  {
    hide WatchList.Valid;
    t, idx := WatchLeader(candidate);
    t.ChildExits(8, 0);
    ghost var a, was := t.list[idx], t.kernel.children;
    assert was.Keys == {8};
    assert a.pid == 8 && HasEnded(a, was);
    t.SigchldProcess();
    assert forall p :: p in t.kernel.children ==> p in was.Keys && p != 8;
    assert t.kernel.children == map[];
  }

  /** A run where the guard fails: process 8 leads group 8 and ends, process 9 is watched
      without a group, and the signal goes to group 8, of which nobody is left. */
  method DeadGroupSignalled(sig: int, c1: int, c2: int) returns (t: WatchList, idx: nat)
    ensures t.Valid() && idx in t.handles && idx < t.list.Length && t.list[idx].pgid == 8
    ensures !GroupPending(t.list[..], 8) && 8 !in t.kernel.children
    ensures t.kernel.signals == [(-8, sig)]
  {
    hide WatchList.Valid, Documented, ProbeGuard, HandlesOk, FdsOk, PidsOk;
    t, idx := LeaderEnds(c1);
    t.ChildStarts(9);
    var r;
    ghost var lost;
    r, lost := t.Watch(9, 0, false, true, c2);
    assert Pending(t.list[..][r.idx]);
    t.KillGroupOf(sig, idx);
  }

  /** The first call, in a process that cannot start the helper thread: an error, no
      atom, and a pipe end that stays open. */
  method FailedWatch(pid: int, candidate: int) returns (t: WatchList, r: WatchResult)
    requires pid > 0
    ensures t.Valid() && r == NoHelper && |t.kernel.open| == 1 && OwnedEnds(t.list[..]) == {} && t.handles == {}
  {
    var kernel := new Kernel();
    t := new WatchList(kernel);
    t.ChildStarts(pid);
    ghost var lost;
    r, lost := t.Watch(pid, 0, false, false, candidate);
    assert t.kernel.open == lost;
  }
}
