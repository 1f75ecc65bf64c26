/** The programs of examples/multicore/nqueens.ml that count solutions up to
    symmetry.  All of them report the number of classes of equivalent solutions.
 */
module QueensCount {
  import opened Queens
  import opened Sequences
  import opened QueensSearch

  ghost predicate AllRooks(s: seq<Board>) { forall k :: 0 <= k < |s| ==> Rooks(s[k]) }

  /** The representatives of a list of boards. */
  ghost function Classes(s: seq<Board>): (c: set<Board>)
    requires AllRooks(s)
    ensures forall x :: x in c <==> exists k :: 0 <= k < |s| && BMin(s[k]) == x
  {
    set k | 0 <= k < |s| :: BMin(s[k])
  }

  /** The number every program has to report for boards of size `n`: there is one
      representative per class, by `BMinCanonical`. */
  ghost function NumberOfClasses(n: nat): nat
  {
    AllEmittedRooks(n, n);
    |Classes(AllEmitted(n, n))|
  }

  lemma AllEmittedRooks(n: nat, k: nat)
    requires k <= n
    ensures AllRooks(AllEmitted(n, k))
  {
    AllEmittedExact(n, k);
    var s := AllEmitted(n, k);
    forall i | 0 <= i < |s| ensures Rooks(s[i]) {
      assert s[i] in s;
      SolutionIsRooks(s[i]);
    }
  }

  // ------------------------------------------------------------ Sequential

  /** The table of `Sequential`: all boards equivalent to one already seen.
      `Hashtbl.add` never replaces a binding, so `Hashtbl.length` counts the
      bindings of symmetric boards several times. */
  ghost predicate SeenTable(ht: multiset<Board>, seen: seq<Board>)
    requires AllRooks(seen)
  {
    && |ht| == 8 * |Classes(seen)|
    && forall x :: x in ht <==> Rooks(x) && BMin(x) in Classes(seen)
  }

  lemma ClassesMore(s: seq<Board>, b: Board)
    requires AllRooks(s) && Rooks(b)
    ensures AllRooks(s + [b]) && Classes(s + [b]) == Classes(s) + {BMin(b)}
  {
    hide Rooks, BMin;
    var t := s + [b];
    assert t[|s|] == b;
    forall x | x in Classes(s) + {BMin(b)} ensures x in Classes(t) {
      if x in Classes(s) {
        var k :| 0 <= k < |s| && BMin(s[k]) == x;
        assert BMin(t[k]) == x;
      } else {
        assert BMin(t[|s|]) == x;
      }
    }
    forall x | x in Classes(t) ensures x in Classes(s) + {BMin(b)} {
      var k :| 0 <= k < |t| && BMin(t[k]) == x;
      if k < |s| { assert BMin(s[k]) == x; }
    }
  }

  lemma SeenNew(ht: multiset<Board>, seen: seq<Board>, b: Board)
    requires AllRooks(seen) && Rooks(b) && SeenTable(ht, seen)
    ensures AllRooks(seen + [b])
    ensures if b in ht then SeenTable(ht, seen + [b])
            else SeenTable(ht + multiset(Transformations(b)), seen + [b])
  {
    hide BMin, Transformations, Classes, Rooks;
    ClassesMore(seen, b);
    if b in ht {
      assert Classes(seen) + {BMin(b)} == Classes(seen);
    } else {
      var ht' := ht + multiset(Transformations(b));
      TransformationsRooks(b);
      forall x ensures x in ht' <==> Rooks(x) && BMin(x) in Classes(seen + [b]) {
        if Rooks(x) {
          BMinCanonical(b, x);
          TransformationsAreOrbit(b, x);
        }
      }
      assert |Classes(seen + [b])| == |Classes(seen)| + 1;
    }
  }

  /** The collecting loop of `Sequential.run`, over the boards of one `solve`. */
  method Collect(ht: multiset<Board>, emitted: seq<Board>, ghost seen: seq<Board>)
    returns (ht': multiset<Board>)
    requires AllRooks(seen) && AllRooks(emitted) && SeenTable(ht, seen)
    ensures AllRooks(seen + emitted) && SeenTable(ht', seen + emitted)
  {
    hide SeenTable, Classes, Transformations, Rooks;
    ht' := ht;
    assert seen + emitted[..0] == seen;
    for k := 0 to |emitted|
      invariant AllRooks(seen + emitted[..k]) && SeenTable(ht', seen + emitted[..k])
    {
      var b := emitted[k];
      SeenNew(ht', seen + emitted[..k], b);
      assert seen + emitted[..k] + [b] == seen + emitted[..k+1];
      if b !in ht' {
        ht' := ht' + multiset(Transformations(b));
      }
    }
    assert emitted[..|emitted|] == emitted;
  }

  method Sequential(n: nat) returns (count: nat)
    ensures count == NumberOfClasses(n)
  {
    hide SeenTable, Classes, AllEmitted;
    var ht: multiset<Board> := multiset{};
    AllEmittedRooks(n, 0);
    NothingSeen(n);
    for k := 0 to n
      invariant AllRooks(AllEmitted(n, k)) && SeenTable(ht, AllEmitted(n, k))
    {
      var emitted := Solve(k, n);
      EmittedNext(n, k);
      ht := Collect(ht, emitted, AllEmitted(n, k));
    }
    EightPerClass(ht, AllEmitted(n, n));
    count := |ht| / 8;
  }

  lemma NothingSeen(n: nat)
    ensures AllRooks(AllEmitted(n, 0)) && SeenTable(multiset{}, AllEmitted(n, 0))
  {
    assert Classes(AllEmitted(n, 0)) == {};
  }

  lemma EmittedNext(n: nat, k: nat)
    requires k < n
    ensures AllEmitted(n, k + 1) == AllEmitted(n, k) + Extensions([k], n, 0)
    ensures AllRooks(Extensions([k], n, 0))
  {
    SolveExact(k, n);
    var s := Extensions([k], n, 0);
    forall i | 0 <= i < |s| ensures Rooks(s[i]) {
      assert s[i] in s;
      SolutionIsRooks(s[i]);
    }
  }

  lemma EightPerClass(ht: multiset<Board>, seen: seq<Board>)
    requires AllRooks(seen) && SeenTable(ht, seen)
    ensures |ht| / 8 == |Classes(seen)|
  {
  }

  // -------------------------------------------------- the work of a worker

  /** The representatives that the worker for one first queen hands on, in order. */
  ghost function WorkerJob(n: nat, k: nat): (job: seq<Board>)
    requires k < n
  {
    EmittedNext(n, k);
    var s := Extensions([k], n, 0);
    seq(|s|, i requires 0 <= i < |s| => BMin(s[i]))
  }

  ghost function WorkerJobs(n: nat): (jobs: seq<seq<Board>>)
    ensures |jobs| == n
  {
    seq(n, k requires 0 <= k < n => WorkerJob(n, k))
  }

  ghost predicate FromJobs(jobs: seq<seq<Board>>, x: Board)
  {
    exists i, j :: 0 <= i < |jobs| && 0 <= j < |jobs[i]| && jobs[i][j] == x
  }

  /** The workers together hand on exactly the representatives of the solutions. */
  lemma JobsAreClasses(n: nat, x: Board)
    ensures AllRooks(AllEmitted(n, n))
    ensures FromJobs(WorkerJobs(n), x) <==> x in Classes(AllEmitted(n, n))
  {
    hide Rooks, BMin, Solution, AllEmitted, Extensions, WorkerJobs;
    AllEmittedRooks(n, n);
    AllEmittedExact(n, n);
    var all := AllEmitted(n, n);
    if x in Classes(all) {
      var k :| 0 <= k < |all| && BMin(all[k]) == x;
      assert all[k] in all;
      JobHas(n, all[k]);
    }
    if FromJobs(WorkerJobs(n), x) {
      JobFrom(n, x);
    }
  }

  lemma JobFrom(n: nat, x: Board)
    requires FromJobs(WorkerJobs(n), x)
    ensures AllRooks(AllEmitted(n, n)) && x in Classes(AllEmitted(n, n))
  {
    hide Rooks, BMin, Solution, AllEmitted, Extensions;
    AllEmittedRooks(n, n);
    var all := AllEmitted(n, n);
    var i, j :| 0 <= i < n && 0 <= j < |WorkerJobs(n)[i]| && WorkerJobs(n)[i][j] == x;
    EmittedNext(n, i);
    var b := Extensions([i], n, 0)[j];
    assert b in all by {
      AllEmittedExact(n, n);
      SolveExact(i, n);
      assert b in Extensions([i], n, 0);
    }
    var k :| 0 <= k < |all| && all[k] == b;
    assert BMin(all[k]) == x;
  }

  lemma JobHas(n: nat, b: Board)
    requires Solution(b) && |b| == n && n > 0 && Rooks(b)
    ensures FromJobs(WorkerJobs(n), BMin(b))
  {
    hide BMin;
    var i := b[0];
    SolveExact(i, n);
    EmittedNext(n, i);
    var j :| 0 <= j < |Extensions([i], n, 0)| && Extensions([i], n, 0)[j] == b;
    assert WorkerJobs(n)[i][j] == BMin(b);
  }

  lemma {:induction false} DistinctCount(s: seq<Board>)
    requires NoDuplicates(s)
    ensures |set x | x in s| == |s|
  {
    if s != [] {
      var f, last := s[..|s|-1], s[|s|-1];
      DistinctCount(f);
      assert s == f + [last] && last !in f;
      assert (set x | x in s) == (set x | x in f) + {last};
    }
  }

  /** A list without duplicates of exactly the representatives has the right length. */
  lemma CountedAll(n: nat, s: seq<Board>)
    requires NoDuplicates(s) && forall x :: x in s <==> FromJobs(WorkerJobs(n), x)
    ensures |s| == NumberOfClasses(n)
  {
    hide Classes, FromJobs;
    DistinctCount(s);
    AllEmittedRooks(n, n);
    forall x ensures x in (set x | x in s) <==> x in Classes(AllEmitted(n, n)) {
      JobsAreClasses(n, x);
    }
    assert (set x | x in s) == Classes(AllEmitted(n, n));
  }

  // ------------------------------------------------------- what is counted

  /** One solution out of each class: no two are equivalent, and every solution is
      equivalent to one of them. */
  ghost predicate OnePerClass(s: seq<Board>, n: nat)
  {
    && AllRooks(s)
    && (forall k :: 0 <= k < |s| ==> Solution(s[k]) && |s[k]| == n)
    && (forall i, j :: 0 <= i < j < |s| ==> !Equivalent(s[i], s[j]))
    && forall x :: Solution(x) && |x| == n && Rooks(x) ==> exists k :: 0 <= k < |s| && Equivalent(x, s[k])
  }

  /** The number is what it is called: any choice of one solution out of each class has
      this length, whatever way it was found. */
  lemma ClassesCounted(s: seq<Board>, n: nat)
    requires n > 0 && OnePerClass(s, n)
    ensures |s| == NumberOfClasses(n)
  {
    hide Rooks, BMin, Solution, AllEmitted, Equivalent, Classes;
    var all, mins := AllEmitted(n, n), seq(|s|, k requires 0 <= k < |s| => BMin(s[k]));
    AllEmittedRooks(n, n);
    forall i, j | 0 <= i < j < |s| ensures mins[i] != mins[j] { BMinCanonical(s[i], s[j]); }
    DistinctCount(mins);
    forall x ensures x in mins <==> x in Classes(all) { MinsAreClasses(s, n, mins, x); }
    assert (set x | x in mins) == Classes(all);
  }

  lemma MinsAreClasses(s: seq<Board>, n: nat, mins: seq<Board>, x: Board)
    requires n > 0 && OnePerClass(s, n) && AllRooks(AllEmitted(n, n))
    requires |mins| == |s| && forall k :: 0 <= k < |s| ==> mins[k] == BMin(s[k])
    ensures x in mins <==> x in Classes(AllEmitted(n, n))
  {
    hide Rooks, BMin, AllEmitted, Equivalent, Solution;
    var all := AllEmitted(n, n);
    AllEmittedExact(n, n);
    if x in mins {
      var k :| 0 <= k < |s| && mins[k] == x;
      FirstRow(s[k]);
      assert s[k] in all;
      var j :| 0 <= j < |all| && all[j] == s[k];
      assert BMin(all[j]) == x;
    }
    if x in Classes(all) {
      var j :| 0 <= j < |all| && BMin(all[j]) == x;
      assert all[j] in all;
      var k :| 0 <= k < |s| && Equivalent(all[j], s[k]);
      BMinCanonical(all[j], s[k]);
      assert mins[k] == x;
    }
  }

  lemma FirstRow(x: Board)
    requires Solution(x) && |x| > 0
    ensures x[0] < |x|
  {
  }
}
