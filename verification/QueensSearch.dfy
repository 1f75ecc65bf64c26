/** `solve` of examples/multicore/nqueens.ml: backtracking over the arrays of free
    rows and free diagonals.
 */
module QueensSearch {
  import opened Queens
  import opened Sequences

  /** Queens in the first columns of a board of size `n`, none attacking another. */
  ghost predicate Placed(p: Board, n: nat)
  {
    && |p| <= n
    && (forall k :: 0 <= k < |p| ==> 0 <= p[k] < n)
    && forall i, j :: 0 <= i < j < |p| ==> !Attack(i, p[i], j, p[j])
  }

  /** Can the next column take a queen in `row`? */
  predicate Free(p: Board, row: int)
  {
    forall i :: 0 <= i < |p| ==> !Attack(i, p[i], |p|, row)
  }

  /** The boards that `search` emits for the placed queens `p`, in order, when it
      tries the rows from `row` on. */
  function Extensions(p: Board, n: nat, row: nat): seq<Board>
    requires |p| <= n && row <= n
    decreases n - |p|, n - row
  {
    if |p| == n then [p]
    else if row == n then []
    else (if Free(p, row) then Extensions(p + [row], n, 0) else []) + Extensions(p, n, row + 1)
  }

  // ------------------------------------------------------- the search loop

  /** `b1`, `d1` and `d2` mark the rows and diagonals that `p` leaves free. */
  ghost predicate Marks(p: Board, n: nat, b1: seq<bool>, d1: seq<bool>, d2: seq<bool>)
  {
    && |b1| == n && |d1| == |d2| == 2 * n - 1
    && (forall r :: 0 <= r < n ==> (b1[r] <==> forall i :: 0 <= i < |p| ==> p[i] != r))
    && (forall k :: 0 <= k < 2 * n - 1 ==> (d1[k] <==> forall i :: 0 <= i < |p| ==> p[i] - i + n - 1 != k))
    && (forall k :: 0 <= k < 2 * n - 1 ==> (d2[k] <==> forall i :: 0 <= i < |p| ==> n + n - 2 - p[i] - i != k))
  }

  lemma MarksFree(p: Board, n: nat, b1: seq<bool>, d1: seq<bool>, d2: seq<bool>, row: nat)
    requires |p| < n && row < n && Marks(p, n, b1, d1, d2)
    ensures b1[row] && d1[row - |p| + n - 1] && d2[n + n - 2 - row - |p|] <==> Free(p, row)
  {
    var k1, k2 := row - |p| + n - 1, n + n - 2 - row - |p|;
    if Free(p, row) {
      forall i | 0 <= i < |p| ensures p[i] != row && p[i] - i + n - 1 != k1 && n + n - 2 - p[i] - i != k2 {
        assert !Attack(i, p[i], |p|, row);
      }
    } else {
      var i :| 0 <= i < |p| && Attack(i, p[i], |p|, row);
      assert p[i] == row || p[i] - i + n - 1 == k1 || n + n - 2 - p[i] - i == k2;
    }
  }

  lemma MarksPut(p: Board, n: nat, b1: seq<bool>, d1: seq<bool>, d2: seq<bool>, row: nat)
    requires |p| < n && row < n && Marks(p, n, b1, d1, d2)
    ensures var k1, k2 := row - |p| + n - 1, n + n - 2 - row - |p|;
      Marks(p + [row], n, b1[row := false], d1[k1 := false], d2[k2 := false])
  {
    var q := p + [row];
    assert forall i :: 0 <= i < |p| ==> q[i] == p[i];
    assert q[|p|] == row;
  }

  lemma ExtensionsRow(p: Board, n: nat, row: nat, done: seq<Board>)
    requires |p| < n && row < n
    ensures done + Extensions(p, n, row)
      == (if Free(p, row) then done + Extensions(p + [row], n, 0) else done) + Extensions(p, n, row + 1)
  {
    hide Free;
    if Free(p, row) {
      var a, b := Extensions(p + [row], n, 0), Extensions(p, n, row + 1);
      assert done + (a + b) == (done + a) + b;
    }
  }

  lemma ExtensionsEnd(p: Board, n: nat)
    requires |p| <= n
    ensures |p| == n ==> Extensions(p, n, 0) == [p]
    ensures |p| < n ==> Extensions(p, n, n) == []
  {
  }

  /** `search`; `done` is what was emitted before.  The arrays of free rows and
      diagonals are left as they were found. */
  method Search(n: nat, col: nat, b0: array<int>, b1: array<bool>, d1: array<bool>, d2: array<bool>,
                done: seq<Board>)
    returns (emitted: seq<Board>)
    requires col <= n == b0.Length == b1.Length && d1.Length == d2.Length == 2 * n - 1
    requires b1 != d1 && b1 != d2 && d1 != d2
    requires Marks(b0[..col], n, b1[..], d1[..], d2[..])
    modifies b0, b1, d1, d2
    ensures b1[..] == old(b1[..]) && d1[..] == old(d1[..]) && d2[..] == old(d2[..])
    ensures b0[..col] == old(b0[..col])
    ensures emitted == done + Extensions(b0[..col], n, 0)
    decreases n - col, 1
  {
    hide Marks, Free, Extensions;
    emitted := done;
    ghost var p, s1, t1, t2 := b0[..col], b1[..], d1[..], d2[..];
    ExtensionsEnd(p, n);
    if col == n {
      assert b0[..] == p;
      emitted := emitted + [b0[..]];
    } else {
      for row := 0 to n
        invariant b1[..] == s1 && d1[..] == t1 && d2[..] == t2 && b0[..col] == p
        invariant emitted + Extensions(p, n, row) == done + Extensions(p, n, 0)
      {
        MarksFree(p, n, s1, t1, t2, row);
        ExtensionsRow(p, n, row, emitted);
        if b1[row] && d1[row - col + n - 1] && d2[n + n - 2 - row - col] {
          emitted := Try(n, col, row, b0, b1, d1, d2, emitted);
        }
      }
    }
  }

  /** The guarded part of the loop body: put a queen, go on, take it away. */
  method Try(n: nat, col: nat, row: nat, b0: array<int>, b1: array<bool>, d1: array<bool>, d2: array<bool>,
             done: seq<Board>)
    returns (emitted: seq<Board>)
    requires col < n == b0.Length == b1.Length && d1.Length == d2.Length == 2 * n - 1 && row < n
    requires b1 != d1 && b1 != d2 && d1 != d2
    requires Marks(b0[..col], n, b1[..], d1[..], d2[..])
    requires b1[row] && d1[row - col + n - 1] && d2[n + n - 2 - row - col]
    modifies b0, b1, d1, d2
    ensures b1[..] == old(b1[..]) && d1[..] == old(d1[..]) && d2[..] == old(d2[..])
    ensures b0[..col] == old(b0[..col])
    ensures emitted == done + Extensions(old(b0[..col]) + [row], n, 0)
    decreases n - col, 0
  {
    hide Marks, Extensions;
    ghost var p := b0[..col];
    MarksPut(p, n, b1[..], d1[..], d2[..], row);
    var k1 := row - col + n - 1;
    var k2 := n + n - 2 - row - col;
    b0[col] := row;
    b1[row] := false;
    d1[k1] := false;
    d2[k2] := false;
    assert b0[..col+1] == p + [row];
    assert b1[..] == old(b1[..])[row := false];
    assert d1[..] == old(d1[..])[k1 := false];
    assert d2[..] == old(d2[..])[k2 := false];
    emitted := Search(n, col + 1, b0, b1, d1, d2, done);
    assert b0[..col] == b0[..col+1][..col];
    b1[row] := true;
    d1[k1] := true;
    d2[k2] := true;
  }

  /** `solve first_queen n`: the sequence of boards handed to `emit`. */
  method Solve(firstQueen: nat, n: nat) returns (emitted: seq<Board>)
    requires firstQueen < n
    ensures emitted == Extensions([firstQueen], n, 0)
  {
    var b0 := new int[n](_ => -1);
    var b1 := new bool[n](_ => true);
    var d1 := new bool[2 * n - 1](_ => true);
    var d2 := new bool[2 * n - 1](_ => true);
    assert Marks([], n, b1[..], d1[..], d2[..]);
    hide Marks, Extensions;
    MarksPut([], n, b1[..], d1[..], d2[..], firstQueen);
    ghost var s1, t1, t2 := b1[..], d1[..], d2[..];
    b0[0] := firstQueen;
    b1[firstQueen] := false;
    d1[firstQueen + n - 1] := false;
    d2[n + n - 2 - firstQueen] := false;
    assert b0[..1] == [firstQueen] == [] + [firstQueen];
    assert b1[..] == s1[firstQueen := false] && d1[..] == t1[firstQueen + n - 1 := false]
        && d2[..] == t2[n + n - 2 - firstQueen := false];
    emitted := Search(n, 1, b0, b1, d1, d2, []);
  }

  // ---------------------------------------------------- what is emitted

  /** A solution that has the placed queens, and the next queen in `row` or above. */
  ghost predicate Continues(x: Board, p: Board, n: nat, row: nat)
  {
    Solution(x) && |x| == n && p <= x && (|p| < n ==> x[|p|] >= row)
  }

  lemma ContinuesFull(x: Board, p: Board, n: nat, row: nat)
    requires Placed(p, n) && |p| == n
    ensures Continues(x, p, n, row) <==> x == p
  {
    PlacedFull(p, n);
    hide Solution;
    assert p <= x && |x| == n ==> x == p;
  }

  lemma ContinuesEnd(x: Board, p: Board, n: nat)
    requires |p| < n
    ensures !Continues(x, p, n, n)
  {
  }

  lemma ContinuesStep(x: Board, p: Board, n: nat, row: nat)
    requires |p| < n && row < n
    ensures Continues(x, p, n, row) <==>
      Continues(x, p, n, row + 1) || (Free(p, row) && Continues(x, p + [row], n, 0))
  {
    SolutionInside(x);
    if Solution(x) && |x| == n && p <= x && x[|p|] == row {
      SolutionFree(p, x);
      hide Solution, Free;
      assert p + [row] <= x;
    }
    hide Solution, Free;
    if p + [row] <= x {
      assert p == (p + [row])[..|p|] == x[..|p|] && x[|p|] == (p + [row])[|p|];
    }
  }

  ghost predicate Emits(x: Board, p: Board, n: nat, row: nat)
    requires |p| <= n && row <= n
  {
    x in Extensions(p, n, row)
  }

  lemma EmitsStep(x: Board, p: Board, n: nat, row: nat)
    requires |p| < n && row < n
    ensures Emits(x, p, n, row) <==> Emits(x, p, n, row + 1) || (Free(p, row) && Emits(x, p + [row], n, 0))
  {
    hide Free;
  }

  lemma EmitsBase(x: Board, p: Board, n: nat, row: nat)
    requires Placed(p, n) && row <= n && (|p| == n || row == n)
    ensures Emits(x, p, n, row) <==> Continues(x, p, n, row)
  {
    PlacedFull(p, n);
    if |p| == n { ContinuesFull(x, p, n, row); } else { ContinuesEnd(x, p, n); }
    hide Continues, Solution, Placed;
  }

  /** `search` emits exactly the solutions that continue the placed queens. */
  lemma {:induction false} ExtensionsExact(p: Board, n: nat, row: nat, x: Board)
    requires Placed(p, n) && row <= n
    ensures Emits(x, p, n, row) <==> Continues(x, p, n, row)
    decreases n - |p|, n - row
  {
    PlacedFull(p, n);
    hide Free, Placed, Continues, Emits;
    if |p| == n || row == n {
      EmitsBase(x, p, n, row);
    } else {
      ContinuesStep(x, p, n, row);
      EmitsStep(x, p, n, row);
      ExtensionsExact(p, n, row + 1, x);
      if Free(p, row) {
        PlacedPut(p, n, row);
        ExtensionsExact(p + [row], n, 0, x);
      }
    }
  }

  lemma PlacedFull(p: Board, n: nat)
    requires Placed(p, n)
    ensures |p| <= n && (|p| == n ==> Solution(p))
  {
  }

  lemma SolutionInside(x: Board)
    ensures Solution(x) ==> forall k :: 0 <= k < |x| ==> 0 <= x[k] < |x|
  {
  }

  lemma SolutionFree(p: Board, x: Board)
    requires Solution(x) && p < x
    ensures Free(p, x[|p|])
  {
    forall i | 0 <= i < |p| ensures !Attack(i, p[i], |p|, x[|p|]) {
      assert !Attack(i, x[i], |p|, x[|p|]);
    }
  }

  lemma PlacedPut(p: Board, n: nat, row: nat)
    requires Placed(p, n) && |p| < n && row < n && Free(p, row)
    ensures Placed(p + [row], n)
  {
    var q := p + [row];
    forall i, j | 0 <= i < j < |q| ensures !Attack(i, q[i], j, q[j]) {
      if j < |p| { assert !Attack(i, p[i], j, p[j]); }
    }
  }

  ghost predicate Apart(a: seq<Board>, b: seq<Board>) { forall x :: x in a ==> x !in b }

  lemma NoDuplicatesJoin(a: seq<Board>, b: seq<Board>)
    requires NoDuplicates(a) && NoDuplicates(b) && Apart(a, b)
    ensures NoDuplicates(a + b)
  {
    var s := a + b;
    forall i, j | 0 <= i < j < |s| ensures s[i] != s[j] {
      if i < |a| <= j {
        assert s[i] in a && s[j] in b;
      }
    }
  }

  lemma OneBoard(p: Board)
    ensures NoDuplicates<Board>([]) && NoDuplicates([p])
  {
  }

  lemma RowsApart(p: Board, n: nat, row: nat)
    requires Placed(p, n) && |p| < n && row < n && Free(p, row)
    ensures Apart(Extensions(p + [row], n, 0), Extensions(p, n, row + 1))
  {
    hide Extensions, Solution, Free, Placed;
    PlacedPut(p, n, row);
    forall x | x in Extensions(p + [row], n, 0) ensures x !in Extensions(p, n, row + 1) {
      ExtensionsExact(p + [row], n, 0, x);
      ExtensionsExact(p, n, row + 1, x);
      assert x[|p|] == (p + [row])[|p|];
    }
  }

  /** ... each of them once. */
  lemma {:induction false} ExtensionsOnce(p: Board, n: nat, row: nat)
    requires Placed(p, n) && row <= n
    ensures NoDuplicates(Extensions(p, n, row))
    decreases n - |p|, n - row
  {
    assert |p| <= n;
    hide Free, Solution, Placed, NoDuplicates, Apart;
    OneBoard(p);
    if |p| < n && row < n {
      ExtensionsOnce(p, n, row + 1);
      if Free(p, row) {
        PlacedPut(p, n, row);
        ExtensionsOnce(p + [row], n, 0);
        var a, b := Extensions(p + [row], n, 0), Extensions(p, n, row + 1);
        RowsApart(p, n, row);
        NoDuplicatesJoin(a, b);
      } else {
        assert [] + Extensions(p, n, row + 1) == Extensions(p, n, row + 1);
      }
    }
  }

  /** Main result on `solve`. */
  lemma SolveExact(firstQueen: nat, n: nat)
    requires firstQueen < n
    ensures var emitted := Extensions([firstQueen], n, 0);
      && NoDuplicates(emitted)
      && forall x :: x in emitted <==> Solution(x) && |x| == n && x[0] == firstQueen
  {
    ExtensionsOnce([firstQueen], n, 0);
    forall x ensures x in Extensions([firstQueen], n, 0) <==> Solution(x) && |x| == n && x[0] == firstQueen {
      ExtensionsExact([firstQueen], n, 0, x);
    }
  }

  /** All workers together, for the first queens below `k`. */
  function AllEmitted(n: nat, k: nat): seq<Board>
    requires k <= n
  {
    if k == 0 then [] else AllEmitted(n, k - 1) + Extensions([k-1], n, 0)
  }

  /** The runs over all first queens together find every solution once. */
  lemma {:induction false} AllEmittedExact(n: nat, k: nat)
    requires k <= n
    ensures NoDuplicates(AllEmitted(n, k))
    ensures forall x :: x in AllEmitted(n, k) <==> Solution(x) && |x| == n && n > 0 && x[0] < k
  {
    hide NoDuplicates, Solution, Extensions;
    if k == 0 {
      OneBoard([]);
      forall x | Solution(x) && |x| == n && n > 0 ensures x[0] >= 0 { SolutionInside(x); }
    } else {
      AllEmittedExact(n, k - 1);
      SolveExact(k - 1, n);
      var a, b := AllEmitted(n, k - 1), Extensions([k-1], n, 0);
      assert forall x :: x in a + b <==> x in a || x in b;
      NoDuplicatesJoin(a, b);
    }
  }
}
