/** Boards of the n-queens program (examples/multicore/nqueens.ml), the eight
    symmetries of a board, and the representative of an equivalence class.

    `b[k]` is the row of the queen in column `k`.
 */
module Queens {

  type Board = seq<int>

  ghost predicate InRange(b: Board)
  {
    forall k :: 0 <= k < |b| ==> 0 <= b[k] < |b|
  }

  /** One queen in each row. */
  ghost predicate Rooks(b: Board)
  {
    InRange(b) && forall i, j :: 0 <= i < j < |b| ==> b[i] != b[j]
  }

  predicate Attack(i: int, r: int, j: int, s: int)
  {
    r == s || r - s == i - j || r - s == j - i
  }

  /** A solution: no queen attacks another one. */
  ghost predicate Solution(b: Board)
  {
    InRange(b) && forall i, j :: 0 <= i < j < |b| ==> !Attack(i, b[i], j, b[j])
  }

  // ------------------------------------------------------ transformations

  function XMirror(b: Board): (m: Board)
  {
    var n := |b|;
    seq(n, k requires 0 <= k < n => b[n - k - 1])
  }

  /** The first `k` rounds of the loop of `rot_90`. */
  function RotRounds(b: Board, k: nat): (r: Board)
    requires InRange(b) && k <= |b|
    ensures |r| == |b|
  {
    if k == 0 then seq(|b|, _ => 0) else RotRounds(b, k - 1)[|b| - 1 - b[k-1] := k - 1]
  }

  function Rot90(b: Board): (r: Board)
    requires InRange(b)
    ensures |r| == |b|
  {
    RotRounds(b, |b|)
  }

  /** `rot_90` itself. */
  method RotateInto(b: array<int>) returns (b': array<int>)
    requires InRange(b[..])
    ensures fresh(b') && b'[..] == Rot90(b[..])
  {
    var n := b.Length;
    b' := new int[n](_ => 0);
    assert b'[..] == RotRounds(b[..], 0);
    for k := 0 to n
      invariant b'[..] == RotRounds(b[..], k)
    {
      var j := b[k];
      assert b[..][k] == j;
      b'[n - 1 - j] := k;
    }
  }

  // --------------------------------------------- one queen in every row

  /** An injective board hits every row. */
  lemma {:induction false} Pigeonhole(b: seq<int>, n: nat)
    requires |b| == n
    requires forall k :: 0 <= k < |b| ==> 0 <= b[k] < n
    requires forall i, j :: 0 <= i < j < |b| ==> b[i] != b[j]
    ensures forall r :: 0 <= r < n ==> r in b
    decreases n
  {
    if n > 0 {
      // put the last value where n - 1 is, and drop the last place
      var last := b[n-1];
      var c := seq(n - 1, k requires 0 <= k < n - 1 => if b[k] == n - 1 then last else b[k]);
      Pigeonhole(c, n - 1);
      forall r | 0 <= r < n ensures r in b {
        var target := if r < n - 1 then r else last;
        if target < n - 1 {
          assert target in c;
          var k :| 0 <= k < |c| && c[k] == target;
          assert b[k] == r || b[n-1] == r;
        }
      }
    }
  }

  ghost function ColumnOf(b: Board, r: int): (k: int)
    requires Rooks(b) && 0 <= r < |b|
    ensures 0 <= k < |b| && b[k] == r
  {
    Pigeonhole(b, |b|);
    assert r in b;
    var k :| 0 <= k < |b| && b[k] == r;
    k
  }

  lemma {:induction false} RotRoundsAt(b: Board, k: nat, i: nat)
    requires Rooks(b) && i < k <= |b|
    ensures RotRounds(b, k)[|b| - 1 - b[i]] == i
  {
    if i < k - 1 { RotRoundsAt(b, k - 1, i); }
  }

  /** `rot_90` moves the queen at column `k` and row `b[k]` to column
      `n - 1 - b[k]` and row `k`, and this describes the result completely. */
  lemma RotAt(b: Board)
    requires Rooks(b)
    ensures forall k :: 0 <= k < |b| ==> Rot90(b)[|b| - 1 - b[k]] == k
    ensures forall c :: 0 <= c < |b| ==> 0 <= Rot90(b)[c] < |b| && b[Rot90(b)[c]] == |b| - 1 - c
    ensures Rooks(Rot90(b))
  {
    forall k | 0 <= k < |b| ensures Rot90(b)[|b| - 1 - b[k]] == k { RotRoundsAt(b, |b|, k); }
    forall c | 0 <= c < |b| ensures 0 <= Rot90(b)[c] < |b| && b[Rot90(b)[c]] == |b| - 1 - c {
      var k := ColumnOf(b, |b| - 1 - c);
      assert Rot90(b)[|b| - 1 - b[k]] == k;
    }
  }

  // ------------------------------------------------- the group of symmetries

  lemma MirrorRooks(b: Board)
    requires Rooks(b)
    ensures Rooks(XMirror(b))
  {
  }

  function HalfTurn(b: Board): Board
  {
    var n := |b|;
    seq(n, c requires 0 <= c < n => n - 1 - b[n - 1 - c])
  }

  lemma RotRooks(b: Board)
    requires Rooks(b)
    ensures InRange(b) && InRange(Rot90(b)) && Rooks(Rot90(b))
  {
    RotAt(b);
  }

  lemma RotColumn(b: Board, c: nat)
    requires Rooks(b) && c < |b|
    ensures 0 <= Rot90(b)[c] < |b| && b[Rot90(b)[c]] == |b| - 1 - c
  {
    RotAt(b);
  }

  lemma Rot180(b: Board)
    requires Rooks(b)
    ensures Rooks(Rot90(b)) && Rot90(Rot90(b)) == HalfTurn(b) && Rooks(HalfTurn(b))
  {
    hide Rot90, InRange, Rooks;
    RotRooks(b);
    RotRooks(Rot90(b));
    var n, r1 := |b|, Rot90(b);
    var r := Rot90(r1);
    forall c | 0 <= c < n ensures r[c] == n - 1 - b[n - 1 - c] {
      RotColumn(r1, c);
      RotColumn(b, r[c]);
    }
    assert r == HalfTurn(b);
  }

  lemma HalfTurnTwice(b: Board)
    ensures HalfTurn(HalfTurn(b)) == b
  {
  }

  lemma RotFour(b: Board)
    requires Rooks(b)
    ensures Rooks(Rot90(b)) && Rooks(Rot90(Rot90(b))) && Rooks(Rot90(Rot90(Rot90(b))))
    ensures Rot90(Rot90(Rot90(Rot90(b)))) == b
  {
    hide Rot90, InRange, HalfTurn;
    Rot180(b);
    Rot180(HalfTurn(b));
    HalfTurnTwice(b);
  }

  lemma MirrorTwice(b: Board)
    ensures XMirror(XMirror(b)) == b
  {
  }

  /** A mirrored board turns to the upside-down image of the turned board. */
  lemma RotMirrorAt(b: Board)
    requires Rooks(b)
    ensures Rooks(XMirror(b)) && Rooks(Rot90(b))
    ensures forall c :: 0 <= c < |b| ==> Rot90(XMirror(b))[c] == |b| - 1 - Rot90(b)[c]
  {
    hide Rot90;
    var n, m := |b|, XMirror(b);
    MirrorRooks(b);
    RotAt(b);
    RotAt(m);
    forall c | 0 <= c < n ensures Rot90(m)[c] == n - 1 - Rot90(b)[c] {
      var k := Rot90(m)[c];
      assert m[k] == n - 1 - c && m[k] == b[n - 1 - k];
      assert Rot90(b)[n - 1 - b[n - 1 - k]] == n - 1 - k;
    }
  }

  /** Mirroring turns a rotation into the opposite rotation. */
  lemma RotMirror(b: Board)
    requires Rooks(b)
    ensures Rooks(XMirror(b)) && Rooks(Rot90(b)) && Rooks(Rot90(Rot90(b)))
    ensures Rot90(XMirror(b)) == XMirror(Rot90(Rot90(Rot90(b))))
  {
    hide Rot90, InRange;
    RotMirrorAt(b);
    Rot180(b);
    Rot180(Rot90(b));
    assert Rot90(XMirror(b)) == XMirror(HalfTurn(Rot90(b)));
  }

  /** `transformations` */
  function Transformations(b: Board): (l: seq<Board>)
    requires Rooks(b)
    ensures |l| == 8 && l[0] == b
  {
    RotFour(b);
    var b90 := Rot90(b);
    var b180 := Rot90(b90);
    var b270 := Rot90(b180);
    [b, b90, b180, b270, XMirror(b), XMirror(b270), XMirror(b180), XMirror(b90)]
  }

  datatype Move = Rotate | Mirror

  /** Any sequence of rotations and mirrorings. */
  ghost function Moved(moves: seq<Move>, b: Board): (r: Board)
    requires Rooks(b)
    ensures Rooks(r) && |r| == |b|
  {
    if moves == [] then b
    else
      var r := Moved(moves[..|moves|-1], b);
      RotAt(r);
      MirrorRooks(r);
      match moves[|moves|-1]
      case Rotate => Rot90(r)
      case Mirror => XMirror(r)
  }

  ghost predicate Equivalent(a: Board, b: Board)
    requires Rooks(a)
  {
    exists moves :: Moved(moves, a) == b
  }

  lemma TransformationsRooks(b: Board)
    requires Rooks(b)
    ensures forall x :: x in Transformations(b) ==> Rooks(x) && |x| == |b|
  {
    RotFour(b);
    RotAt(Rot90(Rot90(b)));
    MirrorRooks(b);
    MirrorRooks(Rot90(b));
    MirrorRooks(Rot90(Rot90(b)));
    MirrorRooks(Rot90(Rot90(Rot90(b))));
  }

  /** The eight boards are closed under both generators. */
  lemma TransformationsClosed(b: Board, x: Board)
    requires Rooks(b) && x in Transformations(b) && Rooks(x)
    ensures Rot90(x) in Transformations(b) && XMirror(x) in Transformations(b)
  {
    hide Rot90, XMirror, InRange;
    var l := Transformations(b);
    TransformationsAt(b);
    hide Transformations, Rooks;
    assert forall j :: 0 <= j < 8 ==> l[j] in l;
    var i :| 0 <= i < 8 && l[i] == x;
  }

  /** How rotating and mirroring permute the list. */
  lemma TransformationsAt(b: Board)
    requires Rooks(b)
    ensures var l := Transformations(b);
      && (forall i :: 0 <= i < 8 ==> Rooks(l[i]))
      && Rot90(l[0]) == l[1] && Rot90(l[1]) == l[2] && Rot90(l[2]) == l[3] && Rot90(l[3]) == l[0]
      && Rot90(l[4]) == l[5] && Rot90(l[5]) == l[6] && Rot90(l[6]) == l[7] && Rot90(l[7]) == l[4]
      && XMirror(l[0]) == l[4] && XMirror(l[1]) == l[7] && XMirror(l[2]) == l[6] && XMirror(l[3]) == l[5]
      && XMirror(l[4]) == l[0] && XMirror(l[7]) == l[1] && XMirror(l[6]) == l[2] && XMirror(l[5]) == l[3]
  {
    hide Rot90, XMirror, InRange;
    var l := Transformations(b);
    TransformationsRooks(b);
    assert forall i :: 0 <= i < 8 ==> l[i] in l;
    RotFour(b);
    RotFour(l[1]);
    RotFour(l[2]);
    RotMirror(b);
    RotMirror(l[1]);
    RotMirror(l[2]);
    RotMirror(l[3]);
    MirrorTwice(b);
    MirrorTwice(l[1]);
    MirrorTwice(l[2]);
    MirrorTwice(l[3]);
  }

  lemma {:induction false} MovedInside(moves: seq<Move>, x: Board, b: Board)
    requires Rooks(b) && Rooks(x) && x in Transformations(b)
    ensures Moved(moves, x) in Transformations(b)
  {
    if moves != [] {
      var front := moves[..|moves|-1];
      MovedInside(front, x, b);
      TransformationsClosed(b, Moved(front, x));
    }
  }

  /** `transformations` lists exactly the boards that rotating and mirroring can
      produce, in any number and order. */
  lemma TransformationsAreOrbit(b: Board, x: Board)
    requires Rooks(b)
    ensures x in Transformations(b) <==> Equivalent(b, x)
  {
    OrbitWords(b);
    if Equivalent(b, x) {
      var moves :| Moved(moves, b) == x;
      MovedInside(moves, b, b);
    }
  }

  lemma OrbitWords(b: Board)
    requires Rooks(b)
    ensures forall x :: x in Transformations(b) ==> Equivalent(b, x)
  {
    hide Transformations, Equivalent, Rooks;
    forall x | x in Transformations(b) ensures Equivalent(b, x) {
      MovedNone(b);
      var i :| 0 <= i < 8 && Transformations(b)[i] == x;
      OrbitWord(b, i);
    }
  }

  /** The turned boards in turn, and each mirrored one from a turned one. */
  lemma {:induction false} OrbitWord(b: Board, i: nat)
    requires Rooks(b) && i < 8
    ensures |Transformations(b)| == 8 && Equivalent(b, Transformations(b)[i])
  {
    hide Transformations, Equivalent, Rooks, Rot90, XMirror;
    MovedNone(b);
    if i > 0 {
      var j := if i < 4 then i - 1 else if i == 4 then 0 else 8 - i;
      TransformationsAt(b);
      OrbitWord(b, j);
      EquivalentStep(b, Transformations(b)[j]);
    }
  }

  lemma MovedNone(b: Board)
    requires Rooks(b)
    ensures |Transformations(b)| == 8 && Equivalent(b, Transformations(b)[0])
  {
    assert Moved([], b) == b == Transformations(b)[0];
  }

  lemma EquivalentStep(b: Board, x: Board)
    requires Rooks(b) && Rooks(x) && Equivalent(b, x)
    ensures Equivalent(b, Rot90(x)) && Equivalent(b, XMirror(x))
  {
    hide Rot90, XMirror, Moved;
    var moves :| Moved(moves, b) == x;
    MovedStep(moves, Rotate, b);
    MovedStep(moves, Mirror, b);
  }

  lemma MovedStep(moves: seq<Move>, m: Move, b: Board)
    requires Rooks(b)
    ensures Moved(moves + [m], b) == if m.Rotate? then Rot90(Moved(moves, b)) else XMirror(Moved(moves, b))
  {
    assert (moves + [m])[..|moves|] == moves;
  }

  /** Equivalent boards have the same eight transformations. */
  lemma SameOrbit(b: Board, x: Board)
    requires Rooks(b) && x in Transformations(b)
    ensures Rooks(x) && |x| == |b|
    ensures b in Transformations(x)
    ensures forall y :: y in Transformations(x) <==> y in Transformations(b)
  {
    TransformationsRooks(b);
    OrbitBack(b, x);
    forall y | y in Transformations(x) ensures y in Transformations(b) {
      OrbitWords(x);
      var moves :| Moved(moves, x) == y;
      MovedInside(moves, x, b);
    }
    forall y | y in Transformations(b) ensures y in Transformations(x) {
      OrbitWords(b);
      var moves :| Moved(moves, b) == y;
      MovedInside(moves, b, x);
    }
  }

  lemma OrbitBack(b: Board, x: Board)
    requires Rooks(b) && x in Transformations(b) && Rooks(x)
    ensures b in Transformations(x)
  {
    hide Rot90, XMirror, InRange;
    TransformationsAt(b);
    TransformationsAt(x);
    var l, t := Transformations(b), Transformations(x);
    var i :| 0 <= i < 8 && l[i] == x;
    if i < 4 {
      assert t[(4 - i) % 4] == b;
    } else {
      assert t[i] == b;
    }
  }

  // ---------------------------------------------------- the representative

  /** OCaml's `compare` on arrays of the same size. */
  predicate LexLeq(a: Board, b: Board)
    requires |a| == |b|
  {
    a == [] || a[0] < b[0] || (a[0] == b[0] && LexLeq(a[1..], b[1..]))
  }

  /** OCaml's `compare` on arrays: the size counts first. */
  predicate Leq(a: Board, b: Board)
  {
    |a| < |b| || (|a| == |b| && LexLeq(a, b))
  }

  lemma {:induction false} LexOrder(a: Board, b: Board, c: Board)
    requires |a| == |b| == |c|
    ensures LexLeq(a, a)
    ensures LexLeq(a, b) || LexLeq(b, a)
    ensures LexLeq(a, b) && LexLeq(b, a) ==> a == b
    ensures LexLeq(a, b) && LexLeq(b, c) ==> LexLeq(a, c)
  {
    if a != [] { LexOrder(a[1..], b[1..], c[1..]); }
    if a != [] && a[0] == b[0] && a[1..] == b[1..] {
      assert a == [a[0]] + a[1..] && b == [b[0]] + b[1..];
    }
  }

  lemma Order(a: Board, b: Board, c: Board)
    ensures Leq(a, a)
    ensures Leq(a, b) || Leq(b, a)
    ensures Leq(a, b) && Leq(b, a) ==> a == b
    ensures Leq(a, b) && Leq(b, c) ==> Leq(a, c)
  {
    LexOrder(a, a, a);
    if |a| == |b| { LexOrder(a, b, a); }
    if |a| == |b| == |c| { LexOrder(a, b, c); }
  }

  /** `List.fold_left (fun acc b1 -> min acc b1)` */
  function FoldMin(acc: Board, l: seq<Board>): Board
    decreases |l|
  {
    if l == [] then acc else FoldMin(if Leq(acc, l[0]) then acc else l[0], l[1..])
  }

  lemma {:induction false} FoldMinIsLeast(acc: Board, l: seq<Board>)
    ensures FoldMin(acc, l) == acc || FoldMin(acc, l) in l
    ensures Leq(FoldMin(acc, l), acc)
    ensures forall x :: x in l ==> Leq(FoldMin(acc, l), x)
    decreases |l|
  {
    if l == [] {
      Order(acc, acc, acc);
    } else {
      var next := if Leq(acc, l[0]) then acc else l[0];
      FoldMinIsLeast(next, l[1..]);
      var m := FoldMin(next, l[1..]);
      Order(acc, l[0], acc);
      Order(m, next, acc);
      Order(m, next, l[0]);
      forall x | x in l ensures Leq(m, x) {
        if x != l[0] { assert x in l[1..]; }
      }
    }
  }

  /** `b_min` of the workers. */
  function BMin(b: Board): Board
    requires Rooks(b)
  {
    FoldMin(Transformations(b)[0], Transformations(b)[1..])
  }

  lemma BMinIsLeast(b: Board)
    requires Rooks(b)
    ensures BMin(b) in Transformations(b)
    ensures forall x :: x in Transformations(b) ==> Leq(BMin(b), x)
    ensures Rooks(BMin(b)) && |BMin(b)| == |b|
  {
    var l := Transformations(b);
    hide Transformations;
    assert l == [l[0]] + l[1..];
    FoldMinIsLeast(l[0], l[1..]);
    TransformationsRooks(b);
  }

  /** Main result: the representative is the same exactly for boards that can be
      turned or mirrored into each other. */
  lemma BMinCanonical(a: Board, b: Board)
    requires Rooks(a) && Rooks(b)
    ensures BMin(a) == BMin(b) <==> Equivalent(a, b)
  {
    hide BMin, Transformations, Rooks;
    BMinIsLeast(a);
    BMinIsLeast(b);
    TransformationsAreOrbit(a, b);
    if b in Transformations(a) {
      SameOrbit(a, b);
      Order(BMin(a), BMin(b), BMin(a));
    }
    if BMin(a) == BMin(b) {
      SameOrbit(a, BMin(a));
      SameOrbit(b, BMin(b));
    }
  }

  // ------------------------------------------------------------ solutions

  lemma LeqFirst(a: Board, b: Board)
    requires Leq(a, b) && |a| == |b| > 0
    ensures a[0] <= b[0]
  {
  }

  /** The first rows of four of the eight boards. */
  lemma FirstRows(b: Board)
    requires Rooks(b) && |b| > 0
    ensures var l, n := Transformations(b), |b|;
      && |l[2]| == |l[4]| == |l[6]| == n
      && l[0][0] == b[0] && l[4][0] == b[n-1] && l[2][0] == n - 1 - b[n-1] && l[6][0] == n - 1 - b[0]
  {
    Rot180(b);
    hide Rot90;
  }

  /** The representative of a board of size two or more has its first queen in the
      first half of the rows. */
  lemma BMinFirstHalf(b: Board)
    requires Rooks(b) && |b| >= 2
    ensures |BMin(b)| == |b| && 0 <= BMin(b)[0] < |b| / 2
  {
    var n := |b|;
    BMinIsLeast(b);
    FirstRows(b);
    assert b[0] != b[n-1] && 0 <= b[0] < n && 0 <= b[n-1] < n;
    assert 0 <= BMin(b)[0];
    hide BMin, Leq, Transformations, Rooks;
    var l := Transformations(b);
    assert l[0] in l && l[2] in l && l[4] in l && l[6] in l;
    LeqFirst(BMin(b), l[0]);
    LeqFirst(BMin(b), l[2]);
    LeqFirst(BMin(b), l[4]);
    LeqFirst(BMin(b), l[6]);
  }

  lemma SolutionIsRooks(b: Board)
    requires Solution(b)
    ensures Rooks(b)
  {
    forall i, j | 0 <= i < j < |b| ensures b[i] != b[j] {
      assert !Attack(i, b[i], j, b[j]);
    }
  }

  lemma MirrorSolution(b: Board)
    requires Solution(b)
    ensures Solution(XMirror(b))
  {
    var n, m := |b|, XMirror(b);
    forall i, j | 0 <= i < j < n ensures !Attack(i, m[i], j, m[j]) {
      assert !Attack(n - 1 - j, b[n - 1 - j], n - 1 - i, b[n - 1 - i]);
    }
  }

  lemma RotSolution(b: Board)
    requires Solution(b)
    ensures Rooks(b) && Solution(Rot90(b))
  {
    hide Rot90;
    SolutionIsRooks(b);
    RotAt(b);
    var n, r := |b|, Rot90(b);
    forall i, j | 0 <= i < j < n ensures !Attack(i, r[i], j, r[j]) {
      var p, q := r[i], r[j];
      assert b[p] == n - 1 - i && b[q] == n - 1 - j;
      if p < q { assert !Attack(p, b[p], q, b[q]); }
      if q < p { assert !Attack(q, b[q], p, b[p]); }
    }
  }

  /** Every transformation of a solution is a solution. */
  lemma OrbitOfSolution(b: Board, x: Board)
    requires Solution(b) && Rooks(b) && x in Transformations(b)
    ensures Solution(x)
  {
    hide Rot90, XMirror, Solution;
    RotSolution(b);
    RotSolution(Rot90(b));
    RotSolution(Rot90(Rot90(b)));
    MirrorSolution(b);
    MirrorSolution(Rot90(b));
    MirrorSolution(Rot90(Rot90(b)));
    MirrorSolution(Rot90(Rot90(Rot90(b))));
  }

  // ------------------------------------------------------------ chess rules

  /** A queen goes from column `i` and row `r` to column `j` and row `s` in `t` steps in
      one of the eight directions. */
  predicate QueenMove(i: int, r: int, j: int, s: int, dx: int, dy: int, t: int)
  {
    && -1 <= dx <= 1 && -1 <= dy <= 1 && (dx != 0 || dy != 0)
    && t > 0 && j == i + t * dx && s == r + t * dy
  }

  lemma AttackIsMove(i: int, r: int, j: int, s: int)
    requires i < j
    ensures Attack(i, r, j, s) <==> exists dx, dy, t :: QueenMove(i, r, j, s, dx, dy, t)
  {
    if Attack(i, r, j, s) {
      assert QueenMove(i, r, j, s, 1, if s == r then 0 else if s > r then 1 else -1, j - i);
    } else {
      forall dx, dy, t ensures !QueenMove(i, r, j, s, dx, dy, t) {
        if -1 <= dx <= 1 && -1 <= dy <= 1 {
          assert t * dx == (if dx == 0 then 0 else if dx == 1 then t else -t);
          assert t * dy == (if dy == 0 then 0 else if dy == 1 then t else -t);
        }
      }
    }
  }

  /** A solution by the rules of chess: no queen can go to the place of another one. */
  lemma SolutionByMoves(b: Board)
    ensures Solution(b) <==>
      && (forall k :: 0 <= k < |b| ==> 0 <= b[k] < |b|)
      && forall i, j, dx, dy, t :: 0 <= i < j < |b| ==> !QueenMove(i, b[i], j, b[j], dx, dy, t)
  {
    hide QueenMove, Attack;
    forall i, j | 0 <= i < j < |b|
      ensures Attack(i, b[i], j, b[j]) <==> exists dx, dy, t :: QueenMove(i, b[i], j, b[j], dx, dy, t)
    {
      AttackIsMove(i, b[i], j, b[j]);
    }
  }
}
