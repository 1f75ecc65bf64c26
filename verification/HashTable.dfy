/** The open-addressing table of src/netsys/netsys_c_htab.c: linear probing,
    address 0 (NULL) marks a free cell, and the table is doubled and rehashed
    when more than half of the cells are in use.

    `mix` stands for the FNV-1 arithmetic of the macro H; H itself is
    `mix(x) % size`.  Everything is proved for an arbitrary `mix`.
 */
module HashTable {

  datatype Cell = Cell(orig: int, relo: int)

  const FREE := Cell(0, 0)

  /** How many probe steps lead from cell `i` to cell `e`, wrapping around. */
  function Distance(i: nat, e: nat, size: nat): nat
    requires i < size && e < size
  {
    if i <= e then e - i else e + size - i
  }

  function HashIndex(mix: int -> nat, key: int, size: nat): (h: nat)
    requires size > 0
    ensures h < size
  {
    mix(key) % size
  }

  ghost function Used(s: seq<Cell>): nat
  {
    if s == [] then 0 else Used(s[..|s|-1]) + if s[|s|-1].orig != 0 then 1 else 0
  }

  /** Every key sits behind an unbroken run of used cells that starts at its
      hash index.  This is what makes stopping at a free cell right. */
  ghost predicate Probed(s: seq<Cell>, mix: int -> nat)
  {
    forall i, j :: 0 <= i < |s| && 0 <= j < |s| && s[i].orig != 0 && s[j].orig == 0 ==>
      var h := HashIndex(mix, s[i].orig, |s|);
      Distance(h, i, |s|) < Distance(h, j, |s|)
  }

  /** No key has two cells; free cells do not matter. */
  ghost predicate OneCellPerKey(s: seq<Cell>)
  {
    forall i, j :: 0 <= i < j < |s| && s[i].orig != 0 ==> s[i].orig != s[j].orig
  }

  /** The cells hold exactly the bindings of `m`. */
  ghost predicate Holds(s: seq<Cell>, m: map<int, int>)
  {
    && (forall i :: 0 <= i < |s| && s[i].orig != 0 ==> s[i].orig in m && m[s[i].orig] == s[i].relo)
    && (forall k :: k in m ==> exists i :: 0 <= i < |s| && s[i].orig == k)
    && 0 !in m && 0 !in m.Values
  }

  lemma {:induction false} UsedUpdate(s: seq<Cell>, i: nat, c: Cell)
    requires i < |s| && s[i].orig == 0 && c.orig != 0
    ensures Used(s[i := c]) == Used(s) + 1
  {
    var t := s[i := c];
    if i == |s| - 1 {
      assert t[..|t|-1] == s[..|s|-1];
    } else {
      assert t[..|t|-1] == s[..|s|-1][i := c];
      UsedUpdate(s[..|s|-1], i, c);
    }
  }

  /** A table that is not full has a free cell, so both probe loops stop. */
  lemma {:induction false} FreeCellExists(s: seq<Cell>) returns (e: nat)
    requires Used(s) < |s|
    ensures e < |s| && s[e].orig == 0
  {
    if s[|s|-1].orig == 0 {
      e := |s| - 1;
    } else {
      e := FreeCellExists(s[..|s|-1]);
    }
  }

  lemma {:induction false} UsedAllFree(s: seq<Cell>)
    requires forall i :: 0 <= i < |s| ==> s[i].orig == 0
    ensures Used(s) == 0
  {
    if s != [] { UsedAllFree(s[..|s|-1]); }
  }

  lemma {:induction false} UsedPrefix(s: seq<Cell>, k: nat)
    requires k <= |s|
    ensures Used(s[..k]) <= Used(s) && Used(s[..k]) <= k
  {
    if k < |s| {
      UsedPrefix(s[..|s|-1], k);
      assert s[..|s|-1][..k] == s[..k];
    } else {
      assert s[..k] == s;
      if s != [] { UsedPrefix(s[..|s|-1], k - 1); assert s[..|s|-1][..k-1] == s[..|s|-1]; }
    }
  }

  /** The first `d` probes from `h` hit neither a free cell nor the key. */
  ghost predicate AllPassed(s: seq<Cell>, h: nat, d: nat, key: int)
    requires h < |s|
  {
    forall j :: 0 <= j < |s| && Distance(h, j, |s|) < d ==> s[j].orig != 0 && s[j].orig != key
  }

  /** The bindings in the order of the cells, as `netsys_htab_grow` re-adds them. */
  ghost function Bindings(s: seq<Cell>): map<int, int>
  {
    if s == [] then map[]
    else
      var front, c := Bindings(s[..|s|-1]), s[|s|-1];
      if c.orig != 0 then front[c.orig := c.relo] else front
  }

  lemma {:induction false} BindingsDomain(s: seq<Cell>, k: int)
    ensures k in Bindings(s) <==> k != 0 && exists i :: 0 <= i < |s| && s[i].orig == k
  {
    if s != [] {
      var f := s[..|s|-1];
      BindingsDomain(f, k);
      if k != 0 && s[|s|-1].orig != k {
        assert forall i :: 0 <= i < |s| && s[i].orig == k ==> f[i].orig == k;
        assert forall i :: 0 <= i < |f| && f[i].orig == k ==> s[i].orig == k;
      }
    }
  }

  lemma {:induction false} BindingsValue(s: seq<Cell>, i: nat)
    requires OneCellPerKey(s) && i < |s| && s[i].orig != 0
    ensures s[i].orig in Bindings(s) && Bindings(s)[s[i].orig] == s[i].relo
  {
    if i < |s| - 1 { BindingsValue(s[..|s|-1], i); }
  }

  lemma BindingsAreMap(s: seq<Cell>, m: map<int, int>)
    requires OneCellPerKey(s) && Holds(s, m)
    ensures Bindings(s) == m
  {
    forall k: int ensures k in Bindings(s) <==> k in m { BindingsDomain(s, k); }
    forall k | k in m ensures Bindings(s)[k] == m[k] {
      var i :| 0 <= i < |s| && s[i].orig == k;
      BindingsValue(s, i);
    }
  }

  /** What re-adding one more cell comes to. */
  lemma NextBinding(s: seq<Cell>, m: map<int, int>, k: nat)
    requires OneCellPerKey(s) && Holds(s, m) && k < |s|
    ensures var c, front := s[k], Bindings(s[..k]);
      if c.orig == 0 then Used(s[..k+1]) == Used(s[..k]) && Bindings(s[..k+1]) == front
      else
        && Used(s[..k]) + 1 == Used(s[..k+1]) <= Used(s)
        && c.orig !in front && c.relo != 0 && Bindings(s[..k+1]) == front[c.orig := c.relo]
  {
    hide OneCellPerKey, Holds;
    assert s[..k+1][..k] == s[..k];
    if s[k].orig != 0 {
      FoundKey(s, m, k);
      UsedPrefix(s, k + 1);
      NotBound(s, k);
    }
  }

  lemma NotBound(s: seq<Cell>, k: nat)
    requires OneCellPerKey(s) && k < |s| && s[k].orig != 0
    ensures s[k].orig !in Bindings(s[..k])
  {
    var f := s[..k];
    BindingsDomain(f, s[k].orig);
    assert forall i :: 0 <= i < k ==> f[i] == s[i];
  }

  /** Ending a probe at a free cell means that the key is absent. */
  lemma StoppedAtFree(s: seq<Cell>, mix: int -> nat, m: map<int, int>, key: int, p: nat)
    requires p < |s| && s[p].orig == 0 && Probed(s, mix) && Holds(s, m)
    requires AllPassed(s, HashIndex(mix, key, |s|), Distance(HashIndex(mix, key, |s|), p, |s|), key)
    ensures key !in m
  {
    assert forall i :: 0 <= i < |s| && s[i].orig != 0 ==> s[i].orig != key;
  }

  lemma FoundKey(s: seq<Cell>, m: map<int, int>, p: nat)
    requires p < |s| && s[p].orig != 0 && Holds(s, m)
    ensures s[p].orig in m && m[s[p].orig] == s[p].relo != 0
  {
    assert m[s[p].orig] in m.Values;
  }

  /** Filling the first free cell of a key's probe sequence keeps the table. */
  lemma PlacedAtFree(s: seq<Cell>, mix: int -> nat, m: map<int, int>, key: int, relo: int, p: nat)
    requires p < |s| && s[p].orig == 0 && key != 0 && relo != 0 && key !in m
    requires OneCellPerKey(s) && Probed(s, mix) && Holds(s, m)
    requires AllPassed(s, HashIndex(mix, key, |s|), Distance(HashIndex(mix, key, |s|), p, |s|), 0)
    ensures var t := s[p := Cell(key, relo)];
      OneCellPerKey(t) && Probed(t, mix) && Holds(t, m[key := relo])
  {
    hide OneCellPerKey, Probed, Holds, HashIndex;
    PlacedHolds(s, m, key, relo, p);
    PlacedProbed(s, mix, key, relo, p);
  }

  lemma PlacedHolds(s: seq<Cell>, m: map<int, int>, key: int, relo: int, p: nat)
    requires p < |s| && s[p].orig == 0 && key != 0 && relo != 0 && key !in m
    requires OneCellPerKey(s) && Holds(s, m)
    ensures OneCellPerKey(s[p := Cell(key, relo)]) && Holds(s[p := Cell(key, relo)], m[key := relo])
  {
    var t, m' := s[p := Cell(key, relo)], m[key := relo];
    forall k | k in m' ensures exists i :: 0 <= i < |t| && t[i].orig == k {
      if k == key {
        assert t[p].orig == k;
      } else {
        var i :| 0 <= i < |s| && s[i].orig == k;
        assert t[i].orig == k;
      }
    }
    assert 0 !in m'.Values;
  }

  lemma PlacedProbed(s: seq<Cell>, mix: int -> nat, key: int, relo: int, p: nat)
    requires p < |s| && s[p].orig == 0 && key != 0 && Probed(s, mix)
    requires AllPassed(s, HashIndex(mix, key, |s|), Distance(HashIndex(mix, key, |s|), p, |s|), 0)
    ensures Probed(s[p := Cell(key, relo)], mix)
  {
    hide HashIndex;
    var t := s[p := Cell(key, relo)];
    forall j | 0 <= j < |t| && t[j].orig == 0
      ensures Distance(HashIndex(mix, key, |s|), p, |s|) < Distance(HashIndex(mix, key, |s|), j, |s|)
    {
      assert s[j].orig == 0;
    }
  }

  /** The growth rule `2 * used > size` keeps a free cell after the next add
      exactly when the table starts with three cells or more. */
  lemma GrowthRule(size: nat)
    ensures size >= 3 <==> forall used: nat :: 2 * used <= size ==> used + 1 < size
  {
    if size == 2 {
      assert 2 * 1 <= size;
    } else if size < 2 {
      assert 2 * 0 <= size;
    }
  }

  /** The first free cell of the probe sequence that starts at `h`, if there is one. */
  function FirstFree(s: seq<Cell>, h: nat, d: nat): (p: nat)
    requires h < |s| && d <= |s|
    ensures p <= |s| && (p < |s| ==> s[p].orig == 0)
    decreases |s| - d
  {
    var p := if h + d < |s| then h + d else h + d - |s|;
    if d == |s| then |s| else if s[p].orig == 0 then p else FirstFree(s, h, d + 1)
  }

  /** The probe loop of `netsys_htab_add_1` ends there. */
  lemma {:induction false} FirstFreeIs(s: seq<Cell>, h: nat, p: nat, d: nat)
    requires h < |s| && p < |s| && s[p].orig == 0 && d <= Distance(h, p, |s|)
    requires AllPassed(s, h, Distance(h, p, |s|), 0)
    ensures FirstFree(s, h, d) == p
    decreases |s| - d
  {
    var q: nat := if h + d < |s| then h + d else h + d - |s|;
    assert Distance(h, q, |s|) == d;
    if d < Distance(h, p, |s|) { FirstFreeIs(s, h, p, d + 1); }
  }

  /** `netsys_htab_add` when the growth test says no. */
  function AddInPlace(s: seq<Cell>, mix: int -> nat, key: int, relo: int): (t: seq<Cell>)
    requires |s| > 0 && FirstFree(s, HashIndex(mix, key, |s|), 0) < |s|
    ensures |t| == |s|
  {
    s[FirstFree(s, HashIndex(mix, key, |s|), 0) := Cell(key, relo)]
  }

  /** One add fills a table of one cell ... */
  lemma OneCellFills(mix: int -> nat, k1: int, relo: int, key: int, probes: nat)
    requires k1 != 0 && key != k1
    ensures var s := [FREE];
      && !(2 * Used(s) > |s|) && FirstFree(s, HashIndex(mix, k1, 1), 0) < 1
      && var t := AddInPlace(s, mix, k1, relo);
      && Used(t) == 1 && AllPassed(t, HashIndex(mix, key, 1), probes, key)
  {
    hide HashIndex;
    UsedAllFree([FREE]);
    UsedUpdate([FREE], 0, Cell(k1, relo));
  }

  /** ... and two adds fill a table of two cells: the growth test fails both times, and then no
      cell is free, so that looking up any other key never ends. */
  lemma TwoCellsFill(mix: int -> nat, k1: int, k2: int, relo: int, key: int, probes: nat)
    requires k1 != 0 && k2 != 0 && k1 != k2 && key != k1 && key != k2
    ensures var s := [FREE, FREE];
      && !(2 * Used(s) > |s|) && FirstFree(s, HashIndex(mix, k1, 2), 0) < 2
      && var t := AddInPlace(s, mix, k1, relo);
      && !(2 * Used(t) > |t|) && FirstFree(t, HashIndex(mix, k2, 2), 0) < 2
      && var u := AddInPlace(t, mix, k2, relo);
      && Used(u) == 2 && AllPassed(u, HashIndex(mix, key, 2), probes, key)
  {
    hide HashIndex;
    var s := [FREE, FREE];
    UsedAllFree(s);
    var h1, h2 := HashIndex(mix, k1, 2), HashIndex(mix, k2, 2);
    var t := AddInPlace(s, mix, k1, relo);
    UsedUpdate(s, h1, Cell(k1, relo));
    assert t == s[h1 := Cell(k1, relo)];
    assert FirstFree(t, h2, 0) == 1 - h1 by {
      assert t[h1].orig != 0 && t[1 - h1].orig == 0;
      if h2 == h1 { assert FirstFree(t, h2, 0) == FirstFree(t, h2, 1); }
    }
    UsedUpdate(t, 1 - h1, Cell(k2, relo));
  }

  class Htab {
    const mix: int -> nat
    var cells: array<Cell>
    var used: nat
    ghost var m: map<int, int>

    ghost predicate Valid()
      reads this, cells
    {
      && cells.Length >= 3
      && used == Used(cells[..]) < cells.Length
      && OneCellPerKey(cells[..])
      && Probed(cells[..], mix)
      && Holds(cells[..], m)
    }

    /** `netsys_htab_init`; `prep_stat_tab` calls it with 256. */
    constructor (mix: int -> nat, n: nat)
      requires n >= 3
      ensures Valid() && fresh(cells) && m == map[] && this.mix == mix && cells.Length == n
    {
      this.mix := mix;
      cells := new Cell[n](_ => FREE);
      used := 0;
      m := map[];
      new;
      UsedAllFree(cells[..]);
    }

    method Clear()
      requires Valid()
      modifies this, cells
      ensures Valid() && cells == old(cells) && m == map[]
    {
      forall i | 0 <= i < cells.Length { cells[i] := FREE; }
      used := 0;
      m := map[];
      UsedAllFree(cells[..]);
    }

    method Lookup(a1: int) returns (a2: int)
      requires Valid()
      ensures a2 == if a1 in m then m[a1] else 0
      ensures a2 == 0 <==> a1 !in m
    {
      hide Probed, OneCellPerKey, Holds, HashIndex;
      var size := cells.Length;
      var h1: nat := HashIndex(mix, a1, size);
      ghost var h0 := h1;
      ghost var e := FreeCellExists(cells[..]);
      while cells[h1].orig != 0 && cells[h1].orig != a1
        invariant h1 < size && Distance(h0, h1, size) <= Distance(h0, e, size)
        invariant AllPassed(cells[..], h0, Distance(h0, h1, size), a1)
        decreases Distance(h0, e, size) - Distance(h0, h1, size)
      {
        h1 := h1 + 1;
        if h1 == size { h1 := 0; }
      }
      if cells[h1].orig == 0 {
        StoppedAtFree(cells[..], mix, m, a1, h1);
        a2 := 0;
      } else {
        FoundKey(cells[..], m, h1);
        a2 := cells[h1].relo;
      }
    }

    /** The probe loop of `netsys_htab_add_1`. */
    method ProbeFree(a1: int) returns (h1: nat)
      requires Valid()
      ensures h1 < cells.Length && cells[h1].orig == 0
      ensures var h0 := HashIndex(mix, a1, cells.Length);
        AllPassed(cells[..], h0, Distance(h0, h1, cells.Length), 0)
    {
      hide Probed, OneCellPerKey, Holds, HashIndex;
      var size := cells.Length;
      h1 := HashIndex(mix, a1, size);
      ghost var h0: nat := h1;
      ghost var e := FreeCellExists(cells[..]);
      while cells[h1].orig != 0
        invariant h1 < size && Distance(h0, h1, size) <= Distance(h0, e, size)
        invariant AllPassed(cells[..], h0, Distance(h0, h1, size), 0)
        decreases Distance(h0, e, size) - Distance(h0, h1, size)
      {
        h1 := h1 + 1;
        if h1 == size { h1 := 0; }
      }
    }

    /** `netsys_htab_add_1` */
    method Add1(a1: int, a2: int)
      requires Valid() && a1 != 0 && a2 != 0 && a1 !in m && used + 1 < cells.Length
      modifies this, cells
      ensures Valid() && cells == old(cells) && m == old(m)[a1 := a2] && used == old(used) + 1
      ensures FirstFree(old(cells[..]), HashIndex(mix, a1, cells.Length), 0) < cells.Length
      ensures cells[..] == AddInPlace(old(cells[..]), mix, a1, a2)
    {
      var h1 := ProbeFree(a1);
      ghost var s := cells[..];
      FirstFreeIs(s, HashIndex(mix, a1, |s|), h1, 0);
      PlacedAtFree(s, mix, m, a1, a2, h1);
      UsedUpdate(s, h1, Cell(a1, a2));
      cells[h1] := Cell(a1, a2);
      used := used + 1;
      m := m[a1 := a2];
      assert cells[..] == s[h1 := Cell(a1, a2)];
    }

    /** `netsys_htab_grow`: rehashing keeps the map. */
    method Grow(n: nat)
      requires Valid() && n >= cells.Length
      modifies this
      ensures Valid() && fresh(cells) && cells.Length == n && m == old(m) && used == old(used)
    {
      var from := cells;
      ghost var s, was := from[..], m;
      BindingsAreMap(s, m);
      cells := new Cell[n](_ => FREE);
      used, m := 0, map[];
      UsedAllFree(cells[..]);
      hide Used, Bindings, OneCellPerKey, Holds, Htab.Valid;
      for k := 0 to from.Length
        invariant Valid() && fresh(cells) && cells.Length == n && from[..] == s
        invariant used == Used(s[..k]) && m == Bindings(s[..k])
      {
        NextBinding(s, was, k);
        if from[k].orig != 0 {
          Add1(from[k].orig, from[k].relo);
        }
      }
      assert s[..from.Length] == s;
    }

    /** `netsys_htab_add`; the result is the C return code. */
    method Add(a1: int, a2: int) returns (code: int)
      requires Valid() && a1 !in m
      modifies this, cells
      ensures Valid() && (cells == old(cells) || fresh(cells))
      ensures code == if a1 == 0 || a2 == 0 then -2 else 0
      ensures m == if code == 0 then old(m)[a1 := a2] else old(m)
      ensures used == old(used) + if code == 0 then 1 else 0
      ensures cells.Length == if code == 0 && 2 * old(used) > old(cells.Length) then 2 * old(cells.Length)
                              else old(cells.Length)
    {
      if a1 == 0 || a2 == 0 { return -2; }
      if 2 * used > cells.Length {
        Grow(2 * cells.Length);
      }
      Add1(a1, a2);
      return 0;
    }
  }

  // ------------------------------------------------------------ whole runs

  datatype Op = Bind(a1: int, a2: int) | Find(a1: int) | Reset

  function Next(m: map<int, int>, op: Op): map<int, int>
  {
    match op
    case Bind(a1, a2) => if a1 == 0 || a2 == 0 then m else m[a1 := a2]
    case Find(_) => m
    case Reset => map[]
  }

  /** The map that a list of operations leaves behind. */
  function After(ops: seq<Op>): map<int, int>
  {
    if ops == [] then map[] else Next(After(ops[..|ops|-1]), ops[|ops|-1])
  }

  /** Keys are added only when they are absent, as the copier does. */
  ghost predicate Legal(ops: seq<Op>)
  {
    forall k :: 0 <= k < |ops| && ops[k].Bind? ==> ops[k].a1 !in After(ops[..k])
  }

  function ReplyTo(m: map<int, int>, op: Op): int
  {
    match op
    case Bind(a1, a2) => if a1 == 0 || a2 == 0 then -2 else 0
    case Find(a1) => if a1 in m then m[a1] else 0
    case Reset => 0
  }

  /** For any hash function and any legal list of operations, every reply is that
      of a finite map. */
  method Run(mix: int -> nat, n: nat, ops: seq<Op>) returns (replies: seq<int>)
    requires n >= 3 && Legal(ops)
    ensures |replies| == |ops|
    ensures forall k :: 0 <= k < |ops| ==> replies[k] == ReplyTo(After(ops[..k]), ops[k])
  {
    hide Htab.Valid, Next, ReplyTo;
    var t := new Htab(mix, n);
    replies := [];
    for k := 0 to |ops|
      invariant t.Valid() && fresh(t) && fresh(t.cells) && t.m == After(ops[..k])
      invariant |replies| == k && forall j :: 0 <= j < k ==> replies[j] == ReplyTo(After(ops[..j]), ops[j])
    {
      assert ops[..k+1][..k] == ops[..k];
      var reply := Perform(t, ops[k]);
      replies := replies + [reply];
    }
  }

  method Perform(t: Htab, op: Op) returns (reply: int)
    requires t.Valid() && (op.Bind? ==> op.a1 !in t.m)
    modifies t, t.cells
    ensures t.Valid() && (t.cells == old(t.cells) || fresh(t.cells))
    ensures t.m == Next(old(t.m), op) && reply == ReplyTo(old(t.m), op)
  {
    hide Htab.Valid;
    reply := 0;
    match op {
      case Bind(a1, a2) => reply := t.Add(a1, a2);
      case Find(a1) => reply := t.Lookup(a1);
      case Reset => t.Clear();
    }
  }
}
