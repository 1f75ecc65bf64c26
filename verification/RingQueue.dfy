/** The growing ring buffer of src/netsys/netsys_c_queue.c.

    The C structure keeps the elements in `table[start..end)`, cyclically, and
    never fills the last slot, so that `start == end` means "empty".  The class
    below is shown to be a first-in first-out sequence, `Contents()`.
 */
module RingQueue {

  class NQueue {
    var table: array<int>
    var start: nat
    var end: nat

    ghost predicate Valid()
      reads this
    {
      start < table.Length && end < table.Length
    }

    ghost function Contents(): (s: seq<int>)
      requires Valid()
      reads this, table
    {
      if start <= end then table[start..end] else table[start..] + table[..end]
    }

    /** The index after `i`, around the end of the table. */
    function Following(i: nat): nat
      reads this
    {
      if i + 1 == table.Length then 0 else i + 1
    }

    constructor (n: nat)
      requires n >= 1
      ensures Valid() && fresh(table) && Contents() == [] && table.Length == n && start == end == 0
    {
      table := new int[n];
      start, end := 0, 0;
    }

    method Clear()
      requires Valid()
      modifies this
      ensures Valid() && table == old(table) && Contents() == []
    {
      start, end := 0, 0;
    }

    /** Moves the contents to the front of a table of twice the size.  Both
        layouts, wrapped and unwrapped, occur. */
    method Grow()
      requires Valid()
      modifies this
      ensures Valid() && fresh(table) && table.Length == 2 * old(table.Length)
      ensures start == 0 && Contents() == old(Contents())
    {
      var bigger := new int[table.Length * 2];
      var n;
      if start <= end {
        n := end - start;
        forall i | 0 <= i < n { bigger[i] := table[start + i]; }
      } else {
        var n1 := table.Length - start;
        forall i | 0 <= i < n1 { bigger[i] := table[start + i]; }
        forall i | n1 <= i < n1 + end { bigger[i] := table[i - n1]; }
        n := n1 + end;
      }
      assert bigger[..n] == Contents();
      table, start, end := bigger, 0, n;
    }

    method Add(elem: int)
      requires Valid()
      modifies this, table
      ensures Valid() && (table == old(table) || fresh(table))
      ensures Contents() == old(Contents()) + [elem]
      ensures old(Following(end)) != old(start) ==>
        table == old(table) && start == old(start) && end == old(Following(end))
    {
      var newEnd := end + 1;
      if newEnd == table.Length { newEnd := 0; }
      if newEnd == start {
        Grow();
        newEnd := end + 1;
      }
      ghost var was := Contents();
      assert was == old(Contents());
      table[end] := elem;
      end := newEnd;
      assert Contents() == was + [elem];
    }

    /** `some == false` is the C return code -3. */
    method Take() returns (some: bool, elem: int)
      requires Valid()
      modifies this
      ensures Valid() && table == old(table)
      ensures some <==> old(Contents()) != []
      ensures some ==> old(Contents()) == [elem] + Contents() && start == old(Following(start)) && end == old(end)
      ensures !some ==> elem == 0 && Contents() == []
    {
      if start == end { return false, 0; }
      var newStart := start + 1;
      if newStart == table.Length { newStart := 0; }
      some, elem := true, table[start];
      ghost var was := Contents();
      start := newStart;
      assert Contents() == was[1..];
    }

    /** `netsys_queue_size`: right exactly when the contents do not wrap around. */
    method Size() returns (n: int)
      requires Valid()
      ensures n == if start <= end then |Contents()| else 2 * table.Length - |Contents()|
      ensures n == |Contents()| <==> start <= end
    {
      n := if end >= start then end - start else table.Length - end + start;
    }
  }

  /** Two elements that wrap around, counted as four. */
  method WrappedSize() returns (q: NQueue, n: int)
    ensures q.Valid() && q.Contents() == [2, 3] && n == 4
  {
    q := new NQueue(3);
    q.Add(1);
    q.Add(2);
    var some, elem := q.Take();
    q.Add(3);
    n := q.Size();
  }

  // ------------------------------------------------------------ whole runs

  datatype Op = Put(elem: int) | Get | Reset

  datatype Reply = Done | Took(elem: int) | Nothing

  function Next(s: seq<int>, op: Op): seq<int>
  {
    match op
    case Put(x) => s + [x]
    case Get => if s == [] then s else s[1..]
    case Reset => []
  }

  /** The sequence that a list of operations leaves behind. */
  function After(ops: seq<Op>): seq<int>
  {
    if ops == [] then [] else Next(After(ops[..|ops|-1]), ops[|ops|-1])
  }

  function ReplyTo(s: seq<int>, op: Op): Reply
  {
    if !op.Get? then Done else if s == [] then Nothing else Took(s[0])
  }

  /** Whatever the initial size and the operations, every reply is that of a
      first-in first-out sequence. */
  method Run(n: nat, ops: seq<Op>) returns (replies: seq<Reply>)
    requires n >= 1
    ensures |replies| == |ops|
    ensures forall k :: 0 <= k < |ops| ==> replies[k] == ReplyTo(After(ops[..k]), ops[k])
  {
    hide NQueue.Valid, NQueue.Contents, Next, ReplyTo;
    var q := new NQueue(n);
    replies := [];
    for k := 0 to |ops|
      invariant q.Valid() && fresh(q) && fresh(q.table) && q.Contents() == After(ops[..k])
      invariant |replies| == k && forall j :: 0 <= j < k ==> replies[j] == ReplyTo(After(ops[..j]), ops[j])
    {
      assert ops[..k+1][..k] == ops[..k];
      var reply := Perform(q, ops[k]);
      replies := replies + [reply];
    }
  }

  method Perform(q: NQueue, op: Op) returns (reply: Reply)
    requires q.Valid()
    modifies q, q.table
    ensures q.Valid() && (q.table == old(q.table) || fresh(q.table))
    ensures q.Contents() == Next(old(q.Contents()), op) && reply == ReplyTo(old(q.Contents()), op)
  {
    hide NQueue.Valid, NQueue.Contents;
    reply := Done;
    match op {
      case Put(x) => q.Add(x);
      case Get =>
        var some, elem := q.Take();
        reply := if some then Took(elem) else Nothing;
      case Reset => q.Clear();
    }
  }
}
