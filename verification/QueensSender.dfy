/** The workers of `Message_passing` and `Message_passing_2` of
    examples/multicore/nqueens.ml.  They put their representatives into batches, one
    batch for each box they send to, and close each box with End.
 */
module QueensSender {
  import opened Queens
  import opened QueensCount
  import opened QueensReader
  import QueensShared

  /** A message and the box it goes to. */
  datatype Letter = Letter(side: nat, msg: Message)

  /** What goes to one box. */
  function On(letters: seq<Letter>, side: nat): seq<Message>
  {
    if letters == [] then []
    else (if letters[0].side == side then [letters[0].msg] else []) + On(letters[1..], side)
  }

  lemma {:induction false} OnMore(letters: seq<Letter>, l: Letter, side: nat)
    ensures On(letters + [l], side) == On(letters, side) + if l.side == side then [l.msg] else []
  {
    if letters == [] {
      assert letters + [l] == [l] && [l][1..] == [];
    } else {
      var head := if letters[0].side == side then [letters[0].msg] else [];
      var last := if l.side == side then [l.msg] else [];
      assert (letters + [l])[1..] == letters[1..] + [l] && (letters + [l])[0] == letters[0];
      OnMore(letters[1..], l, side);
      assert head + (On(letters[1..], side) + last) == (head + On(letters[1..], side)) + last;
    }
  }

  lemma OnHead(letters: seq<Letter>)
    requires letters != []
    ensures On(letters, letters[0].side) != []
  {
  }

  /** Batches of at most `nMax` boards. */
  ghost predicate OnlyBoards(script: seq<Message>, nMax: nat)
  {
    forall j :: 0 <= j < |script| ==> script[j].Boards? && 0 < |script[j].list| <= nMax
  }

  /** Batches, then exactly one End. */
  ghost predicate Script(script: seq<Message>, nMax: nat)
  {
    |script| > 0 && script[|script|-1].End? && OnlyBoards(script[..|script|-1], nMax)
  }

  lemma InScriptMore(script: seq<Message>, m: Message, x: Board)
    ensures InScript(script + [m], x) <==> InScript(script, x) || (m.Boards? && x in m.list)
  {
    var s := script + [m];
    if InScript(script, x) {
      var j :| 0 <= j < |script| && script[j].Boards? && x in script[j].list;
      assert s[j] == script[j];
    }
    if m.Boards? && x in m.list { assert s[|script|] == m; }
    if InScript(s, x) {
      var j :| 0 <= j < |s| && s[j].Boards? && x in s[j].list;
      if j < |script| { assert script[j] == s[j]; }
    }
  }

  /** A board is on its way to a box: sent, or in the batch being filled. */
  ghost predicate Holds(letters: seq<Letter>, side: nat, current: seq<Board>, x: Board)
  {
    InScript(On(letters, side), x) || x in current
  }

  method Post(letters: seq<Letter>, l: Letter) returns (letters': seq<Letter>)
    ensures On(letters', l.side) == On(letters, l.side) + [l.msg]
    ensures forall side: nat :: side != l.side ==> On(letters', side) == On(letters, side)
    ensures forall x :: InScript(On(letters', l.side), x) <==>
      InScript(On(letters, l.side), x) || (l.msg.Boards? && x in l.msg.list)
  {
    letters' := letters + [l];
    forall side: nat ensures On(letters', side) == On(letters, side) + if l.side == side then [l.msg] else [] {
      OnMore(letters, l, side);
    }
    forall x ensures InScript(On(letters', l.side), x) <==>
      InScript(On(letters, l.side), x) || (l.msg.Boards? && x in l.msg.list)
    {
      InScriptMore(On(letters, l.side), l.msg, x);
    }
  }

  /** One board: put it into the batch, and send the batch when it is full. */
  method Put(letters: seq<Letter>, side: nat, current: seq<Board>, b: Board, nMax: nat)
    returns (letters': seq<Letter>, current': seq<Board>)
    requires OnlyBoards(On(letters, side), nMax) && |current| < nMax
    ensures OnlyBoards(On(letters', side), nMax) && |current'| < nMax
    ensures forall x :: Holds(letters', side, current', x) <==> Holds(letters, side, current, x) || x == b
    ensures forall other: nat :: other != side ==> On(letters', other) == On(letters, other)
  {
    letters', current' := letters, [b] + current;
    if |current'| == nMax {
      letters' := Post(letters, Letter(side, Boards(current')));
      current' := [];
    }
  }

  /** The last batch, if there is one. */
  method Flush(letters: seq<Letter>, side: nat, current: seq<Board>, nMax: nat) returns (letters': seq<Letter>)
    requires OnlyBoards(On(letters, side), nMax) && |current| < nMax
    ensures OnlyBoards(On(letters', side), nMax)
    ensures forall x :: InScript(On(letters', side), x) <==> Holds(letters, side, current, x)
    ensures forall other: nat :: other != side ==> On(letters', other) == On(letters, other)
  {
    letters' := letters;
    if |current| > 0 { letters' := Post(letters, Letter(side, Boards(current))); }
  }

  method Close(letters: seq<Letter>, side: nat, nMax: nat) returns (letters': seq<Letter>)
    requires OnlyBoards(On(letters, side), nMax)
    ensures Script(On(letters', side), nMax)
    ensures forall x :: InScript(On(letters', side), x) <==> InScript(On(letters, side), x)
    ensures forall other: nat :: other != side ==> On(letters', other) == On(letters, other)
  {
    letters' := Post(letters, Letter(side, End));
    var script := On(letters', side);
    assert script[..|script|-1] == On(letters, side);
  }

  /** The boards of a job that belong to one side. */
  ghost predicate Sends(c: QueensShared.Setup, side: nat, job: seq<Board>, script: seq<Message>)
  {
    forall x :: InScript(script, x) <==> x in job && QueensShared.Side(c, x) == side
  }

  /** What a worker may send, box by box, when there are `boxes` of them. */
  ghost predicate LettersOk(c: QueensShared.Setup, boxes: nat, job: seq<Board>, letters: seq<Letter>, nMax: nat)
  {
    && (forall k :: 0 <= k < |letters| ==> letters[k].side < boxes)
    && forall side :: 0 <= side < boxes ==>
         Script(On(letters, side), nMax) && Sends(c, side, job, On(letters, side))
  }

  /** The letters of workers for the given jobs. */
  ghost predicate Workers(c: QueensShared.Setup, boxes: nat, letters: seq<seq<Letter>>, nMax: nat)
  {
    && |letters| == |c.jobs|
    && forall i :: 0 <= i < |letters| ==> LettersOk(c, boxes, c.jobs[i], letters[i], nMax)
  }

  lemma {:induction false} SidesBelow(letters: seq<Letter>, boxes: nat)
    requires forall side: nat :: side >= boxes ==> On(letters, side) == []
    ensures forall k :: 0 <= k < |letters| ==> letters[k].side < boxes
  {
    if letters != [] {
      assert On(letters, letters[0].side)[0] == letters[0].msg;
      forall side: nat | side >= boxes ensures On(letters[1..], side) == [] {
        assert On(letters, side) == [];
      }
      SidesBelow(letters[1..], boxes);
      forall k | 0 <= k < |letters| ensures letters[k].side < boxes {
        if k > 0 { assert letters[k] == letters[1..][k-1]; }
      }
    }
  }

  /** `worker` of `Message_passing`: one box. */
  method WorkerOne(c: QueensShared.Setup, job: seq<Board>, nMax: nat) returns (letters: seq<Letter>)
    requires nMax > 0 && !c.split
    ensures LettersOk(c, 1, job, letters, nMax)
  {
    hide On;
    var current: seq<Board> := [];
    letters := [];
    Nothing();
    for k := 0 to |job|
      invariant OnlyBoards(On(letters, 0), nMax) && |current| < nMax
      invariant forall x :: Holds(letters, 0, current, x) <==> x in job[..k]
      invariant forall side: nat :: side >= 1 ==> On(letters, side) == []
    {
      assert job[..k+1] == job[..k] + [job[k]];
      letters, current := Put(letters, 0, current, job[k], nMax);
    }
    assert job[..|job|] == job;
    letters := Flush(letters, 0, current, nMax);
    letters := Close(letters, 0, nMax);
    SidesBelow(letters, 1);
  }

  lemma Nothing()
    ensures forall side: nat :: On([], side) == []
  {
  }

  /** `worker` of `Message_passing_2`: two boxes, chosen by the row of the first
      queen.  Both last batches are sent before the first End. */
  method WorkerTwo(c: QueensShared.Setup, job: seq<Board>, nMax: nat) returns (letters: seq<Letter>)
    requires nMax > 0
    ensures LettersOk(c, 2, job, letters, nMax)
  {
    hide On;
    var current1: seq<Board>, current2: seq<Board> := [], [];
    letters := [];
    Nothing();
    for k := 0 to |job|
      invariant OnlyBoards(On(letters, 0), nMax) && |current1| < nMax
      invariant OnlyBoards(On(letters, 1), nMax) && |current2| < nMax
      invariant forall x :: Holds(letters, 0, current1, x) <==> x in job[..k] && QueensShared.Side(c, x) == 0
      invariant forall x :: Holds(letters, 1, current2, x) <==> x in job[..k] && QueensShared.Side(c, x) == 1
      invariant forall side: nat :: side >= 2 ==> On(letters, side) == []
    {
      assert job[..k+1] == job[..k] + [job[k]];
      if QueensShared.Side(c, job[k]) == 0 {
        letters, current1 := Put(letters, 0, current1, job[k], nMax);
      } else {
        letters, current2 := Put(letters, 1, current2, job[k], nMax);
      }
    }
    assert job[..|job|] == job;
    letters := Flush(letters, 0, current1, nMax);
    letters := Flush(letters, 1, current2, nMax);
    letters := Close(letters, 0, nMax);
    letters := Close(letters, 1, nMax);
    SidesBelow(letters, 2);
  }

  // ------------------------------------------------------------- how much is left

  /** A letter costs one step more than its reader needs for it. */
  function Cost(l: Letter): nat { 4 + 6 * if l.msg.Boards? then |l.msg.list| else 0 }

  function CostAll(letters: seq<Letter>): nat
  {
    if letters == [] then 0 else Cost(letters[0]) + CostAll(letters[1..])
  }

  function Total(todo: seq<seq<Letter>>): nat
  {
    if todo == [] then 0 else CostAll(todo[0]) + Total(todo[1..])
  }

  lemma {:induction false} TotalSend(todo: seq<seq<Letter>>, i: nat)
    requires i < |todo| && todo[i] != []
    ensures Total(todo[i := todo[i][1..]]) == Total(todo) - Cost(todo[i][0])
  {
    var t := todo[i := todo[i][1..]];
    if i == 0 {
      assert t[1..] == todo[1..];
    } else {
      assert t[1..] == todo[1..][i - 1 := todo[i][1..]];
      TotalSend(todo[1..], i - 1);
    }
  }

  // ------------------------------------------------------------- histories

  /** A reader's history of one sender, and what is still to come. */
  ghost predicate Linked(sent: seq<Message>, rest: seq<Letter>, all: seq<Letter>, side: nat)
  {
    sent + On(rest, side) == On(all, side)
  }

  /** Before its last letter to a box, a sender has not closed it. */
  lemma NotClosed(sent: seq<Message>, rest: seq<Letter>, all: seq<Letter>, side: nat, nMax: nat)
    requires Linked(sent, rest, all, side) && Script(On(all, side), nMax)
    ensures Closed(sent) <==> On(rest, side) == []
  {
    var script := On(all, side);
    if On(rest, side) == [] {
      assert sent == script;
    } else if sent != [] {
      assert sent[|sent|-1] == script[|sent|-1] == script[..|script|-1][|sent|-1];
    }
  }

  lemma LinkedSend(sent: seq<Message>, rest: seq<Letter>, all: seq<Letter>, side: nat)
    requires Linked(sent, rest, all, side) && rest != []
    ensures Linked(if rest[0].side == side then sent + [rest[0].msg] else sent, rest[1..], all, side)
  {
    if rest[0].side == side {
      assert sent + On(rest, side) == sent + [rest[0].msg] + On(rest[1..], side);
    }
  }

  /** All letters to one side together: the boards of that side. */
  lemma SentIsJobs(c: QueensShared.Setup, boxes: nat, side: nat, letters: seq<seq<Letter>>, nMax: nat, x: Board)
    requires Workers(c, boxes, letters, nMax) && side < boxes
    ensures (exists i :: 0 <= i < |letters| && InScript(On(letters[i], side), x)) <==>
      FromJobs(c.jobs, x) && QueensShared.Side(c, x) == side
  {
    hide On, InScript;
    if i :| 0 <= i < |letters| && InScript(On(letters[i], side), x) {
      assert LettersOk(c, boxes, c.jobs[i], letters[i], nMax);
      assert Sends(c, side, c.jobs[i], On(letters[i], side));
      var j :| 0 <= j < |c.jobs[i]| && c.jobs[i][j] == x;
      assert FromJobs(c.jobs, x);
    }
    if FromJobs(c.jobs, x) && QueensShared.Side(c, x) == side {
      var i, j :| 0 <= i < |c.jobs| && 0 <= j < |c.jobs[i]| && c.jobs[i][j] == x;
      assert x in c.jobs[i];
      assert LettersOk(c, boxes, c.jobs[i], letters[i], nMax);
      assert Sends(c, side, c.jobs[i], On(letters[i], side));
    }
  }
}
