/** The receiving end of a camlbox in examples/multicore/nqueens.ml.  A collector
    waits for messages, adds the boards of each to its table, and stops when it has
    seen an End from every sender.  The loop is the same in `Message_passing` and, in
    three processes, in `Message_passing_2`; its steps are described here once.
 */
module QueensReader {
  import opened Queens
  import opened Sequences
  import opened FiniteSets

  datatype Message = Boards(list: seq<Board>) | End

  /** Message `pos` of sender `from`. */
  datatype Item = Item(from: nat, pos: nat, msg: Message)

  /** `At(item, k)`: the reader works on `item` and has looked at `k` of its boards. */
  datatype Reading = Free | At(item: Item, k: nat)

  /** `sent[i]` is the history of sender `i`.  `box` holds the messages that
      `camlbox_wait` has not returned, `batch` those it has returned and whose slots
      are not deleted. */
  datatype Reader = Reader(sent: seq<seq<Message>>, box: set<Item>, batch: set<Item>, at: Reading,
                           w: int, table: seq<Board>)

  datatype Read = Wait | Open(item: Item) | Look | Delete

  function Start(senders: nat): Reader
  {
    Reader(seq(senders, _ => []), {}, {}, Free, senders, [])
  }

  function AddNew(table: seq<Board>, b: Board): seq<Board>
  {
    if b in table then table else table + [b]
  }

  predicate Over(at: Reading) { at.At? && (at.item.msg.Boards? ==> at.k >= |at.item.msg.list|) }

  predicate Looking(at: Reading) { at.At? && at.item.msg.Boards? && at.k < |at.item.msg.list| }

  /** `camlbox_wait` hands over everything that is readable at that moment. */
  ghost predicate ReadStep(r: Reader, r': Reader, a: Read)
  {
    match a
    case Wait => r.at.Free? && r.batch == {} && r.w > 0 && r.box != {} && r' == r.(batch := r.box, box := {})
    case Open(item) => r.at.Free? && item in r.batch && r' == r.(at := At(item, 0))
    case Look =>
      && Looking(r.at)
      && r' == r.(at := At(r.at.item, r.at.k + 1), table := AddNew(r.table, r.at.item.msg.list[r.at.k]))
    case Delete =>
      && Over(r.at)
      && r' == r.(at := Free, batch := r.batch - {r.at.item}, w := if r.at.item.msg.End? then r.w - 1 else r.w)
  }

  predicate HasRoom(r: Reader, capacity: nat) { |r.box| + |r.batch| < capacity }

  /** `camlbox_send` by sender `i`. */
  function Receive(r: Reader, i: nat, m: Message): Reader
    requires i < |r.sent|
  {
    r.(sent := r.sent[i := r.sent[i] + [m]], box := r.box + {Item(i, |r.sent[i]|, m)})
  }

  /** The loop `while !w > 0` has ended. */
  predicate Finished(r: Reader) { r.at.Free? && r.batch == {} && r.w <= 0 }

  // ------------------------------------------------------------- invariant

  predicate Sent(r: Reader, it: Item)
  {
    it.from < |r.sent| && it.pos < |r.sent[it.from]| && it.msg == r.sent[it.from][it.pos]
  }

  predicate Handled(r: Reader, it: Item) { Sent(r, it) && it !in r.box && it !in r.batch }

  ghost predicate ItemsOk(r: Reader)
  {
    && r.box !! r.batch
    && (forall it :: it in r.box || it in r.batch ==> Sent(r, it))
    && (r.at.At? ==> r.at.item in r.batch && r.at.k <= Size(r.at.item))
  }

  /** What one sender sends is taken out of the box in order. */
  ghost predicate OrderOk(r: Reader)
  {
    forall a, b :: Sent(r, a) && Sent(r, b) && a.from == b.from && a.pos < b.pos && a in r.box ==> b in r.box
  }

  /** No sender goes on after End. */
  ghost predicate Closed(msgs: seq<Message>) { |msgs| > 0 && msgs[|msgs|-1].End? }

  ghost predicate EndsLast(r: Reader)
  {
    forall i, j :: 0 <= i < |r.sent| && 0 <= j < |r.sent[i]| - 1 ==> r.sent[i][j].Boards?
  }

  ghost predicate EndHandled(r: Reader, i: nat)
  {
    i < |r.sent| && Closed(r.sent[i]) && Handled(r, Item(i, |r.sent[i]| - 1, End))
  }

  ghost function Ended(r: Reader): set<nat>
  {
    set i: nat | i in Below(|r.sent|) && EndHandled(r, i)
  }

  ghost predicate CountOk(r: Reader) { r.w == |r.sent| - |Ended(r)| }

  ghost predicate SeenIn(r: Reader, it: Item, x: Board)
  {
    it.msg.Boards? && x in it.msg.list && Handled(r, it)
  }

  ghost predicate Seen(r: Reader, x: Board)
  {
    || (exists it :: SeenIn(r, it, x))
    || (r.at.At? && r.at.item.msg.Boards? && r.at.k <= |r.at.item.msg.list| && x in r.at.item.msg.list[..r.at.k])
  }

  ghost predicate TableOk(r: Reader)
  {
    NoDuplicates(r.table) && forall x :: x in r.table <==> Seen(r, x)
  }

  ghost predicate ReaderOk(r: Reader)
  {
    ItemsOk(r) && OrderOk(r) && EndsLast(r) && CountOk(r) && TableOk(r)
  }

  lemma StartOk(senders: nat)
    ensures ReaderOk(Start(senders))
  {
    assert Ended(Start(senders)) == {};
  }

  // -------------------------------------------------- steps of the reader

  lemma SameSeen(r: Reader, r': Reader, x: Board)
    requires forall it :: SeenIn(r, it, x) <==> SeenIn(r', it, x)
    requires r.at == r'.at
    ensures Seen(r, x) <==> Seen(r', x)
  {
  }

  lemma WaitOk(r: Reader, r': Reader)
    requires ReaderOk(r) && ReadStep(r, r', Wait)
    ensures ReaderOk(r')
  {
    assert Ended(r') == Ended(r);
    forall x ensures Seen(r, x) <==> Seen(r', x) { SameSeen(r, r', x); }
  }

  lemma OpenOk(r: Reader, r': Reader, item: Item)
    requires ReaderOk(r) && ReadStep(r, r', Open(item))
    ensures ReaderOk(r')
  {
    assert Ended(r') == Ended(r);
    forall x ensures Seen(r, x) <==> Seen(r', x) {
      assert forall it :: SeenIn(r, it, x) <==> SeenIn(r', it, x);
    }
  }

  lemma LookOk(r: Reader, r': Reader)
    requires ReaderOk(r) && ReadStep(r, r', Look)
    ensures ReaderOk(r')
  {
    assert Ended(r') == Ended(r);
    var list, k := r.at.item.msg.list, r.at.k;
    assert list[..k+1] == list[..k] + [list[k]];
    forall x ensures Seen(r', x) <==> Seen(r, x) || x == list[k] {
      assert forall it :: SeenIn(r, it, x) <==> SeenIn(r', it, x);
    }
    assert NoDuplicates(r'.table);
  }

  lemma DeleteOk(r: Reader, r': Reader)
    requires ReaderOk(r) && ReadStep(r, r', Delete)
    ensures ReaderOk(r')
  {
    var item := r.at.item;
    assert r.sent == r'.sent && Sent(r, item);
    DeleteSeen(r, r');
    DeleteCount(r, r');
    hide TableOk, CountOk, Seen;
    assert ItemsOk(r') && OrderOk(r') && EndsLast(r');
  }

  lemma DeleteSeen(r: Reader, r': Reader)
    requires ReaderOk(r) && ReadStep(r, r', Delete)
    ensures TableOk(r')
  {
    var item := r.at.item;
    assert item.msg.Boards? ==> item.msg.list[..r.at.k] == item.msg.list;
    forall x ensures Seen(r', x) <==> Seen(r, x) {
      forall it
        ensures SeenIn(r', it, x) <==> SeenIn(r, it, x) || (it == item && item.msg.Boards? && x in item.msg.list)
      {
      }
      if Seen(r, x) && !(exists it :: SeenIn(r, it, x)) { assert SeenIn(r', item, x); }
    }
  }

  lemma DeleteEnds(r: Reader, r': Reader, i: nat)
    requires ItemsOk(r) && EndsLast(r) && ReadStep(r, r', Delete)
    ensures EndHandled(r', i) <==> EndHandled(r, i) || (r.at.item.msg.End? && i == r.at.item.from)
    ensures r.at.item.from < |r.sent|
    ensures r.at.item.msg.End? ==> !EndHandled(r, r.at.item.from)
  {
    var item := r.at.item;
    assert Sent(r, item);
    if item.msg.End? { assert item.pos == |r.sent[item.from]| - 1; }
  }

  lemma DeleteCount(r: Reader, r': Reader)
    requires ReaderOk(r) && ReadStep(r, r', Delete)
    ensures CountOk(r')
  {
    hide TableOk, OrderOk, EndHandled, ItemsOk, EndsLast;
    var item := r.at.item;
    forall i: nat ensures EndHandled(r', i) <==> EndHandled(r, i) || (item.msg.End? && i == item.from) {
      DeleteEnds(r, r', i);
    }
    DeleteEnds(r, r', 0);
    assert Ended(r') == if item.msg.End? then Ended(r) + {item.from} else Ended(r);
  }

  lemma ReadOk(r: Reader, r': Reader, a: Read)
    requires ReaderOk(r) && ReadStep(r, r', a)
    ensures ReaderOk(r') && r'.sent == r.sent
  {
    assert r'.sent == r.sent;
    hide ReaderOk;
    match a
    case Wait => WaitOk(r, r');
    case Open(item) => OpenOk(r, r', item);
    case Look => LookOk(r, r');
    case Delete => DeleteOk(r, r');
  }

  // ------------------------------------------------------------- a message arrives

  lemma SentMore(r: Reader, i: nat, m: Message, it: Item)
    requires i < |r.sent|
    ensures Sent(Receive(r, i, m), it) <==> Sent(r, it) || it == Item(i, |r.sent[i]|, m)
  {
  }

  lemma ReceiveOk(r: Reader, i: nat, m: Message)
    requires ReaderOk(r) && i < |r.sent| && !Closed(r.sent[i])
    ensures ReaderOk(Receive(r, i, m))
  {
    var r', last := Receive(r, i, m), Item(i, |r.sent[i]|, m);
    assert !Sent(r, last);
    forall it ensures Sent(r', it) <==> Sent(r, it) || it == last { SentMore(r, i, m, it); }
    assert forall it :: Handled(r', it) <==> Handled(r, it);
    hide Sent, Receive;
    ReceiveShape(r, i, m);
    ReceiveCount(r, i, m);
    assert OrderOk(r') by { ReceiveOrder(r, i, m); }
    forall x ensures Seen(r, x) <==> Seen(r', x) { ReceiveAt(r, i, m); SameSeen(r, r', x); }
    assert ItemsOk(r') by { ReceiveItems(r, i, m); }
    assert r'.table == r.table by { ReceiveAt(r, i, m); }
  }

  lemma ReceiveAt(r: Reader, i: nat, m: Message)
    requires i < |r.sent|
    ensures var r' := Receive(r, i, m); r'.at == r.at && r'.table == r.table
  {
  }

  lemma ReceiveItems(r: Reader, i: nat, m: Message)
    requires ItemsOk(r) && i < |r.sent|
    ensures ItemsOk(Receive(r, i, m))
  {
    var r', last := Receive(r, i, m), Item(i, |r.sent[i]|, m);
    assert !Sent(r, last);
    forall it | Sent(r, it) || it == last ensures Sent(r', it) { SentMore(r, i, m, it); }
  }

  lemma ReceiveOrder(r: Reader, i: nat, m: Message)
    requires OrderOk(r) && i < |r.sent|
    ensures OrderOk(Receive(r, i, m))
  {
    var r', last := Receive(r, i, m), Item(i, |r.sent[i]|, m);
    forall a, b | Sent(r', a) && Sent(r', b) && a.from == b.from && a.pos < b.pos && a in r'.box ensures b in r'.box {
      SentMore(r, i, m, a);
      SentMore(r, i, m, b);
    }
  }

  lemma ReceiveShape(r: Reader, i: nat, m: Message)
    requires EndsLast(r) && i < |r.sent| && !Closed(r.sent[i])
    ensures EndsLast(Receive(r, i, m))
  {
    var r' := Receive(r, i, m);
    forall k, j | 0 <= k < |r'.sent| && 0 <= j < |r'.sent[k]| - 1 ensures r'.sent[k][j].Boards? {
      if k == i && j == |r.sent[i]| - 1 {
        assert !r.sent[i][j].End?;
      } else {
        assert r.sent[k][j].Boards?;
      }
    }
  }

  lemma ReceiveCount(r: Reader, i: nat, m: Message)
    requires ItemsOk(r) && CountOk(r) && i < |r.sent| && !Closed(r.sent[i])
    ensures CountOk(Receive(r, i, m))
  {
    var r', last := Receive(r, i, m), Item(i, |r.sent[i]|, m);
    forall k: nat ensures EndHandled(r', k) <==> EndHandled(r, k) {
      if k < |r.sent| && k != i && |r.sent[k]| > 0 {
        assert r'.sent[k] == r.sent[k];
        SentMore(r, i, m, Item(k, |r.sent[k]| - 1, End));
      }
    }
    assert Ended(r') == Ended(r);
  }

  // ---------------------------------------------------------- the end of a reader

  ghost predicate InScript(script: seq<Message>, x: Board)
  {
    exists j :: 0 <= j < |script| && script[j].Boards? && x in script[j].list
  }

  /** The counter of Ends is zero exactly when everybody's End is handled. */
  lemma AllEnded(r: Reader)
    requires CountOk(r)
    ensures 0 <= r.w
    ensures r.w == 0 <==> forall i: nat :: i < |r.sent| ==> EndHandled(r, i)
  {
    FullSubset(Ended(r), Below(|r.sent|));
    if r.w == 0 {
      forall i: nat | i < |r.sent| ensures EndHandled(r, i) { assert i in Below(|r.sent|); }
    }
    assert (forall i: nat :: i < |r.sent| ==> EndHandled(r, i)) ==> Ended(r) == Below(|r.sent|);
  }

  /** Nothing is lost: when all Ends are handled, nothing is left in the box. */
  lemma NothingLeft(r: Reader)
    requires ReaderOk(r) && r.w <= 0
    ensures r.box == {} && r.w == 0
  {
    hide TableOk;
    AllEnded(r);
    forall it | Sent(r, it) ensures it !in r.box {
      assert EndHandled(r, it.from);
      var last := Item(it.from, |r.sent[it.from]| - 1, End);
      assert Handled(r, last) && (it == last || it.pos < last.pos);
    }
  }

  /** A finished reader has in its table each board that was ever sent to it, once. */
  lemma FinishedTable(r: Reader)
    requires ReaderOk(r) && Finished(r)
    ensures forall i :: 0 <= i < |r.sent| ==> Closed(r.sent[i])
    ensures NoDuplicates(r.table)
    ensures forall x :: x in r.table <==> exists i :: 0 <= i < |r.sent| && InScript(r.sent[i], x)
  {
    NothingLeft(r);
    AllEnded(r);
    forall i | 0 <= i < |r.sent| ensures Closed(r.sent[i]) { assert EndHandled(r, i); }
    forall x ensures x in r.table <==> exists i :: 0 <= i < |r.sent| && InScript(r.sent[i], x) {
      SeenAll(r, x);
    }
  }

  lemma SeenAll(r: Reader, x: Board)
    requires r.box == {} && r.batch == {} && r.at.Free?
    ensures Seen(r, x) <==> exists i :: 0 <= i < |r.sent| && InScript(r.sent[i], x)
  {
    if it :| SeenIn(r, it, x) {
      assert InScript(r.sent[it.from], x);
    }
    if i :| 0 <= i < |r.sent| && InScript(r.sent[i], x) {
      var j :| 0 <= j < |r.sent[i]| && r.sent[i][j].Boards? && x in r.sent[i][j].list;
      assert SeenIn(r, Item(i, j, r.sent[i][j]), x);
    }
  }

  /** As long as there is something to read, the reader can go on. */
  lemma ReaderProgress(r: Reader) returns (a: Read, r': Reader)
    requires ReaderOk(r) && (r.at.At? || r.batch != {} || r.box != {})
    ensures ReadStep(r, r', a)
  {
    hide TableOk, CountOk, OrderOk, EndsLast;
    if Looking(r.at) {
      a := Look;
      r' := r.(at := At(r.at.item, r.at.k + 1), table := AddNew(r.table, r.at.item.msg.list[r.at.k]));
    } else if r.at.At? {
      a := Delete;
      r' := r.(at := Free, batch := r.batch - {r.at.item}, w := if r.at.item.msg.End? then r.w - 1 else r.w);
    } else if r.batch != {} {
      var item :| item in r.batch;
      a, r' := Open(item), r.(at := At(item, 0));
    } else {
      if r.w <= 0 { NothingLeft(r); }
      a, r' := Wait, r.(batch := r.box, box := {});
    }
  }

  /** A reader with nothing to read and Ends to come still has a sender. */
  lemma OpenSender(r: Reader) returns (i: nat)
    requires ReaderOk(r) && r.w > 0 && r.batch == {} && r.box == {}
    ensures i < |r.sent| && !Closed(r.sent[i])
  {
    hide TableOk, OrderOk;
    AllEnded(r);
    i :| i < |r.sent| && !EndHandled(r, i);
  }

  // ------------------------------------------------------------- how much is left

  /** The work in the boards of some messages, at `q` for each board. */
  ghost function Load(items: set<Item>, q: nat): nat
  {
    if items == {} then 0
    else
      var it :| it in items;
      q * Size(it) + Load(items - {it}, q)
  }

  function Size(it: Item): nat { if it.msg.Boards? then |it.msg.list| else 0 }

  lemma {:induction false} LoadRemove(items: set<Item>, it: Item, q: nat)
    requires it in items
    ensures Load(items, q) == q * Size(it) + Load(items - {it}, q)
  {
    var first :| first in items && Load(items, q) == q * Size(first) + Load(items - {first}, q);
    if first != it {
      LoadRemove(items - {first}, it, q);
      LoadRemove(items - {it}, first, q);
      assert items - {first} - {it} == items - {it} - {first};
    }
  }

  /** Each message costs three steps, and each board `q`. */
  ghost function Work(r: Reader, q: nat): int
  {
    3 * |r.box| + 2 * |r.batch| + Load(r.box, q) + Load(r.batch, q) - if r.at.At? then 1 + q * r.at.k else 0
  }

  lemma WorkNatural(r: Reader, q: nat)
    requires ItemsOk(r)
    ensures Work(r, q) >= 0
  {
    if r.at.At? {
      LoadRemove(r.batch, r.at.item, q);
      Times(q, r.at.k, Size(r.at.item));
    }
  }

  lemma Times(q: nat, a: nat, b: nat)
    requires a <= b
    ensures q * a <= q * b
  {
  }

  /** Looking at a board pays `q`; every other step pays at least one. */
  lemma ReadWork(r: Reader, r': Reader, a: Read, q: nat)
    requires ItemsOk(r) && ReadStep(r, r', a)
    ensures a.Look? ==> Work(r', q) == Work(r, q) - q
    ensures !a.Look? ==> Work(r', q) < Work(r, q)
  {
    match a
    case Wait => assert Load({}, q) == 0;
    case Open(_) =>
    case Look => assert q * (r.at.k + 1) == q * r.at.k + q;
    case Delete =>
      var item := r.at.item;
      LoadRemove(r.batch, item, q);
      if item.msg.Boards? { assert r.at.k == Size(item); }
  }

  lemma ReceiveWork(r: Reader, i: nat, m: Message, q: nat)
    requires ItemsOk(r) && i < |r.sent|
    ensures Work(Receive(r, i, m), q) == Work(r, q) + 3 + q * if m.Boards? then |m.list| else 0
  {
    var it := Item(i, |r.sent[i]|, m);
    assert it !in r.box;
    LoadRemove(r.box + {it}, it, q);
    assert r.box + {it} - {it} == r.box;
  }

  // -------------------------------------------------------------- capacity

  /** The slots of the camlbox that are in use are not more than there are. */
  predicate Fits(r: Reader, capacity: nat) { |r.box| + |r.batch| <= capacity }

  lemma ReadFits(r: Reader, r': Reader, a: Read, capacity: nat)
    requires Fits(r, capacity) && ReadStep(r, r', a)
    ensures Fits(r', capacity)
  {
    if a.Delete? {
      var item := r.at.item;
      assert r.batch == (if item in r.batch then r'.batch + {item} else r'.batch);
    }
  }

  /** A message is sent only when there is a free slot, so it finds one. */
  lemma ReceiveFits(r: Reader, i: nat, m: Message, capacity: nat)
    requires i < |r.sent| && HasRoom(r, capacity)
    ensures Fits(Receive(r, i, m), capacity)
  {
    assert |r.box + {Item(i, |r.sent[i]|, m)}| <= |r.box| + 1;
  }
}
