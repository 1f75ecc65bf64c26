/** `netsys_init_value_1` and `netsys_copy_value` of src/netsys/netsys_c_mem.c:
    the copier itself, run against the descriptions in module Values.
 */
module ValueCopy {
  import opened Sequences
  import opened Values
  import opened Words
  import RingQueue
  import HashTable

  // ------------------------------------------------------- small loops

  /** The search through the list `cc`. */
  method InCodeRange(cfg: Config, field: int) returns (r: bool)
    ensures r <==> InCc(cfg, field)
  {
    if !cfg.enableCc { return false; }
    for k := 0 to |cfg.cc|
      invariant forall j :: 0 <= j < k ==> !(cfg.cc[j].0 <= field < cfg.cc[j].1)
    {
      if cfg.cc[k].0 <= field < cfg.cc[k].1 { return true; }
    }
    return false;
  }

  method Enqueue(q: RingQueue.NQueue, cfg: Config, fields: seq<int>)
    requires q.Valid()
    modifies q, q.table
    ensures q.Valid() && (q.table == old(q.table) || fresh(q.table))
    ensures q.Contents() == old(q.Contents()) + Pointers(cfg, fields)
  {
    hide RingQueue.NQueue.Valid, RingQueue.NQueue.Contents, InCc;
    assert fields[..0] == [];
    for i := 0 to |fields|
      invariant q.Valid() && (q.table == old(q.table) || fresh(q.table))
      invariant q.Contents() == old(q.Contents()) + Pointers(cfg, fields[..i])
    {
      assert fields[..i+1][..i] == fields[..i];
      if IsBlock(fields[i]) {
        var skip := InCodeRange(cfg, fields[i]);
        if !skip { q.Add(fields[i]); }
      }
    }
    assert fields[..|fields|] == fields;
  }

  /** memcpy of `words` to word `pos` of the buffer. */
  method CopyWords(dest: array<int>, pos: nat, words: seq<int>)
    requires pos + |words| <= dest.Length
    modifies dest
    ensures dest[..] == Splice(old(dest[..]), pos, words)
  {
    forall i | 0 <= i < |words| { dest[pos + i] := words[i]; }
  }

  /** The size computation of the bigarray branch, in words. */
  method BigarrayWords(h: Heap, b: Block) returns (words: nat)
    requires BigarrayShape(h, b)
    ensures words == DataWords(h, b)
  {
    var size := 1;
    for i := 0 to b.fields[2]
      invariant size == Product(b.fields[5..5 + i])
    {
      assert b.fields[5..5 + i + 1][..i] == b.fields[5..5 + i];
      size := size * b.fields[5 + i];
    }
    size := size * h.elemSize(b.fields[3] % 256);
    var aligned := size;
    if size % WORD != 0 { aligned := aligned + (WORD - size % WORD); }
    words := aligned / WORD;
  }

  // ------------------------------------------------- facts about pass one

  ghost predicate AllCopied(job: Job, order: seq<int>)
    requires JobOk(job) && AllIn(order, job.h)
  {
    forall x :: x in order ==> Copied(KindAt(job.h, job.cfg, x))
  }

  /** What one more copied block adds to each description. */
  lemma Extend(job: Job, order: seq<int>, w: int)
    requires JobOk(job) && AllIn(order, job.h) && w in job.h.blocks
    ensures AllIn(order + [w], job.h)
    ensures Size(job, order + [w]) == Size(job, order) + EntrySize(job, w)
    ensures RawImage(job, order + [w]) == RawImage(job, order) + RawEntry(job, w, Size(job, order))
    ensures Relo(job, order + [w]) == Relo(job, order)[w := WordAddr(job.dest, Size(job, order) + 1)]
    ensures External(job, order + [w]) ==
      if KindAt(job.h, job.cfg, w).Bigarray? && job.cfg.bigarrays != 2
      then External(job, order)[job.malloc(w) := DataOf(job, w)]
      else External(job, order)
  {
    assert (order + [w])[..|order|] == order;
  }

  lemma {:induction false} ReloKeys(job: Job, order: seq<int>)
    requires JobOk(job) && AllIn(order, job.h)
    ensures Relo(job, order).Keys == set x | x in order
  {
    if order != [] {
      ReloKeys(job, order[..|order|-1]);
      assert order == order[..|order|-1] + [order[|order|-1]];
    }
  }

  /** Copying goes on from what is already copied. */
  lemma {:induction false} WalkExtends(h: Heap, cfg: Config, queue: seq<int>, order: seq<int>)
    requires HeapOk(h, cfg) && AllIn(queue, h) && AllIn(order, h)
    ensures var r := Walk(h, cfg, queue, order);
      r.Walked? ==> order <= r.order && AllIn(r.order, h)
    decreases h.blocks.Keys - (set x | x in order), |queue|
  {
    if queue != [] {
      var w := queue[0];
      if w in order || KindAt(h, cfg, w).SkippedAtom? {
        WalkExtends(h, cfg, queue[1..], order);
      } else if !KindAt(h, cfg, w).Unsupported? {
        ChildrenInHeap(h, cfg, w);
        assert w in h.blocks.Keys - (set x | x in order);
        WalkExtends(h, cfg, queue[1..] + Children(h, cfg, w), order + [w]);
      }
    }
  }

  lemma {:induction false} SizeMonotonic(job: Job, a: seq<int>, b: seq<int>)
    requires JobOk(job) && AllIn(b, job.h) && a <= b
    ensures AllIn(a, job.h) && Size(job, a) <= Size(job, b)
  {
    if a != b {
      SizeMonotonic(job, a, b[..|b|-1]);
    }
  }

  /** A run that runs out of space at the head of the queue could not have finished. */
  lemma OutOfSpace(job: Job, queue: seq<int>, order: seq<int>)
    requires JobOk(job) && queue != [] && AllIn(queue, job.h) && AllIn(order, job.h)
    requires queue[0] !in order && Copied(KindAt(job.h, job.cfg, queue[0]))
    ensures var r := Walk(job.h, job.cfg, queue, order);
      r.Walked? ==> AllIn(r.order, job.h) && Size(job, order) + EntrySize(job, queue[0]) <= Size(job, r.order)
  {
    var w := queue[0];
    ChildrenInHeap(job.h, job.cfg, w);
    WalkExtends(job.h, job.cfg, queue[1..] + Children(job.h, job.cfg, w), order + [w]);
    Extend(job, order, w);
    var r := Walk(job.h, job.cfg, queue, order);
    if r.Walked? {
      SizeMonotonic(job, order + [w], r.order);
    }
  }

  // --------------------------------------------------------- pass one

  /** The state of pass one when exactly `order` has been copied.  `d` is the
      buffer, `tm` the table, `ext` the memory allocated for bigarray data. */
  ghost predicate Laid(job: Job, simulation: bool, order: seq<int>, bytes: int,
                       d: seq<int>, cur: nat, tm: map<int, int>, ext: map<int, seq<int>>)
    requires JobOk(job)
  {
    && AllIn(order, job.h) && NoDuplicates(order) && AllCopied(job, order)
    && cur == Size(job, order)
    && tm.Keys == (set x | x in order)
    && if simulation then ext == map[]
       else
         && WORD * cur <= bytes && cur <= |d|
         && d[..cur] == RawImage(job, order)
         && tm == Relo(job, order)
         && ext == External(job, order)
  }

  /** memcpy of the block, its new colour, and the new custom operations. */
  method CopyBlock(cfg: Config, b: Block, k: Kind, dest: array<int>, cur: nat) returns (ghost fields: seq<int>)
    requires KindFits(b, k) && cur + 1 + |b.fields| <= dest.Length
    modifies dest
    ensures fields == if k.Custom? || k.Bigarray? then NewOps(b.fields, k.ops) else b.fields
    ensures dest[..] == Splice(old(dest[..]), cur, [Header(b.tag, cfg.color, |b.fields|)] + fields)
  {
    hide Splice, Header;
    ghost var d := dest[..];
    fields := b.fields;
    CopyWords(dest, cur, [Header(b.tag, cfg.color, |b.fields|)] + b.fields);
    if (k.Custom? || k.Bigarray?) && k.ops != 0 {
      fields := Patch(dest, cur, 0, k.ops, d, Header(b.tag, cfg.color, |b.fields|), fields);
    }
  }

  /** The fields `data`, `proxy` and `flags` of a copied bigarray. */
  method SetBigarray(cfg: Config, dataAddr: int, dest: array<int>, cur: nat,
                     ghost d: seq<int>, ghost h: int, ghost fields: seq<int>)
    requires |fields| >= 5 && cur + 1 + |fields| <= |d| && dest[..] == Splice(d, cur, [h] + fields)
    modifies dest
    ensures dest[..] == Splice(d, cur, [h] + NewBigarray(cfg, fields, dataAddr))
  {
    hide Splice, SetManaged;
    ghost var now := Patch(dest, cur, 1, dataAddr, d, h, fields);
    now := Patch(dest, cur, 4, 0, d, h, now);
    SpliceAt(d, cur, [h] + now, 4);
    now := Patch(dest, cur, 3, SetManaged(dest[cur + 1 + 3], cfg), d, h, now);
  }

  /** Writes one field of the block that was copied to word `cur`. */
  method Patch(dest: array<int>, cur: nat, i: nat, v: int, ghost d: seq<int>, ghost h: int, ghost fields: seq<int>)
    returns (ghost now: seq<int>)
    requires i < |fields| && cur + 1 + |fields| <= |d| && dest[..] == Splice(d, cur, [h] + fields)
    modifies dest
    ensures now == fields[i := v] && dest[..] == Splice(d, cur, [h] + now)
  {
    hide Splice;
    now := fields[i := v];
    SpliceSet(d, cur, [h] + fields, 1 + i, v);
    assert ([h] + fields)[1 + i := v] == [h] + now;
    dest[cur + 1 + i] := v;
    assert dest[..] == Splice(d, cur, [h] + fields)[cur + (1 + i) := v];
  }

  /** The copy of one block with everything that belongs to it; `ok == false` is
      the C return code -4.  `size` is the number of data words of a bigarray.  There
      are two tests for space, and the block is written before the second one. */
  method LayDown(cfg: Config, b: Block, k: Kind, data: seq<int>, size: nat, dataAddr: int,
                 dest: array<int>, bytes: int, cur: nat)
    returns (ok: bool, next: nat)
    requires KindFits(b, k) && (k.Bigarray? ==> size == |data|)
    requires dest.Length == bytes / WORD
    modifies dest
    ensures next == cur + 1 + |b.fields| + |SkipPart(cfg, k, data)|
    ensures ok <==> WORD * next <= bytes
    ensures ok ==> dest[..] == Splice(old(dest[..]), cur,
      [Header(b.tag, cfg.color, |b.fields|)] + RawFields(cfg, b, k, dataAddr) + SkipPart(cfg, k, data))
    ensures !ok ==> OnlyBlock(old(dest[..]), dest[..], cur, 1 + |b.fields|)
  {
    hide Header, SetManaged, Splice, OnlyBlock;
    var at := cur + 1 + |b.fields|;
    next := at;
    if k.Bigarray? && cfg.bigarrays == 2 { next := at + 2 + size; }
    ghost var d, h := dest[..], Header(b.tag, cfg.color, |b.fields|);
    SameBlock(d, cur, 1 + |b.fields|);
    if WORD * at > bytes { return false, next; }
    ghost var fields := CopyBlock(cfg, b, k, dest, cur);
    SpliceOnly(d, cur, [h] + fields);
    if WORD * next > bytes { return false, next; }
    ok := true;
    if k.Bigarray? {
      SetBigarray(cfg, dataAddr, dest, cur, d, h, fields);
      if cfg.bigarrays == 2 {
        CopyWords(dest, at, [Header(ABSTRACT_TAG, 0, 0), size] + data);
        SpliceTwice(d, cur, [h] + RawFields(cfg, b, k, dataAddr), [Header(ABSTRACT_TAG, 0, 0), size] + data);
        return;
      }
    }
    assert [h] + RawFields(cfg, b, k, dataAddr) + [] == [h] + RawFields(cfg, b, k, dataAddr);
  }

  lemma LaidNothing(job: Job, simulation: bool, bytes: int, d: seq<int>)
    requires JobOk(job) && (simulation || bytes >= 0)
    ensures Laid(job, simulation, [], bytes, d, 0, map[], map[])
  {
  }

  lemma LaidFacts(job: Job, simulation: bool, order: seq<int>, bytes: int, d: seq<int>, cur: nat,
                  tm: map<int, int>, ext: map<int, seq<int>>)
    requires JobOk(job) && Laid(job, simulation, order, bytes, d, cur, tm, ext)
    ensures AllIn(order, job.h) && tm.Keys == (set x | x in order) && cur == Size(job, order)
    ensures !simulation ==> cur <= |d|
  {
  }

  lemma OneMore(job: Job, order: seq<int>, w: int)
    requires JobOk(job) && AllIn(order, job.h) && NoDuplicates(order) && AllCopied(job, order)
    requires w in job.h.blocks && w !in order && Copied(KindAt(job.h, job.cfg, w))
    ensures AllIn(order + [w], job.h) && NoDuplicates(order + [w]) && AllCopied(job, order + [w])
    ensures (set x | x in order + [w]) == (set x | x in order) + {w}
  {
    hide HeapOk, KindAt;
  }

  lemma LaidStep(job: Job, simulation: bool, order: seq<int>, bytes: int, d: seq<int>, cur: nat,
                 tm: map<int, int>, ext: map<int, seq<int>>, w: int, d': seq<int>, copyAddr: int,
                 ext': map<int, seq<int>>)
    requires JobOk(job) && w in job.h.blocks && w !in order && Copied(KindAt(job.h, job.cfg, w))
    requires Laid(job, simulation, order, bytes, d, cur, tm, ext)
    requires simulation ==> ext' == ext
    requires !simulation ==>
      var next := cur + EntrySize(job, w);
      && next <= |d| && WORD * next <= bytes
      && d' == Splice(d, cur, RawEntry(job, w, cur))
      && copyAddr == WordAddr(job.dest, cur + 1)
      && ext' == if KindAt(job.h, job.cfg, w).Bigarray? && job.cfg.bigarrays != 2
                 then ext[job.malloc(w) := DataOf(job, w)] else ext
    ensures Laid(job, simulation, order + [w], bytes, d', cur + EntrySize(job, w), tm[w := copyAddr], ext')
  {
    hide HeapOk, Splice, KindAt, RawEntry, DataOf, EntrySize, WordAddr;
    Extend(job, order, w);
    OneMore(job, order, w);
    if !simulation {
      SpliceParts(d, cur, RawEntry(job, w, cur));
    }
  }

  /** The buffer part of the body of pass one; nothing is written in a simulation. */
  method Place(job: Job, dest: array<int>, bytes: int, simulation: bool, cur: nat, w: int,
               ext: map<int, seq<int>>)
    returns (ok: bool, next: nat, ext': map<int, seq<int>>)
    requires JobOk(job) && w in job.h.blocks
    requires !simulation ==> dest.Length == bytes / WORD
    modifies dest
    ensures next == cur + EntrySize(job, w)
    ensures ok <==> simulation || WORD * next <= bytes
    ensures simulation ==> ext' == ext && dest[..] == old(dest[..])
    ensures ok && !simulation ==>
      next <= dest.Length && dest[..] == Splice(old(dest[..]), cur, RawEntry(job, w, cur))
    ensures ok && !simulation ==>
      ext' == if KindAt(job.h, job.cfg, w).Bigarray? && job.cfg.bigarrays != 2
              then ext[job.malloc(w) := DataOf(job, w)] else ext
  {
    hide HeapOk, Splice;
    BlockAt(job.h, job.cfg, w);
    var b := job.h.blocks[w];
    var k := BlockKind(job.h, job.cfg, b);
    var size := 0;
    var data := [];
    if k.Bigarray? {
      size := BigarrayWords(job.h, b);
      data := job.h.data[b.fields[1]][..size];
    }
    ok, ext' := true, ext;
    next := cur + 1 + |b.fields| + if k.Bigarray? && job.cfg.bigarrays == 2 then 2 + size else 0;
    if !simulation {
      var dataAddr := if job.cfg.bigarrays == 2 then WordAddr(job.dest, cur + 1 + |b.fields| + 2) else job.malloc(w);
      ok, next := LayDown(job.cfg, b, k, data, size, dataAddr, dest, bytes, cur);
      if k.Bigarray? && job.cfg.bigarrays != 2 { ext' := ext[job.malloc(w) := data]; }
    }
  }

  /** The body of pass one for an address `w` seen for the first time. */
  method ProcessBlock(job: Job, t: HashTable.Htab, q: RingQueue.NQueue, dest: array<int>, bytes: int,
                      simulation: bool, cur: nat, w: int, ext: map<int, seq<int>>, ghost order: seq<int>)
    returns (code: int, next: nat, ext': map<int, seq<int>>)
    requires JobOk(job) && t.Valid() && q.Valid() && q.table != dest
    requires w in job.h.blocks && w !in order && Copied(KindAt(job.h, job.cfg, w))
    requires !simulation ==> job.dest > 0 && dest.Length == bytes / WORD
    requires Laid(job, simulation, order, bytes, dest[..], cur, t.m, ext)
    modifies t, t.cells, q, q.table, dest
    ensures t.Valid() && q.Valid() && q.table != dest
    ensures (t.cells == old(t.cells) || fresh(t.cells)) && (q.table == old(q.table) || fresh(q.table))
    ensures code == if simulation || WORD * (cur + EntrySize(job, w)) <= bytes then 0 else -4
    ensures code == 0 ==> Laid(job, simulation, order + [w], bytes, dest[..], next, t.m, ext')
    ensures code == 0 ==> q.Contents() == old(q.Contents()) + Children(job.h, job.cfg, w)
    ensures code == 0 && !simulation ==> cur <= next <= dest.Length && dest[next..] == old(dest[next..])
  {
    hide HeapOk, HashTable.Htab.Valid, RingQueue.NQueue.Valid, RingQueue.NQueue.Contents, Laid, Splice;
    BlockAt(job.h, job.cfg, w);
    LaidFacts(job, simulation, order, bytes, dest[..], cur, t.m, ext);
    ghost var d, tm := dest[..], t.m;
    var ok;
    ok, next, ext' := Place(job, dest, bytes, simulation, cur, w, ext);
    if !ok { return -4, next, ext'; }
    var copyAddr := if simulation then w else WordAddr(job.dest, cur + 1);
    LaidStep(job, simulation, order, bytes, d, cur, tm, ext, w, dest[..], copyAddr, ext');
    if !simulation { SpliceParts(d, cur, RawEntry(job, w, cur)); }
    code := t.Add(w, copyAddr);
    if BlockKind(job.h, job.cfg, job.h.blocks[w]).Scanned? {
      Enqueue(q, job.cfg, job.h.blocks[w].fields);
    }
  }

  /** One round of the loop of pass one, for the address `w` taken from the queue. */
  method Visit(job: Job, t: HashTable.Htab, q: RingQueue.NQueue, dest: array<int>, bytes: int,
               simulation: bool, cur: nat, w: int, ext: map<int, seq<int>>, ghost order: seq<int>)
    returns (code: int, next: nat, ext': map<int, seq<int>>, ghost order': seq<int>)
    requires JobOk(job) && t.Valid() && q.Valid() && q.table != dest
    requires AllIn([w] + q.Contents(), job.h)
    requires !simulation ==> job.dest > 0 && dest.Length == bytes / WORD
    requires Laid(job, simulation, order, bytes, dest[..], cur, t.m, ext)
    modifies t, t.cells, q, q.table, dest
    ensures t.Valid() && q.Valid() && q.table != dest
    ensures (t.cells == old(t.cells) || fresh(t.cells)) && (q.table == old(q.table) || fresh(q.table))
    ensures var run := old(Walk(job.h, job.cfg, [w] + q.Contents(), order));
      match code
      case 0 =>
        && AllIn(q.Contents(), job.h)
        && run == Walk(job.h, job.cfg, q.Contents(), order')
        && Laid(job, simulation, order', bytes, dest[..], next, t.m, ext')
      case -2 => run.Rejected?
      case -4 => !simulation && (run.Walked? ==> AllIn(run.order, job.h) && WORD * Size(job, run.order) > bytes)
      case _ => false
    ensures code == 0 && !simulation ==> cur <= next && next <= dest.Length && dest[next..] == old(dest[next..])
    ensures code == 0 ==>
      || (order' == order && q.Contents() == old(q.Contents()))
      || (order' == order + [w] && w in job.h.blocks && w !in order)
  {
    hide HeapOk, HashTable.Htab.Valid, RingQueue.NQueue.Valid, RingQueue.NQueue.Contents, Laid;
    ghost var pending := [w] + q.Contents();
    assert pending[0] == w && pending[1..] == q.Contents();
    LaidFacts(job, simulation, order, bytes, dest[..], cur, t.m, ext);
    BlockAt(job.h, job.cfg, w);
    code, next, ext', order' := 0, cur, ext, order;
    var copyAddr := t.Lookup(w);
    if copyAddr == 0 {
      var k := BlockKind(job.h, job.cfg, job.h.blocks[w]);
      if k.Unsupported? { return -2, next, ext', order'; }
      if !k.SkippedAtom? {
        ChildrenInHeap(job.h, job.cfg, w);
        code, next, ext' := ProcessBlock(job, t, q, dest, bytes, simulation, cur, w, ext, order);
        if code != 0 {
          OutOfSpace(job, pending, order);
          return;
        }
        order' := order + [w];
      }
    }
  }

  /** The first pass. */
  method PassOne(job: Job, t: HashTable.Htab, q: RingQueue.NQueue, dest: array<int>, bytes: int,
                 simulation: bool, orig: int)
    returns (code: int, cur: nat, ext: map<int, seq<int>>, ghost order: seq<int>)
    requires JobOk(job) && t.Valid() && q.Valid() && q.table != dest
    requires t.m == map[] && q.Contents() == [] && orig in job.h.blocks
    requires !simulation ==> job.dest > 0 && 0 <= bytes && dest.Length == bytes / WORD
    modifies t, t.cells, q, q.table, dest
    ensures t.Valid() && q.Valid()
    ensures (t.cells == old(t.cells) || fresh(t.cells)) && (q.table == old(q.table) || fresh(q.table))
    ensures var run := Walk(job.h, job.cfg, [orig], []);
      match code
      case 0 =>
        && run == Walked(order)
        && Laid(job, simulation, order, bytes, dest[..], cur, t.m, ext)
      case -2 => run.Rejected?
      case -4 => !simulation && (run.Walked? ==> AllIn(run.order, job.h) && WORD * Size(job, run.order) > bytes)
      case _ => false
    ensures code == 0 && !simulation ==> cur <= dest.Length && dest[cur..] == old(dest[cur..])
  {
    hide HeapOk, HashTable.Htab.Valid, RingQueue.NQueue.Valid, RingQueue.NQueue.Contents, Laid;
    ghost var run := Walk(job.h, job.cfg, [orig], []);
    code, cur, ext, order := 0, 0, map[], [];
    q.Add(orig);
    assert q.Contents() == [orig];
    LaidNothing(job, simulation, bytes, dest[..]);
    var some, w := q.Take();
    ghost var pending := [orig];
    assert [w] + q.Contents() == pending;
    while some
      invariant t.Valid() && q.Valid() && q.table != dest
      invariant t.cells == old(t.cells) || fresh(t.cells)
      invariant q.table == old(q.table) || fresh(q.table)
      invariant Laid(job, simulation, order, bytes, dest[..], cur, t.m, ext)
      invariant pending == if some then [w] + q.Contents() else []
      invariant AllIn(pending, job.h) && Walk(job.h, job.cfg, pending, order) == run
      invariant !simulation ==> cur <= dest.Length && dest[cur..] == old(dest[cur..])
      decreases job.h.blocks.Keys - (set x | x in order), |pending|
    {
      ghost var from, d, before := cur, dest[..], order;
      code, cur, ext, order := Visit(job, t, q, dest, bytes, simulation, cur, w, ext, order);
      if code != 0 { return; }
      if !simulation { SameSuffix(d, old(dest[..]), from, cur); }
      assert order != before ==> w in job.h.blocks.Keys - (set x | x in before);
      pending := q.Contents();
      some, w := q.Take();
    }
  }

  // --------------------------------------------------------- pass two

  lemma {:induction false} ImagePrefix(job: Job, order: seq<int>, k: nat)
    requires JobOk(job) && AllIn(order, job.h) && k <= |order|
    ensures AllIn(order[..k], job.h) && Size(job, order[..k]) <= Size(job, order)
    ensures RawImage(job, order)[..Size(job, order[..k])] == RawImage(job, order[..k])
  {
    if k < |order| {
      var front := order[..|order|-1];
      ImagePrefix(job, front, k);
      assert front[..k] == order[..k];
      TakeAppend(RawImage(job, front), RawEntry(job, order[|order|-1], Size(job, front)), Size(job, order[..k]));
      hide *;
    } else {
      assert order[..k] == order;
    }
  }

  /** Entry `k` starts at word `Size(order[..k])`. */
  lemma ImageEntry(job: Job, order: seq<int>, k: nat)
    requires JobOk(job) && AllIn(order, job.h) && k < |order|
    ensures AllIn(order[..k], job.h)
    ensures var p := Size(job, order[..k]);
      && p + EntrySize(job, order[k]) == Size(job, order[..k+1]) <= Size(job, order)
      && RawImage(job, order)[p..p + EntrySize(job, order[k])] == RawEntry(job, order[k], p)
  {
    assert order[..k+1] == order[..k] + [order[k]];
    ImagePrefix(job, order, k);
    ImagePrefix(job, order, k + 1);
    Extend(job, order[..k], order[k]);
    assert |RawEntry(job, order[k], Size(job, order[..k]))| == EntrySize(job, order[k]);
    hide *;
    SliceBack(RawImage(job, order), RawImage(job, order[..k]), RawEntry(job, order[k], Size(job, order[..k])));
  }

  /** The buffer in pass two when the first `k` entries are done. */
  ghost predicate Fixing(job: Job, relo: map<int, int>, order: seq<int>, k: nat, d: seq<int>, rest: seq<int>)
    requires JobOk(job) && AllIn(order, job.h) && k <= |order|
  {
    && AllIn(order[..k], job.h) && Size(job, order[..k]) <= Size(job, order)
    && d == FixImage(job, relo, order[..k]) + RawImage(job, order)[Size(job, order[..k])..] + rest
  }

  /** What pass two finds at the next entry. */
  lemma FixingHead(job: Job, relo: map<int, int>, order: seq<int>, k: nat, d: seq<int>, rest: seq<int>)
    requires JobOk(job) && AllIn(order, job.h) && k < |order|
    requires Fixing(job, relo, order, k, d, rest)
    ensures var p := Size(job, order[..k]);
      && AllIn(order[..k+1], job.h)
      && p + EntrySize(job, order[k]) == Size(job, order[..k+1]) <= Size(job, order) <= |d|
      && d[p..p + EntrySize(job, order[k])] == RawEntry(job, order[k], p)
  {
    hide HeapOk, FixImage, RawImage, RawEntry, EntrySize, Size, KindAt;
    var a, b := FixImage(job, relo, order[..k]), RawImage(job, order);
    assert d == a + b[|a|..] + rest;
    ImageEntry(job, order, k);
    SliceMiddle(a, b, rest, EntrySize(job, order[k]));
  }

  lemma FixingStep(job: Job, relo: map<int, int>, order: seq<int>, k: nat, d: seq<int>, rest: seq<int>)
    requires JobOk(job) && AllIn(order, job.h) && k < |order|
    requires Fixing(job, relo, order, k, d, rest) && order[k] in job.h.blocks
    ensures var p := Size(job, order[..k]);
      && p + 1 + |job.h.blocks[order[k]].fields| <= |d|
      && Fixing(job, relo, order, k + 1, Splice(d, p, FixBlock(job, relo, order[k], p)), rest)
  {
    hide HeapOk, FixBlock, RawBlock, RawData, Splice, RawImage, KindAt, WordAddr;
    var w, p := order[k], Size(job, order[..k]);
    ImageEntry(job, order, k);
    assert order[..k+1] == order[..k] + [w] && order[..k+1][..k] == order[..k];
    SpliceMiddle(FixImage(job, relo, order[..k]), RawImage(job, order), rest,
      RawBlock(job, w, p), FixBlock(job, relo, w, p), RawData(job, w));
  }

  /** The header of a copied block, as pass two reads it. */
  lemma ReadHeader(job: Job, w: int, pos: nat)
    requires JobOk(job) && w in job.h.blocks && Copied(KindAt(job.h, job.cfg, w))
    ensures var e, n := RawEntry(job, w, pos), |job.h.blocks[w].fields|;
      && |e| == EntrySize(job, w) >= 1 + n
      && e[0] == HeaderOf(job, w) && e[1..1 + n] == RawBlock(job, w, pos)[1..]
      && WosizeHd(e[0]) == n && TagHd(e[0]) == job.h.blocks[w].tag != ABSTRACT_TAG
      && (TagHd(e[0]) < NO_SCAN_TAG <==> KindAt(job.h, job.cfg, w).Scanned?)
      && (KindAt(job.h, job.cfg, w).Scanned? ==> RawData(job, w) == [])
  {
    BlockAt(job.h, job.cfg, w);
    HeaderParts(job.h.blocks[w].tag, job.cfg.color, |job.h.blocks[w].fields|);
    hide HeapOk, RawFields, Header, TagHd, WosizeHd;
  }

  /** The skip header that follows a bigarray. */
  lemma ReadSkip(job: Job, w: int, pos: nat)
    requires JobOk(job) && w in job.h.blocks && RawData(job, w) != []
    ensures var e, n := RawEntry(job, w, pos), |job.h.blocks[w].fields|;
      && |e| >= n + 3
      && TagHd(e[1 + n]) == ABSTRACT_TAG && WosizeHd(e[1 + n]) == 0 && e[2 + n] == |e| - n - 3
  {
    hide HeapOk, RawBlock, KindAt, Header, TagHd, WosizeHd;
    HeaderParts(ABSTRACT_TAG, 0, 0);
    var e, n := RawEntry(job, w, pos), |job.h.blocks[w].fields|;
    var data := RawData(job, w);
    assert e[1 + n] == data[0] && e[2 + n] == data[1];
  }

  lemma ScannedEntry(job: Job, w: int, pos: nat)
    requires JobOk(job) && w in job.h.blocks && KindAt(job.h, job.cfg, w).Scanned?
    ensures RawEntry(job, w, pos) == [HeaderOf(job, w)] + job.h.blocks[w].fields
    ensures EntrySize(job, w) == 1 + |job.h.blocks[w].fields|
  {
    assert RawData(job, w) == [];
    assert RawBlock(job, w, pos) == [HeaderOf(job, w)] + job.h.blocks[w].fields;
  }

  /** The loop of pass two over the fields of one block. */
  method FixInPlace(job: Job, t: HashTable.Htab, dest: array<int>, at: nat, words: nat)
    requires t.Valid() && at + words <= dest.Length
    modifies dest
    ensures t.Valid() && dest[..] == Splice(old(dest[..]), at, FixFields(job, t.m, old(dest[at..at + words])))
  {
    hide HashTable.Htab.Valid;
    for i := 0 to words
      invariant t.Valid()
      invariant forall j :: 0 <= j < dest.Length && !(at <= j < at + i) ==> dest[j] == old(dest[j])
      invariant forall j :: at <= j < at + i ==> dest[j] == FixField(job, t.m, old(dest[j]))
    {
      var field := dest[at + i];
      if IsBlock(field) {
        var fixup := t.Lookup(field);
        if fixup != 0 {
          dest[at + i] := fixup + (job.target - job.dest);
        }
      }
    }
  }

  /** One round of the loop of pass two: the header at word `p`. */
  method FixOne(job: Job, t: HashTable.Htab, dest: array<int>, p: nat) returns (p': int)
    requires t.Valid() && p < dest.Length && WosizeHd(dest[p]) >= 0
    requires TagHd(dest[p]) < NO_SCAN_TAG ==> p + 1 + WosizeHd(dest[p]) <= dest.Length
    requires TagHd(dest[p]) == ABSTRACT_TAG ==> p + 1 < dest.Length
    modifies dest
    ensures t.Valid()
    ensures old(TagHd(dest[p]) < NO_SCAN_TAG) ==>
      var n := old(WosizeHd(dest[p]));
      p' == p + 1 + n && dest[..] == Splice(old(dest[..]), p + 1, FixFields(job, t.m, old(dest[..])[p + 1..p + 1 + n]))
    ensures old(TagHd(dest[p]) == ABSTRACT_TAG && WosizeHd(dest[p]) == 0) ==>
      dest[..] == old(dest[..]) && p' == p + dest[p + 1] + 2
    ensures old(TagHd(dest[p]) >= NO_SCAN_TAG && TagHd(dest[p]) != ABSTRACT_TAG) ==>
      dest[..] == old(dest[..]) && p' == p + 1 + WosizeHd(dest[p])
  {
    hide HashTable.Htab.Valid, Splice, TagHd, WosizeHd;
    var tag, words := TagHd(dest[p]), WosizeHd(dest[p]);
    if tag < NO_SCAN_TAG {
      assert dest[p + 1..p + 1 + words] == dest[..][p + 1..p + 1 + words];
      FixInPlace(job, t, dest, p + 1, words);
    } else if tag == ABSTRACT_TAG && words == 0 {
      words := dest[p + 1] + 1;
    }
    p' := p + words + 1;
  }

  /** Where pass two stands: entry `k`, or the data that follows its block. */
  ghost predicate Standing(job: Job, relo: map<int, int>, order: seq<int>, k: nat, inData: bool,
                           p: nat, d: seq<int>, rest: seq<int>)
    requires JobOk(job) && AllIn(order, job.h) && AllCopied(job, order)
  {
    && k <= |order|
    && Fixing(job, relo, order, k, d, rest)
    && (inData ==> k < |order| && RawData(job, order[k]) != [])
    && p == Size(job, order[..k]) + if inData then 1 + |job.h.blocks[order[k]].fields| else 0
  }

  lemma StandingEntry(job: Job, relo: map<int, int>, order: seq<int>, k: nat, inData: bool,
                      p: nat, d: seq<int>, rest: seq<int>)
    requires JobOk(job) && AllIn(order, job.h) && AllCopied(job, order)
    requires Standing(job, relo, order, k, inData, p, d, rest) && p < Size(job, order)
    ensures k < |order| && order[k] in job.h.blocks && Copied(KindAt(job.h, job.cfg, order[k]))
    ensures var e := Size(job, order[..k]);
      && e + EntrySize(job, order[k]) <= |d|
      && d[e..e + EntrySize(job, order[k])] == RawEntry(job, order[k], e)
  {
    hide HeapOk, RawEntry, EntrySize;
    assert order[..|order|] == order;
    assert order[k] in order;
    FixingHead(job, relo, order, k, d, rest);
  }

  lemma RoundScanned(job: Job, relo: map<int, int>, order: seq<int>, k: nat, p: nat, d: seq<int>, rest: seq<int>)
    requires JobOk(job) && AllIn(order, job.h) && AllCopied(job, order)
    requires Standing(job, relo, order, k, false, p, d, rest) && k < |order|
    requires order[k] in job.h.blocks && KindAt(job.h, job.cfg, order[k]).Scanned?
    ensures var n := |job.h.blocks[order[k]].fields|;
      && p + 1 + n <= |d|
      && Standing(job, relo, order, k + 1, false, p + 1 + n,
           Splice(d, p + 1, FixFields(job, relo, d[p + 1..p + 1 + n])), rest)
  {
    hide HeapOk, Fixing, FixFields;
    var w, n := order[k], |job.h.blocks[order[k]].fields|;
    FixingHead(job, relo, order, k, d, rest);
    FixingStep(job, relo, order, k, d, rest);
    ScannedEntry(job, w, p);
    var f := FixFields(job, relo, job.h.blocks[w].fields);
    assert FixBlock(job, relo, w, p) == [HeaderOf(job, w)] + f;
    assert Size(job, order[..k]) == p;
    assert Standing(job, relo, order, k + 1, false, p + 1 + n, Splice(d, p, [HeaderOf(job, w)] + f), rest);
    hide *;
    SpliceRest(d, p, HeaderOf(job, w), job.h.blocks[w].fields, f);
  }

  lemma RoundOpaque(job: Job, relo: map<int, int>, order: seq<int>, k: nat, p: nat, d: seq<int>, rest: seq<int>)
    returns (hasData: bool)
    requires JobOk(job) && AllIn(order, job.h) && AllCopied(job, order)
    requires Standing(job, relo, order, k, false, p, d, rest) && k < |order|
    requires order[k] in job.h.blocks && !KindAt(job.h, job.cfg, order[k]).Scanned?
    ensures var n := |job.h.blocks[order[k]].fields|;
      Standing(job, relo, order, if hasData then k else k + 1, hasData, p + 1 + n, d, rest)
  {
    hide HeapOk, Fixing;
    hasData := RawData(job, order[k]) != [];
    if !hasData {
      EntryUnchanged(job, relo, order, k, d, rest);
    }
  }

  lemma RoundData(job: Job, relo: map<int, int>, order: seq<int>, k: nat, p: nat, d: seq<int>, rest: seq<int>)
    requires JobOk(job) && AllIn(order, job.h) && AllCopied(job, order)
    requires Standing(job, relo, order, k, true, p, d, rest) && order[k] in job.h.blocks
    ensures Standing(job, relo, order, k + 1, false, p + |RawData(job, order[k])|, d, rest)
  {
    EntryUnchanged(job, relo, order, k, d, rest);
  }

  /** A block that is not scanned is already as pass two leaves it. */
  lemma EntryUnchanged(job: Job, relo: map<int, int>, order: seq<int>, k: nat, d: seq<int>, rest: seq<int>)
    requires JobOk(job) && AllIn(order, job.h) && k < |order| && Fixing(job, relo, order, k, d, rest)
    requires order[k] in job.h.blocks && !KindAt(job.h, job.cfg, order[k]).Scanned?
    ensures Fixing(job, relo, order, k + 1, d, rest)
    ensures Size(job, order[..k+1]) == Size(job, order[..k]) + EntrySize(job, order[k])
  {
    hide HeapOk, Fixing;
    var w, p := order[k], Size(job, order[..k]);
    FixingHead(job, relo, order, k, d, rest);
    FixingStep(job, relo, order, k, d, rest);
    assert FixBlock(job, relo, w, p) == RawBlock(job, w, p);
    assert RawEntry(job, w, p) == RawBlock(job, w, p) + RawData(job, w);
    assert EntrySize(job, w) == |RawBlock(job, w, p)| + |RawData(job, w)|;
    hide *;
    SliceFront(d, p, RawBlock(job, w, p), RawData(job, w));
    SpliceSame(d, p, RawBlock(job, w, p));
  }

  /** The header under the cursor of pass two. */
  lemma RoundHeader(job: Job, relo: map<int, int>, order: seq<int>, k: nat, inData: bool,
                    p: nat, d: seq<int>, rest: seq<int>)
    requires JobOk(job) && AllIn(order, job.h) && AllCopied(job, order)
    requires Standing(job, relo, order, k, inData, p, d, rest) && p < Size(job, order)
    ensures k < |order| && order[k] in job.h.blocks && p < |d| && WosizeHd(d[p]) >= 0
    ensures var n := |job.h.blocks[order[k]].fields|;
      if inData then
        && TagHd(d[p]) == ABSTRACT_TAG && WosizeHd(d[p]) == 0
        && p + 1 < |d| && d[p + 1] >= 0 && d[p + 1] + 2 == |RawData(job, order[k])|
      else
        && WosizeHd(d[p]) == n && p + 1 + n <= |d| && TagHd(d[p]) != ABSTRACT_TAG
        && (TagHd(d[p]) < NO_SCAN_TAG <==> KindAt(job.h, job.cfg, order[k]).Scanned?)
  {
    hide HeapOk, Fixing, RawEntry, RawBlock, RawData, KindAt, Header, TagHd, WosizeHd, Size;
    StandingEntry(job, relo, order, k, inData, p, d, rest);
    var w, e, n := order[k], Size(job, order[..k]), |job.h.blocks[order[k]].fields|;
    ReadHeader(job, w, e);
    if inData {
      ReadSkip(job, w, e);
      EntryAt(d, e, RawEntry(job, w, e), 1 + n);
      EntryAt(d, e, RawEntry(job, w, e), 2 + n);
    } else {
      EntryAt(d, e, RawEntry(job, w, e), 0);
    }
  }

  lemma StartFixing(job: Job, relo: map<int, int>, order: seq<int>, bytes: int, d: seq<int>, cur: nat,
                    ext: map<int, seq<int>>)
    requires JobOk(job) && Laid(job, false, order, bytes, d, cur, relo, ext)
    ensures AllIn(order, job.h) && AllCopied(job, order) && cur == Size(job, order) <= |d|
    ensures Standing(job, relo, order, 0, false, 0, d, d[cur..])
  {
    hide HeapOk, RawImage;
    var image := RawImage(job, order);
    assert order[..0] == [];
    assert Size(job, order[..0]) == 0 && FixImage(job, relo, order[..0]) == [];
    assert |image| == cur && d[..cur] == image;
    StartParts(image, d, cur);
  }

  lemma EndFixing(job: Job, relo: map<int, int>, order: seq<int>, k: nat, inData: bool,
                  p: nat, d: seq<int>, rest: seq<int>)
    requires JobOk(job) && AllIn(order, job.h) && AllCopied(job, order)
    requires Standing(job, relo, order, k, inData, p, d, rest) && p >= Size(job, order)
    ensures d == FixImage(job, relo, order) + rest
  {
    StandingAtEnd(job, relo, order, k, inData, p, d, rest);
    assert order[..|order|] == order;
    hide HeapOk, FixImage, RawImage, Size;
    var a, b := FixImage(job, relo, order), RawImage(job, order);
    assert d == a + b[|b|..] + rest;
    EndParts(a, b, rest);
  }

  lemma StandingAtEnd(job: Job, relo: map<int, int>, order: seq<int>, k: nat, inData: bool,
                      p: nat, d: seq<int>, rest: seq<int>)
    requires JobOk(job) && AllIn(order, job.h) && AllCopied(job, order)
    requires Standing(job, relo, order, k, inData, p, d, rest)
    ensures k < |order| ==> p < Size(job, order)
  {
    hide HeapOk, Fixing;
    if k < |order| {
      assert order[k] in order;
      FixingHead(job, relo, order, k, d, rest);
      assert EntrySize(job, order[k]) == 1 + |job.h.blocks[order[k]].fields| + |RawData(job, order[k])|;
    }
  }

  /** The second pass. */
  method PassTwo(job: Job, t: HashTable.Htab, dest: array<int>, bytes: int, cur: nat,
                 ghost ext: map<int, seq<int>>, ghost order: seq<int>)
    requires JobOk(job) && t.Valid()
    requires Laid(job, false, order, bytes, dest[..], cur, t.m, ext)
    modifies dest
    ensures t.Valid() && cur <= dest.Length
    ensures dest[..] == FixImage(job, t.m, order) + old(dest[..])[cur..]
  {
    hide *;
    ghost var k, inData, relo := 0, false, t.m;
    StartFixing(job, relo, order, bytes, dest[..], cur, ext);
    ghost var rest := dest[..][cur..];
    
    var p := 0;
    while p < cur
      invariant t.Valid() && 0 <= p
      invariant Standing(job, relo, order, k, inData, p, dest[..], rest)
      decreases cur - p
    {
      ghost var d, at := dest[..], p;
      RoundHeader(job, relo, order, k, inData, p, d, rest);
      p := FixOne(job, t, dest, p);
      if inData {
        RoundData(job, relo, order, k, at, d, rest);
        k, inData := k + 1, false;
      } else if TagHd(d[at]) < NO_SCAN_TAG {
        RoundScanned(job, relo, order, k, at, d, rest);
        k := k + 1;
      } else {
        inData := RoundOpaque(job, relo, order, k, at, d, rest);
        k := if inData then k else k + 1;
      }
    }
    EndFixing(job, relo, order, k, inData, p, dest[..], rest);
  }

  // ------------------------------------------------- the entry points

  /** What a call on `orig` has to copy, in order. */
  ghost function Plan(h: Heap, cfg: Config, orig: int): WalkResult
    requires HeapOk(h, cfg) && (IsBlock(orig) ==> orig in h.blocks)
  {
    if IsBlock(orig) then Walk(h, cfg, [orig], []) else Rejected
  }

  /** `netsys_init_value_1`; `bytes` is dest_end - dest. */
  method InitValue1(job: Job, t: HashTable.Htab, q: RingQueue.NQueue, dest: array<int>, bytes: int,
                    simulation: bool, orig: int)
    returns (code: int, startOffset: int, bytelen: int, ext: map<int, seq<int>>)
    requires JobOk(job) && t.Valid() && q.Valid() && q.table != dest
    requires t.m == map[] && q.Contents() == []
    requires IsBlock(orig) ==> orig in job.h.blocks
    requires !simulation ==> job.dest > 0 && (bytes > 0 ==> dest.Length == bytes / WORD)
    modifies t, t.cells, q, q.table, dest
    ensures t.Valid() && q.Valid()
    ensures (t.cells == old(t.cells) || fresh(t.cells)) && (q.table == old(q.table) || fresh(q.table))
    ensures var plan := Plan(job.h, job.cfg, orig);
      match code
      case 0 =>
        && plan.Walked? && AllIn(plan.order, job.h)
        && startOffset == WORD && bytelen == WORD * Size(job, plan.order)
        && (!simulation ==>
            && 0 < bytes && bytelen <= bytes && bytelen / WORD <= dest.Length
            && dest[..] == FixImage(job, Relo(job, plan.order), plan.order) + old(dest[..])[bytelen / WORD..]
            && ext == External(job, plan.order))
      case -2 => plan.Rejected?
      case -4 =>
        && !simulation
        && (plan.Walked? && bytes > 0 ==> AllIn(plan.order, job.h) && WORD * Size(job, plan.order) > bytes)
      case _ => false
  {
    hide HeapOk, HashTable.Htab.Valid, RingQueue.NQueue.Valid, RingQueue.NQueue.Contents;
    hide FixImage, Relo, Size, External, Walk;
    startOffset, bytelen, ext := 0, 0, map[];
    if bytes <= 0 && !simulation { return -4, startOffset, bytelen, ext; }
    if !IsBlock(orig) { return -2, startOffset, bytelen, ext; }
    var cur;
    ghost var order;
    code, cur, ext, order := PassOne(job, t, q, dest, bytes, simulation, orig);
    if code != 0 { return; }
    if !simulation {
      ghost var d := dest[..];
      PassTwo(job, t, dest, bytes, cur, ext, order);
      assert d[cur..] == old(dest[..])[cur..] by {
        assert d[cur..] == old(dest[cur..]);
      }
    }
    startOffset, bytelen := WORD, WORD * cur;
  }

  // ---------------------------------- counting first, then copying

  /** The same flags with other operation tables and another colour. */
  ghost predicate SameFlags(a: Config, b: Config)
  {
    && a.bigarrays == b.bigarrays && a.customs == b.customs && a.atoms == b.atoms
    && a.enableCc == b.enableCc && a.cc == b.cc
  }

  ghost predicate SameShape(a: Kind, b: Kind)
  {
    && a.Unsupported? == b.Unsupported? && a.SkippedAtom? == b.SkippedAtom?
    && a.Scanned? == b.Scanned? && a.Bigarray? == b.Bigarray?
  }

  lemma SameKinds(h: Heap, a: Config, b: Config, w: int)
    requires SameFlags(a, b) && HeapOk(h, a) && HeapOk(h, b) && w in h.blocks
    ensures SameShape(KindAt(h, a, w), KindAt(h, b, w))
    ensures Children(h, a, w) == Children(h, b, w)
  {
    BlockAt(h, a, w);
    SamePointers(a, b, h.blocks[w].fields);
  }

  lemma {:induction false} SamePointers(a: Config, b: Config, fields: seq<int>)
    requires SameFlags(a, b)
    ensures Pointers(a, fields) == Pointers(b, fields)
  {
    if fields != [] { SamePointers(a, b, fields[..|fields|-1]); }
  }

  lemma SameHeapOk(h: Heap, a: Config, b: Config)
    requires SameFlags(a, b) && HeapOk(h, a)
    ensures HeapOk(h, b)
  {
    forall w | w in h.blocks
      ensures BlockKind(h, b, h.blocks[w]).Scanned? ==> BlockKind(h, a, h.blocks[w]).Scanned?
    {
      BlockAt(h, a, w);
    }
    forall f: int ensures InCc(a, f) == InCc(b, f) { }
  }

  lemma {:induction false} SameWalk(h: Heap, a: Config, b: Config, queue: seq<int>, order: seq<int>)
    requires SameFlags(a, b) && HeapOk(h, a) && HeapOk(h, b) && AllIn(queue, h)
    ensures Walk(h, a, queue, order) == Walk(h, b, queue, order)
    decreases h.blocks.Keys - (set x | x in order), |queue|
  {
    hide HeapOk;
    if queue != [] {
      var w := queue[0];
      SameKinds(h, a, b, w);
      if w in order || KindAt(h, a, w).SkippedAtom? {
        SameWalk(h, a, b, queue[1..], order);
      } else if !KindAt(h, a, w).Unsupported? {
        ChildrenInHeap(h, a, w);
        assert w in h.blocks.Keys - (set x | x in order);
        SameWalk(h, a, b, queue[1..] + Children(h, a, w), order + [w]);
      }
    }
  }

  lemma {:induction false} SameSize(a: Job, b: Job, order: seq<int>)
    requires a.h == b.h && SameFlags(a.cfg, b.cfg) && JobOk(a) && JobOk(b) && AllIn(order, a.h)
    ensures Size(a, order) == Size(b, order)
  {
    hide HeapOk, BlockKind;
    if order != [] {
      SameSize(a, b, order[..|order|-1]);
      SameKinds(a.h, a.cfg, b.cfg, order[|order|-1]);
    }
  }

  /** The result of `netsys_copy_value`: `value` is the copy, the other fields are
      the memory that was filled. */
  datatype CopyResult = CopyResult(code: int, value: int, image: seq<int>, ext: map<int, seq<int>>)

  /** A call of `netsys_copy_value` on the heap as it is then.  `dest`, `color` and
      `malloc` are what the runtime's allocator answers, `ops` the operation tables of
      this process. */
  datatype Request = Request(h: Heap, bigarrays: bool, customs: bool, orig: int,
                             ops: Ops, color: nat, dest: int, malloc: int -> int)

  /** atoms are not copied, `cc` is not used, bigarray data goes to fresh memory */
  function CopyConfig(req: Request): Config
  {
    Config(if req.bigarrays then 1 else 0, req.customs, 1, false, [], req.ops, req.color)
  }

  ghost predicate RequestOk(req: Request)
  {
    HeapOk(req.h, CopyConfig(req)) && (IsBlock(req.orig) ==> req.orig in req.h.blocks) && req.color < 4 && req.dest > 0
  }

  ghost function CopyJob(req: Request): Job { Job(req.h, CopyConfig(req), req.dest, req.dest, req.malloc) }

  /** Immediate values and atoms are their own copies.  Otherwise the result is that of
      the walk; the block of the counted size is filled exactly, and never too small. */
  ghost predicate CopiedRight(req: Request, r: CopyResult)
    requires RequestOk(req)
  {
    if !IsBlock(req.orig) || req.h.blocks[req.orig].fields == [] then r == CopyResult(0, req.orig, [], map[])
    else
      var job, plan := CopyJob(req), Plan(req.h, CopyConfig(req), req.orig);
      if plan.Rejected? then r.code == -2
      else
        && AllIn(plan.order, req.h)
        && var image := FixImage(job, Relo(job, plan.order), plan.order);
        r == CopyResult(0, req.dest + WORD, image, External(job, plan.order))
  }

  /** The two runs of `netsys_copy_value`, with an empty table and an empty queue. */
  method CountAndCopy(t: HashTable.Htab, q: RingQueue.NQueue, req: Request) returns (r: CopyResult)
    requires RequestOk(req) && t.Valid() && q.Valid() && t.m == map[] && q.Contents() == []
    requires IsBlock(req.orig) && req.h.blocks[req.orig].fields != []
    modifies t, t.cells, q, q.table
    ensures t.Valid() && q.Valid() && CopiedRight(req, r)
    ensures (t.cells == old(t.cells) || fresh(t.cells)) && (q.table == old(q.table) || fresh(q.table))
  {
    hide HeapOk, HashTable.Htab.Valid, RingQueue.NQueue.Valid, RingQueue.NQueue.Contents;
    hide Walk, Size, FixImage, Relo, External;
    var h, orig := req.h, req.orig;
    var count := CopyConfig(req.(ops := Ops(0, 0, 0, 0), color := 0));
    ghost var cfg := CopyConfig(req);
    var none := new int[0];
    var counting := Job(h, count, 0, 0, req.malloc);
    var job := Job(h, CopyConfig(req), req.dest, req.dest, req.malloc);
    SameHeapOk(h, cfg, count);
    SameWalk(h, cfg, count, [orig], []);
    var code, startOffset, bytelen, ext := InitValue1(counting, t, q, none, 0, true, orig);
    if code != 0 { return CopyResult(code, 0, [], map[]); }
    var block := new int[bytelen / WORD];
    t.Clear();
    q.Clear();
    ghost var order := Plan(h, cfg, orig).order;
    SameSize(counting, job, order);
    RootCopied(h, cfg, orig);
    SizePositive(job, order);
    code, startOffset, bytelen, ext := InitValue1(job, t, q, block, bytelen, false, orig);
    return CopyResult(code, req.dest + startOffset, block[..], ext);
  }

  /** `stat_tab` and `stat_queue` live from call to call; null stands for storage that is
      not there yet or was freed. */
  class Copier {
    const mix: int -> nat
    var tab: HashTable.Htab?
    var queue: RingQueue.NQueue?

    ghost function Repr(): set<object?>
      reads this, tab, queue
    {
      {this} + (if tab == null then {} else {tab, tab.cells}) + (if queue == null then {} else {queue, queue.table})
    }

    /** Whatever the last call has left in them. */
    ghost predicate Valid()
      reads this, tab, queue, if tab == null then {} else {tab.cells}
    {
      (tab != null ==> tab.Valid()) && (queue != null ==> queue.Valid())
    }

    /** The table that is kept is not larger than a new one. */
    ghost predicate Small()
      reads this, tab
    {
      tab != null ==> tab.cells.Length <= 256
    }

    constructor (mix: int -> nat)
      ensures Valid() && fresh(Repr()) && Small()
    {
      this.mix := mix;
      tab, queue := null, null;
    }

    /** `prep_stat_tab`, `prep_stat_queue` */
    method Prepare() returns (t: HashTable.Htab, q: RingQueue.NQueue)
      requires Valid()
      modifies Repr()
      ensures Valid() && fresh(Repr() - old(Repr())) && tab == t && queue == q
      ensures t.m == map[] && q.Contents() == []
      ensures if old(tab) == null then t.cells.Length == 256
              else t == old(tab) && t.cells.Length == old(tab.cells.Length)
      ensures if old(queue) == null then q.table.Length == 256 else q == old(queue) && q.table == old(queue.table)
    {
      if tab == null { tab := new HashTable.Htab(mix, 256); } else { tab.Clear(); }
      if queue == null { queue := new RingQueue.NQueue(256); } else { queue.Clear(); }
      return tab, queue;
    }

    /** `unprep_stat_tab`, `unprep_stat_queue`: a table that has grown is given back.  The
        queue is judged by what is left in it, so it is kept when it has run empty. */
    method Unprepare()
      requires Valid() && tab != null && queue != null
      modifies this
      ensures Valid() && Repr() <= old(Repr())
      ensures tab == if old(tab.cells.Length) > 256 then null else old(tab)
      ensures old(|queue.Contents()|) == 0 ==> queue == old(queue)
      ensures old(queue.start <= queue.end) ==> queue == if old(|queue.Contents()|) > 256 then null else old(queue)
    {
      if tab.cells.Length > 256 { tab := null; }
      var size := queue.Size();
      if size > 256 { queue := null; }
    }

    /** `netsys_copy_value` */
    method CopyValue(req: Request) returns (r: CopyResult)
      requires Valid() && RequestOk(req)
      modifies Repr()
      ensures Valid() && fresh(Repr() - old(Repr()))
      ensures CopiedRight(req, r)
      ensures old(Small()) ==> Small()
    {
      hide HeapOk, HashTable.Htab.Valid, RingQueue.NQueue.Valid, RingQueue.NQueue.Contents, Plan, FixImage, Relo;
      if !IsBlock(req.orig) || |req.h.blocks[req.orig].fields| == 0 { return CopyResult(0, req.orig, [], map[]); }
      var t, q := Prepare();
      r := CountAndCopy(t, q, req);
      Unprepare();
    }
  }

  /** Any number of calls, failing ones included: each has the result it would have had
      as the only one. */
  method CopyAll(mix: int -> nat, reqs: seq<Request>) returns (results: seq<CopyResult>)
    requires forall k :: 0 <= k < |reqs| ==> RequestOk(reqs[k])
    ensures |results| == |reqs| && forall k :: 0 <= k < |reqs| ==> CopiedRight(reqs[k], results[k])
  {
    hide RequestOk, CopiedRight, Copier.Valid;
    var c := new Copier(mix);
    results := [];
    for k := 0 to |reqs|
      invariant c.Valid() && fresh(c.Repr())
      invariant |results| == k && forall j :: 0 <= j < k ==> CopiedRight(reqs[j], results[j])
    {
      var r := c.CopyValue(reqs[k]);
      results := results + [r];
    }
  }

  /** A root that is not an atom comes first in the order of copying. */
  lemma RootCopied(h: Heap, cfg: Config, orig: int)
    requires HeapOk(h, cfg) && orig in h.blocks && h.blocks[orig].fields != []
    ensures var r := Walk(h, cfg, [orig], []);
      r.Walked? ==> |r.order| > 0 && r.order[0] == orig && AllIn(r.order, h)
  {
    ChildrenInHeap(h, cfg, orig);
    if !KindAt(h, cfg, orig).Unsupported? {
      WalkExtends(h, cfg, [orig][1..] + Children(h, cfg, orig), [] + [orig]);
    }
  }

  lemma SizePositive(job: Job, order: seq<int>)
    requires JobOk(job) && AllIn(order, job.h)
    ensures order != [] ==> Size(job, order) > 0
  {
  }
}
