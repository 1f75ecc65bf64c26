/** What the copier achieves: the order of copying is exactly the part of the heap
    that can be reached from the root, and the buffer, read header by header at its
    later address, is an isomorphic copy of that part.
 */
module ValueGraph {
  import opened Sequences
  import opened Values
  import opened Words
  import opened ValueCopy

  // ------------------------------------------------------ reachability

  /** `p` leads from `a` to `x` along the pointers that pass one follows. */
  ghost predicate IsPath(h: Heap, cfg: Config, a: int, x: int, p: seq<int>)
    requires HeapOk(h, cfg)
  {
    && |p| > 0 && p[0] == a && p[|p|-1] == x && AllIn(p, h)
    && forall i :: 0 <= i < |p| - 1 ==> p[i] in h.blocks && p[i+1] in Children(h, cfg, p[i])
  }

  ghost predicate Reaches(h: Heap, cfg: Config, a: int, x: int)
    requires HeapOk(h, cfg)
  {
    exists p :: IsPath(h, cfg, a, x, p)
  }

  lemma ReachesSelf(h: Heap, cfg: Config, a: int)
    requires HeapOk(h, cfg) && a in h.blocks
    ensures Reaches(h, cfg, a, a)
  {
    assert IsPath(h, cfg, a, a, [a]);
  }

  lemma ReachesStep(h: Heap, cfg: Config, a: int, b: int, x: int)
    requires HeapOk(h, cfg) && a in h.blocks && b in Children(h, cfg, a) && Reaches(h, cfg, b, x)
    ensures Reaches(h, cfg, a, x)
  {
    hide HeapOk, Children;
    var p :| IsPath(h, cfg, b, x, p);
    var q := [a] + p;
    forall i | 0 <= i < |q| - 1 ensures q[i] in h.blocks && q[i+1] in Children(h, cfg, q[i]) {
      if i > 0 { assert p[i-1] in h.blocks && p[i] in Children(h, cfg, p[i-1]); }
    }
    assert IsPath(h, cfg, a, x, q);
  }

  /** Every address that pass one copies is reached from the queue. */
  lemma {:induction false} WalkSound(h: Heap, cfg: Config, queue: seq<int>, order: seq<int>, x: int)
    requires HeapOk(h, cfg) && AllIn(queue, h)
    requires Walk(h, cfg, queue, order).Walked? && x in Walk(h, cfg, queue, order).order && x !in order
    ensures exists q :: q in queue && Reaches(h, cfg, q, x)
    decreases h.blocks.Keys - (set x | x in order), |queue|
  {
    hide HeapOk, Reaches;
    var w := queue[0];
    if w in order || KindAt(h, cfg, w).SkippedAtom? {
      WalkSound(h, cfg, queue[1..], order, x);
    } else {
      ChildrenInHeap(h, cfg, w);
      assert w in h.blocks.Keys - (set x | x in order);
      if x == w {
        ReachesSelf(h, cfg, w);
      } else {
        WalkSound(h, cfg, queue[1..] + Children(h, cfg, w), order + [w], x);
        var q :| q in queue[1..] + Children(h, cfg, w) && Reaches(h, cfg, q, x);
        if q !in queue[1..] { ReachesStep(h, cfg, w, q, x); }
      }
    }
  }

  /** A rejected run met an unsupported block that is reached from the queue. */
  lemma {:induction false} RejectSound(h: Heap, cfg: Config, queue: seq<int>, order: seq<int>)
    returns (q: int, x: int)
    requires HeapOk(h, cfg) && AllIn(queue, h) && Walk(h, cfg, queue, order).Rejected?
    ensures q in queue && Reaches(h, cfg, q, x) && x in h.blocks && KindAt(h, cfg, x).Unsupported?
    decreases h.blocks.Keys - (set x | x in order), |queue|
  {
    hide HeapOk, Reaches;
    var w := queue[0];
    if w in order || KindAt(h, cfg, w).SkippedAtom? {
      q, x := RejectSound(h, cfg, queue[1..], order);
    } else if KindAt(h, cfg, w).Unsupported? {
      ReachesSelf(h, cfg, w);
      q, x := w, w;
    } else {
      ChildrenInHeap(h, cfg, w);
      assert w in h.blocks.Keys - (set x | x in order);
      q, x := RejectSound(h, cfg, queue[1..] + Children(h, cfg, w), order + [w]);
      if q !in queue[1..] {
        ReachesStep(h, cfg, w, q, x);
        q := w;
      }
    }
  }

  /** `x` needs no more work: it is copied or queued, or an atom left in place. */
  ghost predicate Done(h: Heap, cfg: Config, s: seq<int>, x: int)
    requires HeapOk(h, cfg)
  {
    x in h.blocks && (x in s || KindAt(h, cfg, x).SkippedAtom?)
  }

  ghost predicate Closed(h: Heap, cfg: Config, order: seq<int>, s: seq<int>)
    requires HeapOk(h, cfg) && AllIn(order, h)
  {
    && (forall x :: x in order ==> Copied(KindAt(h, cfg, x)))
    && (forall x, c :: x in order && c in Children(h, cfg, x) ==> Done(h, cfg, s, c))
  }

  lemma ClosedMove(h: Heap, cfg: Config, order: seq<int>, s: seq<int>, s': seq<int>)
    requires HeapOk(h, cfg) && AllIn(order, h) && Closed(h, cfg, order, s)
    requires forall x :: Done(h, cfg, s, x) ==> Done(h, cfg, s', x)
    ensures Closed(h, cfg, order, s')
  {
  }

  lemma ClosedAdd(h: Heap, cfg: Config, order: seq<int>, w: int, s: seq<int>)
    requires HeapOk(h, cfg) && AllIn(order, h) && Closed(h, cfg, order, s)
    requires w in h.blocks && Copied(KindAt(h, cfg, w))
    requires forall c :: c in Children(h, cfg, w) ==> Done(h, cfg, s, c)
    ensures Closed(h, cfg, order + [w], s)
  {
    hide HeapOk, Children, KindAt;
    forall x, c | x in order + [w] && c in Children(h, cfg, x) ensures Done(h, cfg, s, c) {
      if x != w { assert x in order; }
    }
  }

  lemma {:induction false} WalkClosed(h: Heap, cfg: Config, queue: seq<int>, order: seq<int>)
    requires HeapOk(h, cfg) && AllIn(queue, h) && AllIn(order, h) && NoDuplicates(order)
    requires Closed(h, cfg, order, order + queue)
    ensures var r := Walk(h, cfg, queue, order);
      r.Walked? ==>
        && AllIn(r.order, h) && NoDuplicates(r.order) && Closed(h, cfg, r.order, r.order)
        && forall q :: q in queue ==> Done(h, cfg, r.order, q)
    decreases h.blocks.Keys - (set x | x in order), |queue|
  {
    hide HeapOk, Children, KindAt;
    WalkExtends(h, cfg, queue, order);
    if queue != [] {
      var w := queue[0];
      assert queue == [w] + queue[1..];
      if w in order || KindAt(h, cfg, w).SkippedAtom? {
        ClosedMove(h, cfg, order, order + queue, order + queue[1..]);
        WalkClosed(h, cfg, queue[1..], order);
      } else if !KindAt(h, cfg, w).Unsupported? {
        ChildrenInHeap(h, cfg, w);
        assert w in h.blocks.Keys - (set x | x in order);
        var s := order + [w] + (queue[1..] + Children(h, cfg, w));
        ClosedMove(h, cfg, order, order + queue, s);
        ClosedAdd(h, cfg, order, w, s);
        WalkClosed(h, cfg, queue[1..] + Children(h, cfg, w), order + [w]);
        WalkExtends(h, cfg, queue[1..] + Children(h, cfg, w), order + [w]);
      }
    } else {
      assert order + queue == order;
    }
  }

  lemma {:induction false} ClosedPath(h: Heap, cfg: Config, order: seq<int>, a: int, x: int, p: seq<int>)
    requires HeapOk(h, cfg) && AllIn(order, h) && Closed(h, cfg, order, order)
    requires Done(h, cfg, order, a) && IsPath(h, cfg, a, x, p)
    ensures Done(h, cfg, order, x)
    decreases |p|
  {
    hide HeapOk;
    if |p| > 1 {
      assert p[0] in h.blocks && p[0+1] in Children(h, cfg, p[0]);
      var q := p[1..];
      forall i | 0 <= i < |q| - 1 ensures q[i] in h.blocks && q[i+1] in Children(h, cfg, q[i]) {
        assert p[i+1] in h.blocks && p[i+1+1] in Children(h, cfg, p[i+1]);
      }
      ClosedPath(h, cfg, order, p[1], x, q);
    }
  }

  /** Main result on pass one.  It finishes exactly when no unsupported block can be
      reached from the root.  It then copies every reachable block once, except
      atoms that stay where they are, and copies nothing else. */
  lemma CopiesReachable(h: Heap, cfg: Config, root: int)
    requires HeapOk(h, cfg) && root in h.blocks
    ensures var r := Walk(h, cfg, [root], []);
      && (r.Rejected? <==> exists x :: x in h.blocks && Reaches(h, cfg, root, x) && KindAt(h, cfg, x).Unsupported?)
      && (r.Walked? ==>
          && NoDuplicates(r.order) && AllIn(r.order, h)
          && (forall x :: x in r.order <==> x in h.blocks && Reaches(h, cfg, root, x) && Copied(KindAt(h, cfg, x)))
          && (r.order == [] || r.order[0] == root))
  {
    hide HeapOk, KindAt;
    var r := Walk(h, cfg, [root], []);
    WalkClosed(h, cfg, [root], []);
    if r.Rejected? {
      var q, x := RejectSound(h, cfg, [root], []);
    } else {
      forall x | x in h.blocks && Reaches(h, cfg, root, x) ensures Done(h, cfg, r.order, x) {
        var p :| IsPath(h, cfg, root, x, p);
        ClosedPath(h, cfg, r.order, root, x, p);
      }
      forall x | x in r.order ensures Reaches(h, cfg, root, x) {
        WalkSound(h, cfg, [root], [], x);
      }
      RootFirst(h, cfg, root);
    }
  }

  lemma RootFirst(h: Heap, cfg: Config, root: int)
    requires HeapOk(h, cfg) && root in h.blocks
    ensures var r := Walk(h, cfg, [root], []);
      r.Walked? ==> r.order == [] || r.order[0] == root
  {
    hide HeapOk;
    ChildrenInHeap(h, cfg, root);
    if Copied(KindAt(h, cfg, root)) {
      WalkExtends(h, cfg, [root][1..] + Children(h, cfg, root), [] + [root]);
    } else if KindAt(h, cfg, root).SkippedAtom? {
      assert [root][1..] == [];
    }
  }

  // ------------------------------------------------------- the image

  /** A block as it is found behind a header in the buffer. */
  datatype Found = Found(color: int, tag: int, fields: seq<int>)

  /** Reads a buffer that starts at address `base`, header by header from word
      `pos`, and skips data regions by their special header. */
  ghost function Parse(d: seq<int>, base: int, pos: nat): map<int, Found>
    decreases |d| - pos
  {
    if pos >= |d| then map[]
    else
      var tag, n := TagHd(d[pos]), WosizeHd(d[pos]);
      if tag == ABSTRACT_TAG && n == 0 then
        if pos + 1 < |d| && d[pos+1] >= 0 then Parse(d, base, pos + d[pos+1] + 2) else map[]
      else if n < 0 || pos + 1 + n > |d| then map[]
      else Parse(d, base, pos + 1 + n)
             [WordAddr(base, pos + 1) := Found(ColorHd(d[pos]), tag, d[pos+1..pos+1+n])]
  }

  lemma ParseBlock(d: seq<int>, base: int, pos: nat, f: Found)
    requires pos + 1 + |f.fields| <= |d| && f.tag != ABSTRACT_TAG
    requires f.tag == TagHd(d[pos]) && f.color == ColorHd(d[pos]) && |f.fields| == WosizeHd(d[pos])
    requires d[pos+1..pos+1+|f.fields|] == f.fields
    ensures Parse(d, base, pos) == Parse(d, base, pos + 1 + |f.fields|)[WordAddr(base, pos + 1) := f]
  {
    hide TagHd, WosizeHd, ColorHd;
  }

  lemma ParseSkip(d: seq<int>, base: int, pos: nat)
    requires pos + 1 < |d| && TagHd(d[pos]) == ABSTRACT_TAG && WosizeHd(d[pos]) == 0 && d[pos+1] >= 0
    ensures Parse(d, base, pos) == Parse(d, base, pos + d[pos+1] + 2)
  {
    hide TagHd, WosizeHd, ColorHd;
  }

  ghost function FoundCopy(job: Job, relo: map<int, int>, w: int, pos: nat): Found
    requires JobOk(job) && w in job.h.blocks
  {
    Found(job.cfg.color, job.h.blocks[w].tag, FixBlock(job, relo, w, pos)[1..])
  }

  /** The blocks from entry `k` on, at their later addresses. */
  ghost function Expected(job: Job, relo: map<int, int>, order: seq<int>, k: nat): map<int, Found>
    requires JobOk(job) && AllIn(order, job.h) && k <= |order|
    decreases |order| - k
  {
    if k == |order| then map[]
    else
      assert order[k] in order;
      var pos := Size(job, order[..k]);
      Expected(job, relo, order, k + 1)[WordAddr(job.target, pos + 1) := FoundCopy(job, relo, order[k], pos)]
  }

  lemma Member(h: Heap, order: seq<int>, k: nat)
    requires AllIn(order, h) && k < |order|
    ensures order[k] in order && order[k] in h.blocks
  {
    var x := order[k];
    assert x in order;
  }

  lemma {:induction false} FixPrefix(job: Job, relo: map<int, int>, order: seq<int>, k: nat)
    requires JobOk(job) && AllIn(order, job.h) && k <= |order|
    ensures AllIn(order[..k], job.h) && Size(job, order[..k]) <= Size(job, order)
    ensures FixImage(job, relo, order)[..Size(job, order[..k])] == FixImage(job, relo, order[..k])
  {
    hide HeapOk, FixImage, Size, KindAt, FixBlock, RawData;
    if k < |order| {
      var front, w := order[..|order|-1], order[|order|-1];
      AllInFront(job.h, order);
      FixPrefix(job, relo, front, k);
      FixExtend(job, relo, front, w);
      var image, entry := FixImage(job, relo, front), FixBlock(job, relo, w, Size(job, front)) + RawData(job, w);
      var n := Size(job, front[..k]);
      assert front + [w] == order && front[..k] == order[..k];
      assert FixImage(job, relo, order) == image + entry;
      hide *;
      TakeAppend(image, entry, n);
    } else {
      assert order[..k] == order;
      hide *;
    }
  }

  lemma AllInFront(h: Heap, order: seq<int>)
    requires AllIn(order, h) && order != []
    ensures AllIn(order[..|order|-1], h) && order[|order|-1] in h.blocks
  {
    Member(h, order, |order| - 1);
  }

  lemma FixExtend(job: Job, relo: map<int, int>, order: seq<int>, w: int)
    requires JobOk(job) && AllIn(order, job.h) && w in job.h.blocks
    ensures AllIn(order + [w], job.h) && Size(job, order + [w]) == Size(job, order) + EntrySize(job, w)
    ensures FixImage(job, relo, order + [w])
      == FixImage(job, relo, order) + (FixBlock(job, relo, w, Size(job, order)) + RawData(job, w))
    ensures |FixBlock(job, relo, w, Size(job, order)) + RawData(job, w)| == EntrySize(job, w)
  {
    hide HeapOk, FixBlock, RawData, KindAt;
    assert (order + [w])[..|order|] == order;
  }

  lemma FixEntry(job: Job, relo: map<int, int>, order: seq<int>, k: nat)
    requires JobOk(job) && AllIn(order, job.h) && k < |order| && order[k] in job.h.blocks
    ensures AllIn(order[..k], job.h) && AllIn(order[..k+1], job.h)
    ensures var p := Size(job, order[..k]);
      && p + EntrySize(job, order[k]) == Size(job, order[..k+1]) <= Size(job, order)
      && FixImage(job, relo, order)[p..p + EntrySize(job, order[k])]
         == FixBlock(job, relo, order[k], p) + RawData(job, order[k])
  {
    hide HeapOk, FixImage, FixBlock, RawData, RawImage, RawEntry, KindAt, Size, Relo, External;
    assert order[..k+1] == order[..k] + [order[k]];
    FixPrefix(job, relo, order, k);
    FixPrefix(job, relo, order, k + 1);
    var p, w := Size(job, order[..k]), order[k];
    FixExtend(job, relo, order[..k], w);
    SliceBack(FixImage(job, relo, order), FixImage(job, relo, order[..k]),
      FixBlock(job, relo, w, p) + RawData(job, w));
  }

  /** Parsing one entry: first the block, then the skipped data. */
  lemma ParsePair(d: seq<int>, base: int, pos: nat, fixed: seq<int>, data: seq<int>, f: Found)
    requires pos + |fixed| + |data| <= |d| && |fixed| > 0
    requires d[pos..pos + |fixed| + |data|] == fixed + data
    requires f.tag == TagHd(fixed[0]) != ABSTRACT_TAG && f.color == ColorHd(fixed[0])
    requires f.fields == fixed[1..] && |f.fields| == WosizeHd(fixed[0])
    requires data != [] ==>
      |data| >= 2 && TagHd(data[0]) == ABSTRACT_TAG && WosizeHd(data[0]) == 0 && data[1] == |data| - 2
    ensures Parse(d, base, pos) == Parse(d, base, pos + |fixed| + |data|)[WordAddr(base, pos + 1) := f]
  {
    hide *;
    var n := |fixed|;
    SliceAt(d, pos, n + |data|, 0);
    SliceFront(d, pos, fixed, data);
    assert d[pos+1..pos+n] == d[pos..pos+n][1..];
    ParseBlock(d, base, pos, f);
    if data != [] {
      EntryAt(d, pos, fixed + data, n);
      EntryAt(d, pos, fixed + data, n + 1);
      assert (fixed + data)[n] == data[0] && (fixed + data)[n + 1] == data[1];
      ParseSkip(d, base, pos + n);
    }
  }

  lemma ParseEntry(job: Job, relo: map<int, int>, d: seq<int>, w: int, pos: nat)
    requires JobOk(job) && w in job.h.blocks && Copied(KindAt(job.h, job.cfg, w))
    requires pos + EntrySize(job, w) <= |d|
    requires d[pos..pos + EntrySize(job, w)] == FixBlock(job, relo, w, pos) + RawData(job, w)
    ensures Parse(d, job.target, pos) == Parse(d, job.target, pos + EntrySize(job, w))
      [WordAddr(job.target, pos + 1) := FoundCopy(job, relo, w, pos)]
  {
    hide HeapOk, Parse, FixBlock, RawData;
    FixedHeader(job, relo, w, pos);
    if RawData(job, w) != [] { SkipHeader(job, w); }
    ParsePair(d, job.target, pos, FixBlock(job, relo, w, pos), RawData(job, w), FoundCopy(job, relo, w, pos));
  }

  lemma FixedHeader(job: Job, relo: map<int, int>, w: int, pos: nat)
    requires JobOk(job) && w in job.h.blocks && Copied(KindAt(job.h, job.cfg, w))
    ensures var f, b := FixBlock(job, relo, w, pos), job.h.blocks[w];
      && TagHd(f[0]) == b.tag != ABSTRACT_TAG && WosizeHd(f[0]) == |b.fields|
      && ColorHd(f[0]) == job.cfg.color
  {
    BlockAt(job.h, job.cfg, w);
    HeaderParts(job.h.blocks[w].tag, job.cfg.color, |job.h.blocks[w].fields|);
    hide HeapOk, RawFields, FixFields, Header, TagHd, WosizeHd, ColorHd;
  }

  lemma SkipHeader(job: Job, w: int)
    requires JobOk(job) && w in job.h.blocks && RawData(job, w) != []
    ensures var data := RawData(job, w);
      && |data| >= 2 && TagHd(data[0]) == ABSTRACT_TAG && WosizeHd(data[0]) == 0 && data[1] == |data| - 2
  {
    hide HeapOk, KindAt, Header, TagHd, WosizeHd;
    HeaderParts(ABSTRACT_TAG, 0, 0);
  }

  /** Reading the finished buffer finds the copied blocks and nothing else. */
  lemma {:induction false} ParseImage(job: Job, relo: map<int, int>, order: seq<int>, k: nat)
    requires JobOk(job) && AllIn(order, job.h) && AllCopied(job, order) && k <= |order|
    ensures AllIn(order[..k], job.h)
    ensures Parse(FixImage(job, relo, order), job.target, Size(job, order[..k])) == Expected(job, relo, order, k)
    decreases |order| - k
  {
    hide HeapOk, FixImage, Size, FixBlock, RawData, EntrySize;
    if k == |order| {
      assert order[..k] == order;
    } else {
      hide Parse;
      Member(job.h, order, k);
      FixEntry(job, relo, order, k);
      ParseEntry(job, relo, FixImage(job, relo, order), order[k], Size(job, order[..k]));
      ParseImage(job, relo, order, k + 1);
    }
  }

  // ----------------------------------------------------- isomorphism

  /** The later address of the copy of `w`. */
  ghost function Moved(job: Job, relo: map<int, int>, w: int): int
    requires w in relo
  {
    relo[w] + (job.target - job.dest)
  }

  lemma {:induction false} ReloAt(job: Job, order: seq<int>, j: nat)
    requires JobOk(job) && AllIn(order, job.h) && NoDuplicates(order) && j < |order|
    ensures AllIn(order[..j], job.h) && order[j] in Relo(job, order)
    ensures Relo(job, order)[order[j]] == WordAddr(job.dest, Size(job, order[..j]) + 1)
  {
    hide HeapOk, Size, KindAt;
    if j < |order| - 1 {
      ReloAt(job, order[..|order|-1], j);
      assert order[..|order|-1][..j] == order[..j];
    }
  }

  /** Entries do not overlap. */
  lemma SizeStrict(job: Job, order: seq<int>, i: nat, j: nat)
    requires JobOk(job) && AllIn(order, job.h) && i < j <= |order| && order[i] in job.h.blocks
    ensures AllIn(order[..i], job.h) && AllIn(order[..j], job.h)
    ensures Size(job, order[..i]) + EntrySize(job, order[i]) <= Size(job, order[..j])
  {
    hide HeapOk, FixImage, FixBlock, RawData, EntrySize, Size, KindAt;
    FixEntry(job, map[], order[..j], i);
    assert order[..j][..i] == order[..i];
  }

  lemma {:induction false} ExpectedDomain(job: Job, relo: map<int, int>, order: seq<int>, k: nat, a: int)
    returns (j: nat)
    requires JobOk(job) && AllIn(order, job.h) && k <= |order| && a in Expected(job, relo, order, k)
    ensures k <= j < |order| && AllIn(order[..j], job.h) && a == WordAddr(job.target, Size(job, order[..j]) + 1)
    decreases |order| - k
  {
    hide HeapOk, Size, FoundCopy;
    if k < |order| {
      if a == WordAddr(job.target, Size(job, order[..k]) + 1) { j := k; }
      else { j := ExpectedDomain(job, relo, order, k + 1, a); }
    }
  }

  lemma {:induction false} ExpectedAt(job: Job, relo: map<int, int>, order: seq<int>, k: nat, j: nat)
    requires JobOk(job) && AllIn(order, job.h) && k <= j < |order| && order[j] in job.h.blocks
    ensures AllIn(order[..j], job.h)
    ensures var p := Size(job, order[..j]);
      && WordAddr(job.target, p + 1) in Expected(job, relo, order, k)
      && Expected(job, relo, order, k)[WordAddr(job.target, p + 1)] == FoundCopy(job, relo, order[j], p)
    decreases |order| - k
  {
    hide HeapOk, Size, FoundCopy;
    if k < j {
      Member(job.h, order, k);
      ExpectedAt(job, relo, order, k + 1, j);
      SizeStrict(job, order, k, j);
    }
  }

  /** `c` is block `w` with its pointers to copied blocks redirected.  Operation
      tables and the bookkeeping of bigarrays are the only other differences; for
      the data pointer of a bigarray see `BigarrayData` and `BigarrayExternal`. */
  ghost predicate CopyOf(job: Job, relo: map<int, int>, w: int, c: Found)
    requires JobOk(job) && w in job.h.blocks
  {
    var b, k := job.h.blocks[w], KindAt(job.h, job.cfg, w);
    && c.tag == b.tag && c.color == job.cfg.color && |c.fields| == |b.fields|
    && forall i :: 0 <= i < |b.fields| ==> CopyOfField(job, relo, k, i, b.fields[i], c.fields[i])
  }

  ghost predicate CopyOfField(job: Job, relo: map<int, int>, k: Kind, i: nat, f: int, c: int)
  {
    match k
    case Scanned => c == if IsBlock(f) && f in relo then Moved(job, relo, f) else f
    case Custom(ops) => c == if i == 0 && ops != 0 then ops else f
    case Bigarray(ops) =>
      i == 1 || c == (if i == 0 && ops != 0 then ops
                      else if i == 3 then SetManaged(f, job.cfg)
                      else if i == 4 then 0 else f)
    case _ => c == f
  }

  lemma FoundIsCopy(job: Job, relo: map<int, int>, w: int, pos: nat)
    requires JobOk(job) && w in job.h.blocks && Copied(KindAt(job.h, job.cfg, w))
    ensures CopyOf(job, relo, w, FoundCopy(job, relo, w, pos))
  {
    hide HeapOk, BlockKind;
    var b, k := job.h.blocks[w], KindAt(job.h, job.cfg, w);
    var f := FixBlock(job, relo, w, pos);
    if k.Scanned? {
      assert f[1..] == FixFields(job, relo, b.fields);
    } else {
      assert f[1..] == RawFields(job.cfg, b, k, DataAddr(job, w, pos));
    }
  }

  /** The finished buffer as it will be read at its later address. */
  ghost function Image(job: Job, order: seq<int>): map<int, Found>
    requires JobOk(job) && AllIn(order, job.h)
  {
    Parse(FixImage(job, Relo(job, order), order), job.target, 0)
  }

  lemma ImageIsExpected(job: Job, order: seq<int>)
    requires JobOk(job) && AllIn(order, job.h) && AllCopied(job, order)
    ensures Image(job, order) == Expected(job, Relo(job, order), order, 0)
  {
    hide HeapOk, FixImage, Parse, Relo;
    ParseImage(job, Relo(job, order), order, 0);
    SizeOfNone(job, order[..0]);
  }

  lemma ImageAt(job: Job, order: seq<int>, w: int)
    requires JobOk(job) && AllIn(order, job.h) && NoDuplicates(order) && AllCopied(job, order)
    requires w in order && w in job.h.blocks
    ensures var relo := Relo(job, order);
      && w in relo && Moved(job, relo, w) in Image(job, order)
      && CopyOf(job, relo, w, Image(job, order)[Moved(job, relo, w)])
  {
    hide HeapOk, Image, Relo, CopyOf, FoundCopy, Expected, Size;
    var j :| 0 <= j < |order| && order[j] == w;
    ImageIsExpected(job, order);
    ReloAt(job, order, j);
    ExpectedAt(job, Relo(job, order), order, 0, j);
    FoundIsCopy(job, Relo(job, order), w, Size(job, order[..j]));
  }

  lemma ImageFrom(job: Job, order: seq<int>, a: int) returns (w: int)
    requires JobOk(job) && AllIn(order, job.h) && NoDuplicates(order) && AllCopied(job, order)
    requires a in Image(job, order)
    ensures w in Relo(job, order) && Moved(job, Relo(job, order), w) == a
  {
    hide HeapOk, Image, Relo, Expected, Size;
    ImageIsExpected(job, order);
    var j := ExpectedDomain(job, Relo(job, order), order, 0, a);
    ReloAt(job, order, j);
    w := order[j];
  }

  /** Main result on the buffer.  Read at its later address it holds a copy of
      every block of `order`, at distinct addresses, and nothing else. */
  lemma Isomorphic(job: Job, order: seq<int>)
    requires JobOk(job) && AllIn(order, job.h) && NoDuplicates(order) && AllCopied(job, order)
    ensures var relo, copy := Relo(job, order), Image(job, order);
      && relo.Keys == (set x | x in order)
      && (forall w :: w in relo ==>
            w in job.h.blocks && Moved(job, relo, w) in copy && CopyOf(job, relo, w, copy[Moved(job, relo, w)]))
      && (forall a :: a in copy ==> exists w :: w in relo && Moved(job, relo, w) == a)
      && (forall v, w :: v in relo && w in relo && Moved(job, relo, v) == Moved(job, relo, w) ==> v == w)
  {
    hide HeapOk, Image, Relo, CopyOf;
    var relo, copy := Relo(job, order), Image(job, order);
    ReloKeys(job, order);
    forall w | w in relo
      ensures w in job.h.blocks && Moved(job, relo, w) in copy && CopyOf(job, relo, w, copy[Moved(job, relo, w)])
    {
      ImageAt(job, order, w);
    }
    forall a | a in copy ensures exists w :: w in relo && Moved(job, relo, w) == a {
      var w := ImageFrom(job, order, a);
    }
    forall v, w | v in relo && w in relo && Moved(job, relo, v) == Moved(job, relo, w) ensures v == w {
      var i :| 0 <= i < |order| && order[i] == v;
      var j :| 0 <= j < |order| && order[j] == w;
      MovedDistinct(job, order, i, j);
    }
  }

  /** Both passes together: the buffer is the part of the heap that can be reached
      from the root and is not left in place, and it starts with the root. */
  lemma CopiesGraph(job: Job, root: int)
    requires JobOk(job) && root in job.h.blocks
    ensures var plan := Walk(job.h, job.cfg, [root], []);
      plan.Walked? ==>
        && AllIn(plan.order, job.h)
        && var relo, copy := Relo(job, plan.order), Image(job, plan.order);
        && (forall w :: w in relo <==>
              w in job.h.blocks && Reaches(job.h, job.cfg, root, w) && Copied(KindAt(job.h, job.cfg, w)))
        && (forall w :: w in relo ==>
              Moved(job, relo, w) in copy && CopyOf(job, relo, w, copy[Moved(job, relo, w)]))
        && (forall a :: a in copy ==> exists w :: w in relo && Moved(job, relo, w) == a)
        && (forall v, w :: v in relo && w in relo && Moved(job, relo, v) == Moved(job, relo, w) ==> v == w)
        && (root in relo ==> Moved(job, relo, root) == WordAddr(job.target, 1))
        && (forall f :: InCc(job.cfg, f) ==> (f in relo <==> f == root && plan.order != []))
  {
    hide HeapOk, KindAt, Image, Relo, CopyOf, Walk, Reaches;
    var plan := Walk(job.h, job.cfg, [root], []);
    CopiesReachable(job.h, job.cfg, root);
    if plan.Walked? {
      Isomorphic(job, plan.order);
      if plan.order != [] {
        ReloAt(job, plan.order, 0);
        SizeOfNone(job, plan.order[..0]);
      }
      forall f | InCc(job.cfg, f) ensures f in Relo(job, plan.order) <==> f == root && plan.order != [] {
        CodeNotReached(job.h, job.cfg, root, f);
      }
    }
  }

  /** No pointer that is followed leads into a code range. */
  lemma CodeNotReached(h: Heap, cfg: Config, root: int, f: int)
    requires HeapOk(h, cfg) && root in h.blocks && InCc(cfg, f)
    ensures Reaches(h, cfg, root, f) ==> f == root
  {
    hide HeapOk, KindAt, InCc, Pointers;
    if p :| IsPath(h, cfg, root, f, p) {
      if |p| > 1 {
        var w := p[|p|-2];
        assert w in h.blocks && p[|p|-2+1] in Children(h, cfg, w);
        PointersAre(cfg, h.blocks[w].fields, f);
        assert false;
      }
    }
  }

  /** A pointer into a code range is left unchanged in the copy, unless it is the root:
      pass two looks it up without looking at the ranges. */
  lemma CodeField(job: Job, root: int, w: int, i: nat)
    requires JobOk(job) && root in job.h.blocks
    requires var plan := Walk(job.h, job.cfg, [root], []); plan.Walked? && w in plan.order
    requires w in job.h.blocks && KindAt(job.h, job.cfg, w).Scanned?
    requires i < |job.h.blocks[w].fields| && IsBlock(job.h.blocks[w].fields[i])
    requires InCc(job.cfg, job.h.blocks[w].fields[i])
    ensures var plan := Walk(job.h, job.cfg, [root], []);
      && AllIn(plan.order, job.h)
      && var relo, copy, f := Relo(job, plan.order), Image(job, plan.order), job.h.blocks[w].fields[i];
      && w in relo && Moved(job, relo, w) in copy && i < |copy[Moved(job, relo, w)].fields|
      && copy[Moved(job, relo, w)].fields[i] == if f == root then WordAddr(job.target, 1) else f
  {
    hide HeapOk, KindAt, Image, Relo, Walk, Reaches, InCc;
    CopiesReachable(job.h, job.cfg, root);
    CopiesGraph(job, root);
    var plan := Walk(job.h, job.cfg, [root], []);
    var relo, copy := Relo(job, plan.order), Image(job, plan.order);
    assert CopyOf(job, relo, w, copy[Moved(job, relo, w)]);
  }

  /** A root inside a code range that points to itself: its copy points to the copy. */
  lemma CodeRootRedirected(malloc: int -> int)
    ensures
      var h := Heap(map[1000 := Block(0, [1000])], map[], map[], _ => 1);
      var cfg := Config(0, false, 0, true, [(0, 2000)], Ops(0, 0, 0, 0), 0);
      var job := Job(h, cfg, 8000, 8000, malloc);
      && JobOk(job) && InCc(cfg, 1000)
      && Walk(h, cfg, [1000], []) == Walked([1000])
      && FixImage(job, Relo(job, [1000]), [1000])[1] == 8008
  {
    var h := Heap(map[1000 := Block(0, [1000])], map[], map[], _ => 1);
    var cfg := Config(0, false, 0, true, [(0, 2000)], Ops(0, 0, 0, 0), 0);
    var job := Job(h, cfg, 8000, 8000, malloc);
    assert cfg.cc[0] == (0, 2000) && InCc(cfg, 1000);
    assert HeapOk(h, cfg);
    assert KindAt(h, cfg, 1000).Scanned?;
    assert [1000][..0] == [];
    assert Pointers(cfg, [1000]) == [];
    assert Children(h, cfg, 1000) == [];
    assert Walk(h, cfg, [], [1000]) == Walked([1000]);
    assert Walk(h, cfg, [1000], []) == Walked([1000]);
    assert Size(job, [1000][..0]) == 0;
    assert Relo(job, [1000]) == map[1000 := 8008];
    assert FixFields(job, Relo(job, [1000]), [1000]) == [8008];
    assert FixBlock(job, Relo(job, [1000]), 1000, 0)[1] == 8008;
    assert FixImage(job, Relo(job, [1000]), [1000][..0]) == [];
  }

  lemma SizeOfNone(job: Job, none: seq<int>)
    requires JobOk(job) && none == []
    ensures Size(job, none) == 0
  {
  }

  lemma MovedDistinct(job: Job, order: seq<int>, i: nat, j: nat)
    requires JobOk(job) && AllIn(order, job.h) && NoDuplicates(order) && i < |order| && j < |order|
    ensures order[i] in Relo(job, order) && order[j] in Relo(job, order)
    ensures Relo(job, order)[order[i]] == Relo(job, order)[order[j]] ==> i == j
  {
    hide HeapOk, Relo, Size;
    ReloAt(job, order, i);
    ReloAt(job, order, j);
    Member(job.h, order, i);
    Member(job.h, order, j);
    if i < j { SizeStrict(job, order, i, j); }
    if j < i { SizeStrict(job, order, j, i); }
  }

  // ------------------------------------------------- bigarrays in the copy

  /** In the buffer the data of a bigarray follows its block.  The copy points to it
      if and only if the buffer stays where it was filled: the C code stores an
      address inside `dest` and pass two does not shift it to `target`. */
  lemma BigarrayData(job: Job, order: seq<int>, j: nat)
    requires JobOk(job) && AllIn(order, job.h) && NoDuplicates(order) && j < |order| && order[j] in job.h.blocks
    requires KindAt(job.h, job.cfg, order[j]).Bigarray? && job.cfg.bigarrays == 2
    ensures AllIn(order[..j], job.h)
    ensures var image := FixImage(job, Relo(job, order), order);
      var w, p := order[j], Size(job, order[..j]);
      var at := p + 1 + |job.h.blocks[w].fields| + 2;
      var data := DataOf(job, w);
      && at + |data| <= |image| && image[at..at + |data|] == data
      && p + 2 < |image|
      && (image[p + 2] == WordAddr(job.target, at) <==> job.target == job.dest)
  {
    hide HeapOk, FixImage, Relo, Size;
    var relo := Relo(job, order);
    var image := FixImage(job, relo, order);
    var w, p := order[j], Size(job, order[..j]);
    FixEntry(job, relo, order, j);
    var fixed, skip, data := FixBlock(job, relo, w, p), RawData(job, w), DataOf(job, w);
    assert fixed[2] == DataAddr(job, w, p);
    assert skip == [Header(ABSTRACT_TAG, 0, 0), |data|] + data;
    assert EntrySize(job, w) == |fixed| + |skip|;
    hide FixBlock, RawData, KindAt, EntrySize;
    SliceAt(image, p, |fixed| + |skip|, 2);
    SliceData(image, p, fixed, [Header(ABSTRACT_TAG, 0, 0), |data|], data);
  }

  /** A bigarray of eight bytes in a buffer that is filled at 8000 and used at 16000: the
      data starts at word 9, and the pointer still leads into the old place. */
  lemma BigarrayNotMoved(malloc: int -> int)
    ensures
      var b := Block(CUSTOM_TAG, [40, 5000, 1, 0, 0, 8]);
      var h := Heap(map[1000 := b], map[5000 := [77]], map[40 := "_bigarray"], _ => 1);
      var job := Job(h, Config(2, false, 0, false, [], Ops(0, 0, 0, 0), 0), 8000, 16000, malloc);
      && JobOk(job) && KindAt(h, job.cfg, 1000).Bigarray?
      && var image := FixImage(job, Relo(job, [1000]), [1000]);
      && |image| == 10 && image[9] == 77 && image[2] == 8072 != WordAddr(job.target, 9)
  {
    var b := Block(CUSTOM_TAG, [40, 5000, 1, 0, 0, 8]);
    var h := Heap(map[1000 := b], map[5000 := [77]], map[40 := "_bigarray"], _ => 1);
    var job := Job(h, Config(2, false, 0, false, [], Ops(0, 0, 0, 0), 0), 8000, 16000, malloc);
    assert b.fields[5..6] == [8] && [8][..0] == [];
    assert Product([8]) == 8;
    assert DataWords(h, b) == 1;
    assert BigarrayShape(h, b);
    assert HeapOk(h, job.cfg);
    var order := [1000];
    assert order[..0] == [];
    assert Size(job, order[..0]) == 0 && DataOf(job, 1000) == [77];
    assert EntrySize(job, 1000) == 10 && Size(job, order) == 10;
    assert FixBlock(job, Relo(job, order), 1000, 0)[2] == 8072;
    hide HeapOk, FixImage, FixBlock, RawData, Relo, KindAt, DataOf, EntrySize, Size, BigarrayShape;
    BigarrayData(job, order, 0);
    var image := FixImage(job, Relo(job, order), order);
    assert image[9..10] == [77];
    assert image[9] == image[9..10][0];
    FixEntry(job, Relo(job, order), order, 0);
    SliceAt(image, 0, 10, 2);
  }

  lemma SliceData(d: seq<int>, pos: nat, a: seq<int>, b: seq<int>, c: seq<int>)
    requires pos + |a| + |b| + |c| <= |d|
    requires d[pos..pos + |a| + |b| + |c|] == a + (b + c)
    ensures var at := pos + |a| + |b|;
      d[at..at + |c|] == c
  {
    var at := pos + |a| + |b|;
    assert d[at..at + |c|] == d[pos..pos + |a| + |b| + |c|][|a| + |b|..];
  }

  /** Outside of the buffer each copied bigarray gets its own memory, with the data. */
  lemma {:induction false} BigarrayExternal(job: Job, order: seq<int>, j: nat)
    requires JobOk(job) && AllIn(order, job.h) && NoDuplicates(order) && j < |order| && order[j] in job.h.blocks
    requires KindAt(job.h, job.cfg, order[j]).Bigarray? && job.cfg.bigarrays != 2
    requires forall v, w :: v in order && w in order && job.malloc(v) == job.malloc(w) ==> v == w
    ensures job.malloc(order[j]) in External(job, order)
    ensures External(job, order)[job.malloc(order[j])] == DataOf(job, order[j])
  {
    hide HeapOk, KindAt;
    var front := order[..|order|-1];
    if j < |order| - 1 {
      assert front[j] == order[j];
      BigarrayExternal(job, front, j);
      var last := order[|order|-1];
      assert last in order && order[j] in order && last != order[j];
    }
  }

  // ---------------------------------------------- the copied block, spelled out

  /** The copy `c` of a custom block: the table of operations is the one of the target
      process for this identifier, where there is one.  Integers are not changed
      otherwise.  A bigarray loses its proxy, gets new data, and a note of who owns it. */
  ghost predicate CustomCopied(job: Job, w: int, id: string, was: seq<int>, c: seq<int>)
    requires |was| == |c| > 0
  {
    var ops := job.cfg.ops;
    && ('\0' !in id ==> id in {"_i", "_j", "_n", "_b", "_bigarray"})
    && (id == "_i" ==> c == was[0 := if ops.int32 != 0 then ops.int32 else was[0]])
    && (id == "_j" ==> c == was[0 := if ops.int64 != 0 then ops.int64 else was[0]])
    && (id == "_n" ==> c == was[0 := if ops.nativeint != 0 then ops.nativeint else was[0]])
    && (id == "_b" || id == "_bigarray" ==>
          && |c| >= 5
          && c[0] == (if ops.bigarray != 0 then ops.bigarray else was[0])
          && (job.cfg.bigarrays != 2 ==> c[1] == job.malloc(w))
          && c[2] == was[2] && c[4] == 0 && c[5..] == was[5..]
          && c[3] % 512 == was[3] % 512 && c[3] / 2048 == was[3] / 2048
          && c[3] / 512 % 4 == if job.cfg.bigarrays == 2 then 0 else 1)
  }

  /** The copy `c` of any block, from its tag alone. */
  ghost predicate BlockCopied(job: Job, relo: map<int, int>, w: int, c: Found)
    requires w in job.h.blocks
  {
    var b := job.h.blocks[w];
    && c.tag == b.tag && c.color == job.cfg.color && |c.fields| == |b.fields|
    && b.tag !in {246, 247, 248, 250, 251}
    && (b.tag < 251 ==>
          forall i :: 0 <= i < |b.fields| ==>
            c.fields[i] == if b.fields[i] % 2 == 0 && b.fields[i] in relo
                           then relo[b.fields[i]] - job.dest + job.target else b.fields[i])
    && (251 < b.tag < 255 ==> c.fields == b.fields)
    && (b.tag == 255 ==>
          b.fields != [] && b.fields[0] in job.h.ids &&
          CustomCopied(job, w, job.h.ids[b.fields[0]], b.fields, c.fields))
  }

  lemma CustomFound(job: Job, w: int, pos: nat)
    requires JobOk(job) && w in job.h.blocks && job.h.blocks[w].tag == 255 && Copied(KindAt(job.h, job.cfg, w))
    ensures BlockShape(job.h, job.h.blocks[w])
    ensures CustomCopied(job, w, job.h.ids[job.h.blocks[w].fields[0]], job.h.blocks[w].fields,
                         RawBlock(job, w, pos)[1..])
  {
    BlockAt(job.h, job.cfg, w);
    hide HeapOk;
    var b := job.h.blocks[w];
    var id, k := job.h.ids[b.fields[0]], KindAt(job.h, job.cfg, w);
    if '\0' !in id { CustomIds(id, job.cfg); }
    assert RawBlock(job, w, pos)[1..] == RawFields(job.cfg, b, k, DataAddr(job, w, pos));
    if k.Bigarray? {
      ManagedBits(b.fields[3], job.cfg);
    }
  }

  lemma PlainFound(job: Job, relo: map<int, int>, w: int, c: Found)
    requires JobOk(job) && w in job.h.blocks && job.h.blocks[w].tag != 255 && Copied(KindAt(job.h, job.cfg, w))
    requires CopyOf(job, relo, w, c)
    ensures BlockCopied(job, relo, w, c)
  {
    BlockAt(job.h, job.cfg, w);
    hide HeapOk, BlockShape;
    if !KindAt(job.h, job.cfg, w).Scanned? {
      assert c.fields == job.h.blocks[w].fields;
    }
  }

  lemma FoundDescribed(job: Job, relo: map<int, int>, w: int, pos: nat)
    requires JobOk(job) && w in job.h.blocks && Copied(KindAt(job.h, job.cfg, w))
    ensures BlockCopied(job, relo, w, FoundCopy(job, relo, w, pos))
  {
    FoundIsCopy(job, relo, w, pos);
    hide HeapOk, CopyOfField, RawBlock, CustomCopied, RawFields, FixFields;
    if job.h.blocks[w].tag == 255 {
      CustomFound(job, w, pos);
      assert FoundCopy(job, relo, w, pos).fields == RawBlock(job, w, pos)[1..];
      hide KindAt;
    } else {
      PlainFound(job, relo, w, FoundCopy(job, relo, w, pos));
    }
  }

  /** Main result on single blocks, for every block of a copied value. */
  lemma ImageDescribed(job: Job, order: seq<int>, w: int)
    requires JobOk(job) && AllIn(order, job.h) && NoDuplicates(order) && AllCopied(job, order)
    requires w in order && w in job.h.blocks
    ensures var relo := Relo(job, order);
      && w in relo && Moved(job, relo, w) in Image(job, order)
      && BlockCopied(job, relo, w, Image(job, order)[Moved(job, relo, w)])
  {
    hide HeapOk, Image, Relo, CopyOf, FoundCopy, Expected, Size, BlockCopied;
    var j :| 0 <= j < |order| && order[j] == w;
    ImageIsExpected(job, order);
    ReloAt(job, order, j);
    ExpectedAt(job, Relo(job, order), order, 0, j);
    FoundDescribed(job, Relo(job, order), w, Size(job, order[..j]));
  }

  /** `netsys_copy_value` cannot copy this block. */
  ghost predicate Refused(req: Request, w: int)
    requires RequestOk(req) && w in req.h.blocks
  {
    var b := req.h.blocks[w];
    || b.tag in {246, 247, 248, 250, 251}
    || (b.tag == 255 && b.fields != [] && b.fields[0] in req.h.ids &&
        var id := req.h.ids[b.fields[0]];
        !(id in {"_i", "_j", "_n"} && req.customs) && !(id == "_bigarray" && req.bigarrays) &&
        !(id == "_b" && req.bigarrays && req.customs))
  }

  /** An atom: it has no fields, and stays where it is. */
  predicate IsAtom(b: Block) { b.tag < 251 && b.fields == [] }

  /** The blocks of the original that are copied. */
  ghost predicate Belongs(req: Request, w: int)
    requires RequestOk(req)
  {
    w in req.h.blocks && Reaches(req.h, CopyConfig(req), req.orig, w) && !IsAtom(req.h.blocks[w])
  }

  /** The identifiers of custom blocks are C strings. */
  ghost predicate IdsOk(h: Heap) { forall a :: a in h.ids ==> '\0' !in h.ids[a] }

  lemma KindsOfRequest(req: Request, w: int)
    requires RequestOk(req) && w in req.h.blocks && IdsOk(req.h)
    ensures var k := KindAt(req.h, CopyConfig(req), w);
      && (k.Unsupported? <==> Refused(req, w))
      && (Copied(k) <==> !Refused(req, w) && !IsAtom(req.h.blocks[w]))
  {
    var b := req.h.blocks[w];
    BlockAt(req.h, CopyConfig(req), w);
    hide HeapOk;
    if b.tag == 255 {
      var a := b.fields[0];
      assert a in req.h.ids && '\0' !in req.h.ids[a];
    }
    Supported(req.h, CopyConfig(req), b);
  }

  /** Main result on `netsys_copy_value`, in terms of the heap and the arguments of the
      call.  Immediate values and atoms are their own copies.  Otherwise the call fails if
      and only if a block that it cannot copy is reached.  If not, `relo` says where the
      copy of each block is.  There is one copy for each block that belongs to the value
      and nothing else, and each is as it should be. */
  lemma CopyValueMeans(req: Request, r: CopyResult) returns (relo: map<int, int>, copy: map<int, Found>)
    requires RequestOk(req) && IdsOk(req.h) && CopiedRight(req, r)
    ensures req.orig % 2 == 1 || req.h.blocks[req.orig].fields == [] ==>
      r.code == 0 && r.value == req.orig && r.image == [] && r.ext == map[]
    ensures req.orig % 2 == 0 && req.h.blocks[req.orig].fields != [] ==>
      && (r.code == 0 || r.code == -2)
      && (r.code == -2 <==>
            exists w :: w in req.h.blocks && Reaches(req.h, CopyConfig(req), req.orig, w) && Refused(req, w))
      && (r.code == 0 ==> CopyRight(req, r, relo, copy))
  {
    relo, copy := map[], map[];
    if IsBlock(req.orig) && req.h.blocks[req.orig].fields != [] {
      relo, copy := CopyBlockMeans(req, r);
    }
  }

  ghost predicate CopyRight(req: Request, r: CopyResult, relo: map<int, int>, copy: map<int, Found>)
    requires RequestOk(req)
  {
    var job := CopyJob(req);
    && job.cfg.ops == req.ops && job.cfg.color == req.color && job.cfg.bigarrays != 2
    && job.dest == job.target == req.dest && job.malloc == req.malloc && job.h == req.h
    && copy == Parse(r.image, req.dest, 0)
    && (forall w :: w in relo <==> Belongs(req, w))
    && (forall w :: w in relo ==> relo[w] in copy && BlockCopied(job, relo, w, copy[relo[w]]))
    && (forall a :: a in copy ==> exists w :: w in relo && relo[w] == a)
    && (forall v, w :: v in relo && w in relo && relo[v] == relo[w] ==> v == w)
    && req.orig in relo && r.value == relo[req.orig]
  }

  lemma CopyBlockMeans(req: Request, r: CopyResult) returns (relo: map<int, int>, copy: map<int, Found>)
    requires RequestOk(req) && IdsOk(req.h) && CopiedRight(req, r)
    requires IsBlock(req.orig) && req.h.blocks[req.orig].fields != []
    ensures r.code == 0 || r.code == -2
    ensures r.code == -2 <==>
      exists w :: w in req.h.blocks && Reaches(req.h, CopyConfig(req), req.orig, w) && Refused(req, w)
    ensures r.code == 0 ==> CopyRight(req, r, relo, copy)
  {
    PlanMeans(req);
    hide HeapOk, KindAt, Walk, Relo, FixImage, External, Parse, BlockCopied, Refused, Reaches, IdsOk, Belongs;
    var plan := Plan(req.h, CopyConfig(req), req.orig);
    relo, copy := map[], map[];
    if plan.Walked? {
      relo, copy := CopyOfPlan(req, plan.order);
    }
  }

  lemma PlanMeans(req: Request)
    requires RequestOk(req) && IdsOk(req.h) && IsBlock(req.orig) && req.h.blocks[req.orig].fields != []
    ensures var plan := Plan(req.h, CopyConfig(req), req.orig);
      && (plan.Rejected? <==>
            exists w :: w in req.h.blocks && Reaches(req.h, CopyConfig(req), req.orig, w) && Refused(req, w))
      && (plan.Walked? ==> (forall w :: w in plan.order <==> Belongs(req, w)) && Belongs(req, req.orig))
  {
    assert !IsAtom(req.h.blocks[req.orig]);
    hide HeapOk, KindAt, Walk, Refused, Reaches, IsAtom, IdsOk, Copied;
    var cfg := CopyConfig(req);
    CopiesReachable(req.h, cfg, req.orig);
    ReachesSelf(req.h, cfg, req.orig);
    forall w | w in req.h.blocks
      ensures KindAt(req.h, cfg, w).Unsupported? <==> Refused(req, w)
      ensures Copied(KindAt(req.h, cfg, w)) <==> !Refused(req, w) && !IsAtom(req.h.blocks[w])
    {
      KindsOfRequest(req, w);
    }
  }

  /** The data of a copied bigarray is in the memory that was allocated for it. */
  lemma CopyValueData(req: Request, r: CopyResult, w: int)
    requires RequestOk(req) && CopiedRight(req, r) && r.code == 0
    requires IsBlock(req.orig) && req.h.blocks[req.orig].fields != [] && Belongs(req, w)
    requires forall u, v :: req.malloc(u) == req.malloc(v) ==> u == v
    requires var b := req.h.blocks[w];
      b.tag == 255 && b.fields != [] && b.fields[0] in req.h.ids && req.h.ids[b.fields[0]] in {"_b", "_bigarray"}
    ensures var b := req.h.blocks[w];
      && BigarrayShape(req.h, b) && req.malloc(w) in r.ext
      && r.ext[req.malloc(w)] == req.h.data[b.fields[1]][..DataWords(req.h, b)]
  {
    var job, cfg, b := CopyJob(req), CopyConfig(req), req.h.blocks[w];
    BlockAt(req.h, cfg, w);
    CopiesReachable(req.h, cfg, req.orig);
    assert !KindAt(req.h, cfg, w).Unsupported?;
    assert KindAt(req.h, cfg, w).Bigarray?;
    var order := Plan(req.h, cfg, req.orig).order;
    assert w in order && DataOf(job, w) == req.h.data[b.fields[1]][..DataWords(req.h, b)];
    hide *;
    var j :| 0 <= j < |order| && order[j] == w;
    BigarrayExternal(job, order, j);
  }

  lemma CopyOfPlan(req: Request, order: seq<int>) returns (relo: map<int, int>, copy: map<int, Found>)
    requires RequestOk(req) && IsBlock(req.orig) && Plan(req.h, CopyConfig(req), req.orig) == Walked(order)
    ensures AllIn(order, req.h)
    ensures copy == Parse(FixImage(CopyJob(req), Relo(CopyJob(req), order), order), req.dest, 0)
    ensures forall w :: w in relo <==> w in order
    ensures forall w :: w in relo ==>
      w in req.h.blocks && relo[w] in copy && BlockCopied(CopyJob(req), relo, w, copy[relo[w]])
    ensures forall a :: a in copy ==> exists w :: w in relo && relo[w] == a
    ensures forall v, w :: v in relo && w in relo && relo[v] == relo[w] ==> v == w
    ensures req.orig in relo ==> relo[req.orig] == WordAddr(req.dest, 1)
  {
    hide HeapOk, KindAt, Walk, Relo, FixImage, External, Parse, BlockCopied, Reaches, CopyOf;
    var job := CopyJob(req);
    CopiesReachable(req.h, CopyConfig(req), req.orig);
    CopiesGraph(job, req.orig);
    Isomorphic(job, order);
    relo, copy := Relo(job, order), Image(job, order);
    forall w | w in relo ensures relo[w] in copy && BlockCopied(job, relo, w, copy[relo[w]]) {
      ImageDescribed(job, order, w);
    }
    forall v, w | v in relo && w in relo && relo[v] == relo[w] ensures v == w {
      assert Moved(job, relo, v) == Moved(job, relo, w);
    }
    forall a | a in copy ensures exists w :: w in relo && relo[w] == a {
      var w :| w in relo && Moved(job, relo, w) == a;
    }
  }

  // ------------------------------------------------------ observations

  datatype Seen = Word(v: int) | Nothing

  /** The word that is found by following field numbers `path` from value `v`. */
  ghost function FollowHeap(h: Heap, order: seq<int>, v: int, path: seq<nat>): Seen
    requires AllIn(order, h)
    decreases |path|
  {
    if path == [] then Word(v)
    else if v !in order || h.blocks[v].tag >= NO_SCAN_TAG || path[0] >= |h.blocks[v].fields| then Nothing
    else FollowHeap(h, order, h.blocks[v].fields[path[0]], path[1..])
  }

  ghost function FollowCopy(copy: map<int, Found>, v: int, path: seq<nat>): Seen
    decreases |path|
  {
    if path == [] then Word(v)
    else if v !in copy || copy[v].tag >= NO_SCAN_TAG || path[0] >= |copy[v].fields| then Nothing
    else FollowCopy(copy, copy[v].fields[path[0]], path[1..])
  }

  /** No program that follows pointers can tell the copy from the original, as long
      as the words that were not redirected do not happen to be addresses of copies. */
  lemma {:induction false} SameObservations(job: Job, order: seq<int>, v: int, path: seq<nat>)
    requires JobOk(job) && AllIn(order, job.h) && NoDuplicates(order) && AllCopied(job, order)
    requires var copy := Image(job, order);
      && (v !in order ==> v !in copy)
      && forall w, i :: w in order && job.h.blocks[w].tag < NO_SCAN_TAG && 0 <= i < |job.h.blocks[w].fields| ==>
           job.h.blocks[w].fields[i] in order || job.h.blocks[w].fields[i] !in copy
    ensures var relo, copy := Relo(job, order), Image(job, order);
      match FollowHeap(job.h, order, v, path)
      case Word(x) => FollowCopy(copy, FixWord(job, relo, v), path) == Word(FixWord(job, relo, x))
      case Nothing => FollowCopy(copy, FixWord(job, relo, v), path) == Nothing
    decreases |path|
  {
    hide HeapOk, Image, Relo;
    Isomorphic(job, order);
    if path != [] && v in order {
      BlockAt(job.h, job.cfg, v);
      if job.h.blocks[v].tag < NO_SCAN_TAG && path[0] < |job.h.blocks[v].fields| {
        var f := job.h.blocks[v].fields[path[0]];
        SameObservations(job, order, f, path[1..]);
        if f in order { BlockAt(job.h, job.cfg, f); }
      }
    }
  }

  /** The value that stands for `v` in the copy. */
  ghost function FixWord(job: Job, relo: map<int, int>, v: int): int
  {
    if v in relo then Moved(job, relo, v) else v
  }
}
