/** OCaml values as `netsys_init_value_1` (src/netsys/netsys_c_mem.c) sees them:
    words, headers, block tags, custom blocks and bigarrays, and what a call
    lays down in the destination buffer.

    A word is an integer.  An odd word is an immediate value, an even one the
    address of a block (`Is_block`).  Addresses count bytes.
 */
module Values {

  const WORD := 8                    // sizeof(void *)

  const LAZY_TAG := 246
  const CLOSURE_TAG := 247
  const OBJECT_TAG := 248
  const FORWARD_TAG := 250
  const NO_SCAN_TAG := 251
  const ABSTRACT_TAG := 251
  const CUSTOM_TAG := 255

  /** A block without its header: `fields` are the `Wosize` words after it. */
  datatype Block = Block(tag: nat, fields: seq<int>)

  /** `data` is the memory bigarrays point to, `ids` the identifier of each table
      of custom operations, `elemSize` is `caml_ba_element_size`. */
  datatype Heap = Heap(blocks: map<int, Block>, data: map<int, seq<int>>,
                       ids: map<int, string>, elemSize: int -> nat)

  datatype Ops = Ops(bigarray: int, int32: int, int64: int, nativeint: int)

  /** The flag arguments: `bigarrays` and `atoms` are 0, 1 or 2 as explained at
      the head of `netsys_init_value_1`, `cc` is the list of address ranges. */
  datatype Config = Config(bigarrays: nat, customs: bool, atoms: nat,
                           enableCc: bool, cc: seq<(int, int)>, ops: Ops, color: nat)

  predicate IsBlock(v: int) { v % 2 == 0 }

  function Header(tag: nat, color: nat, wosize: nat): int { wosize * 1024 + color * 256 + tag }
  function TagHd(hd: int): int { hd % 256 }
  function ColorHd(hd: int): int { hd / 256 % 4 }
  function WosizeHd(hd: int): int { hd / 1024 }

  lemma HeaderParts(tag: nat, color: nat, wosize: nat)
    requires tag < 256 && color < 4
    ensures var hd := Header(tag, color, wosize);
      TagHd(hd) == tag && ColorHd(hd) == color && WosizeHd(hd) == wosize
  {
    var hd := Header(tag, color, wosize);
    assert hd == 256 * (4 * wosize + color) + tag;
    assert hd / 256 == 4 * wosize + color;
  }

  ghost predicate InCc(cfg: Config, field: int)
  {
    cfg.enableCc && exists k :: 0 <= k < |cfg.cc| && cfg.cc[k].0 <= field < cfg.cc[k].1
  }

  // ---------------------------------------------------------------- kinds

  datatype Kind = Unsupported | SkippedAtom | Scanned | Opaque | Custom(ops: int) | Bigarray(ops: int)

  predicate Copied(k: Kind) { !k.Unsupported? && !k.SkippedAtom? }

  /** A C string ends at the first NUL; past its end the model reads NUL. */
  function At(id: string, i: nat): char { if i < |id| then id[i] else '\0' }

  /** The switch over the custom identifier.  As in C, case 'b' falls through to
      the numeric cases when the identifier is not exactly "_bigarray". */
  function CustomKind(id: string, cfg: Config): Kind
  {
    if At(id, 0) != '_' || At(id, 1) !in {'b', 'i', 'j', 'n'} then Unsupported
    else if At(id, 1) == 'b' && cfg.bigarrays == 0 then Unsupported
    else if id == "_bigarray" then Bigarray(cfg.ops.bigarray)
    else if !cfg.customs || At(id, 2) != '\0' then Unsupported
    else match At(id, 1)
      case 'b' => Bigarray(cfg.ops.bigarray)
      case 'i' => Custom(cfg.ops.int32)
      case 'j' => Custom(cfg.ops.int64)
      case _ => Custom(cfg.ops.nativeint)
  }

  /** The identifiers that the switch can take for a bigarray. */
  predicate BigarrayId(id: string)
  {
    id == "_bigarray" || (At(id, 0) == '_' && At(id, 1) == 'b' && At(id, 2) == '\0')
  }

  function BlockKind(h: Heap, cfg: Config, b: Block): (k: Kind)
    requires BlockShape(h, b)
    ensures KindFits(b, k) && (k.Bigarray? ==> BigarrayShape(h, b))
  {
    if b.tag < NO_SCAN_TAG then
      if b.tag in {OBJECT_TAG, CLOSURE_TAG, LAZY_TAG, FORWARD_TAG} then Unsupported
      else if |b.fields| == 0 && cfg.atoms == 0 then Unsupported
      else if |b.fields| == 0 && cfg.atoms == 1 then SkippedAtom
      else Scanned
    else if b.tag == ABSTRACT_TAG then Unsupported
    else if b.tag == CUSTOM_TAG then CustomKind(h.ids[b.fields[0]], cfg)
    else Opaque
  }

  /** The custom blocks that are copied: 32 and 64 bit and native integers, and bigarrays,
      if the flags allow them. */
  predicate CustomAllowed(id: string, cfg: Config)
  {
    || (id in {"_i", "_j", "_n"} && cfg.customs)
    || (id == "_bigarray" && cfg.bigarrays != 0)
    || (id == "_b" && cfg.bigarrays != 0 && cfg.customs)
  }

  /** What pass one rejects and what it leaves in place, from tag, size and identifier
      (a C string, so without NUL). */
  lemma Supported(h: Heap, cfg: Config, b: Block)
    requires BlockShape(h, b) && (b.tag == 255 ==> '\0' !in h.ids[b.fields[0]])
    ensures BlockKind(h, cfg, b).Unsupported? <==>
      || b.tag in {246, 247, 248, 250, 251}
      || (b.tag < 251 && b.fields == [] && cfg.atoms == 0)
      || (b.tag == 255 && !CustomAllowed(h.ids[b.fields[0]], cfg))
    ensures BlockKind(h, cfg, b).SkippedAtom? <==>
      b.tag < 251 && b.tag !in {246, 247, 248, 250} && b.fields == [] && cfg.atoms == 1
    ensures BlockKind(h, cfg, b).Scanned? <==>
      b.tag < 251 && b.tag !in {246, 247, 248, 250} && (b.fields != [] || cfg.atoms >= 2)
  {
    if b.tag == 255 { CustomIds(h.ids[b.fields[0]], cfg); }
  }

  lemma CustomIds(id: string, cfg: Config)
    requires '\0' !in id
    ensures CustomKind(id, cfg).Unsupported? <==> !CustomAllowed(id, cfg)
  {
    assert |id| > 0 ==> id[0] in id;
    assert |id| > 1 ==> id[1] in id;
    assert |id| > 2 ==> id[2] in id;
    if |id| == 2 { assert id == [id[0], id[1]]; }
  }

  // ------------------------------------------------------------ bigarrays

  // struct caml_ba_array starts at field 1: data, num_dims, flags, proxy, dim[]

  function Product(dims: seq<int>): int
  {
    if dims == [] then 1 else Product(dims[..|dims|-1]) * dims[|dims|-1]
  }

  ghost predicate BigarrayShape(h: Heap, b: Block)
  {
    && |b.fields| >= 5
    && 0 <= b.fields[2] <= |b.fields| - 5
    && (forall i :: 5 <= i < |b.fields| ==> b.fields[i] >= 0)
    && b.fields[1] in h.data
    && 0 <= DataWords(h, b) <= |h.data[b.fields[1]]|
  }

  function DataBytes(h: Heap, b: Block): int
    requires |b.fields| >= 5 && 0 <= b.fields[2] <= |b.fields| - 5
  {
    Product(b.fields[5..5 + b.fields[2]]) * h.elemSize(b.fields[3] % 256)
  }

  /** The number of words that hold the elements, rounded up. */
  function DataWords(h: Heap, b: Block): int
    requires |b.fields| >= 5 && 0 <= b.fields[2] <= |b.fields| - 5
  {
    (DataBytes(h, b) + WORD - 1) / WORD
  }

  /** Replaces CAML_BA_MANAGED_MASK (0x600): EXTERNAL is 0, MANAGED is 0x200. */
  function SetManaged(flags: int, cfg: Config): int
  {
    flags - flags / 512 % 4 * 512 + if cfg.bigarrays == 2 then 0 else 512
  }

  /** The flag word keeps all bits but the two that say who owns the data. */
  lemma ManagedBits(flags: int, cfg: Config)
    ensures var r := SetManaged(flags, cfg);
      r % 512 == flags % 512 && r / 2048 == flags / 2048 && r / 512 % 4 == if cfg.bigarrays == 2 then 0 else 1
  {
    var low, q := flags % 512, flags / 512;
    var high, owner := q / 4, q % 4;
    Bits(high, owner, low, flags);
    Bits(high, if cfg.bigarrays == 2 then 0 else 1, low, SetManaged(flags, cfg));
  }

  lemma Bits(high: int, owner: int, low: int, w: int)
    requires 0 <= owner < 4 && 0 <= low < 512 && w == 2048 * high + 512 * owner + low
    ensures w % 512 == low && w / 512 == 4 * high + owner
    ensures w / 2048 == high && w / 512 % 4 == owner
  {
    assert w == 512 * (4 * high + owner) + low;
  }

  /** The data takes as many words as its bytes need.  The lowest byte of the flag word
      is the kind of the elements. */
  lemma DataSize(h: Heap, b: Block, kind: int, rest: int)
    requires |b.fields| >= 5 && 0 <= b.fields[2] <= |b.fields| - 5
    requires b.fields[3] == 256 * rest + kind && 0 <= kind < 256
    ensures var bytes := Product(b.fields[5..5 + b.fields[2]]) * h.elemSize(kind);
      8 * DataWords(h, b) - 8 < bytes <= 8 * DataWords(h, b)
  {
  }

  // ----------------------------------------------------------- the heap

  ghost predicate BlockShape(h: Heap, b: Block)
  {
    && b.tag < 256
    && (b.tag == CUSTOM_TAG ==>
        && b.fields != [] && b.fields[0] in h.ids
        && (BigarrayId(h.ids[b.fields[0]]) ==> BigarrayShape(h, b)))
  }

  /** What the runtime guarantees of the heap: well-shaped blocks at even
      addresses, and no dangling pointer in a block that will be scanned
      (pointers into the code ranges `cc` may lead anywhere). */
  ghost predicate HeapOk(h: Heap, cfg: Config)
  {
    && (forall a :: a in h.blocks ==> a > 0 && IsBlock(a) && BlockShape(h, h.blocks[a]))
    && (forall a, i :: a in h.blocks && 0 <= i < |h.blocks[a].fields|
          && BlockKind(h, cfg, h.blocks[a]).Scanned?
          && IsBlock(h.blocks[a].fields[i]) && !InCc(cfg, h.blocks[a].fields[i])
          ==> h.blocks[a].fields[i] in h.blocks)
  }

  lemma BlockAt(h: Heap, cfg: Config, w: int)
    requires HeapOk(h, cfg) && w in h.blocks
    ensures w > 0 && IsBlock(w) && BlockShape(h, h.blocks[w])
  {
  }

  ghost function KindAt(h: Heap, cfg: Config, w: int): Kind
    requires HeapOk(h, cfg) && w in h.blocks
  {
    BlockKind(h, cfg, h.blocks[w])
  }

  /** The pointers among `fields` that pass one follows, in order. */
  ghost function Pointers(cfg: Config, fields: seq<int>): seq<int>
  {
    if fields == [] then []
    else
      var f := fields[|fields|-1];
      Pointers(cfg, fields[..|fields|-1]) + if IsBlock(f) && !InCc(cfg, f) then [f] else []
  }

  ghost function Children(h: Heap, cfg: Config, w: int): seq<int>
    requires HeapOk(h, cfg) && w in h.blocks
  {
    if KindAt(h, cfg, w).Scanned? then Pointers(cfg, h.blocks[w].fields) else []
  }

  lemma {:induction false} PointersAre(cfg: Config, fields: seq<int>, p: int)
    ensures p in Pointers(cfg, fields) <==> p in fields && IsBlock(p) && !InCc(cfg, p)
    ensures InCc(cfg, p) <==> cfg.enableCc && exists range :: range in cfg.cc && range.0 <= p < range.1
  {
    if k :| 0 <= k < |cfg.cc| && cfg.cc[k].0 <= p < cfg.cc[k].1 { assert cfg.cc[k] in cfg.cc; }
    if fields != [] {
      PointersAre(cfg, fields[..|fields|-1], p);
      assert fields == fields[..|fields|-1] + [fields[|fields|-1]];
    }
  }

  lemma ChildrenInHeap(h: Heap, cfg: Config, w: int)
    requires HeapOk(h, cfg) && w in h.blocks
    ensures forall p :: p in Children(h, cfg, w) ==> p in h.blocks
  {
    forall p | p in Children(h, cfg, w) ensures p in h.blocks {
      PointersAre(cfg, h.blocks[w].fields, p);
    }
  }

  // ------------------------------------------------ the order of copying

  datatype WalkResult = Walked(order: seq<int>) | Rejected

  ghost predicate AllIn(s: seq<int>, h: Heap) { forall x :: x in s ==> x in h.blocks }

  /** Pass one on addresses alone: `queue` is what is still to be looked at and
      `order` what was copied so far.  It does not depend on the destination
      nor on whether the run is a simulation. */
  ghost function Walk(h: Heap, cfg: Config, queue: seq<int>, order: seq<int>): WalkResult
    requires HeapOk(h, cfg) && AllIn(queue, h)
    decreases h.blocks.Keys - (set x | x in order), |queue|
  {
    if queue == [] then Walked(order)
    else
      var w := queue[0];
      if w in order then Walk(h, cfg, queue[1..], order)
      else if KindAt(h, cfg, w).Unsupported? then Rejected
      else if KindAt(h, cfg, w).SkippedAtom? then Walk(h, cfg, queue[1..], order)
      else
        ChildrenInHeap(h, cfg, w);
        assert w in h.blocks.Keys - (set x | x in order);
        Walk(h, cfg, queue[1..] + Children(h, cfg, w), order + [w])
  }

  // --------------------------------------------- what lands in the buffer

  /** One call: `dest` is the address of the buffer, `target` the address it will
      have later, and `malloc(w)` the memory allocated for the data of the copy of
      bigarray `w` when data is not put into the buffer. */
  datatype Job = Job(h: Heap, cfg: Config, dest: int, target: int, malloc: int -> int)

  ghost predicate JobOk(job: Job)
  {
    HeapOk(job.h, job.cfg) && job.cfg.color < 4
  }

  /** The address of word `pos` of the buffer. */
  function WordAddr(base: int, pos: int): int { base + WORD * pos }

  function NewOps(fields: seq<int>, ops: int): (r: seq<int>)
    requires fields != []
    ensures |r| == |fields|
  {
    if ops != 0 then fields[0 := ops] else fields
  }

  function NewBigarray(cfg: Config, fields: seq<int>, data: int): (r: seq<int>)
    requires |fields| >= 5
    ensures |r| == |fields|
  {
    fields[1 := data][4 := 0][3 := SetManaged(fields[3], cfg)]
  }

  ghost predicate KindFits(b: Block, k: Kind)
  {
    (k.Custom? ==> b.fields != []) && (k.Bigarray? ==> |b.fields| >= 5)
  }

  /** The fields of the copy right after pass one; `dataAddr` is where the data of
      a copied bigarray went. */
  ghost function RawFields(cfg: Config, b: Block, k: Kind, dataAddr: int): (r: seq<int>)
    requires KindFits(b, k)
    ensures |r| == |b.fields|
  {
    if k.Custom? then NewOps(b.fields, k.ops)
    else if k.Bigarray? then NewBigarray(cfg, NewOps(b.fields, k.ops), dataAddr)
    else b.fields
  }

  /** The skip header (Abstract_tag with size zero, then the length) and the data,
      for a bigarray whose data goes to the buffer. */
  ghost function SkipPart(cfg: Config, k: Kind, data: seq<int>): seq<int>
  {
    if k.Bigarray? && cfg.bigarrays == 2 then [Header(ABSTRACT_TAG, 0, 0), |data|] + data else []
  }

  /** The data of a bigarray.  Others may share the memory behind its data pointer, so
      there may be more of it. */
  ghost function DataOf(job: Job, w: int): seq<int>
    requires JobOk(job) && w in job.h.blocks
  {
    if KindAt(job.h, job.cfg, w).Bigarray? then
      BlockAt(job.h, job.cfg, w);
      var b := job.h.blocks[w];
      job.h.data[b.fields[1]][..DataWords(job.h, b)]
    else []
  }

  /** Where the data of the copied bigarray goes.  In the buffer this is an
      address inside `dest`, as in C; `target` plays no part. */
  ghost function DataAddr(job: Job, w: int, pos: nat): int
    requires w in job.h.blocks
  {
    if job.cfg.bigarrays == 2 then WordAddr(job.dest, pos + 1 + |job.h.blocks[w].fields| + 2)
    else job.malloc(w)
  }

  ghost function HeaderOf(job: Job, w: int): int
    requires w in job.h.blocks
  {
    Header(job.h.blocks[w].tag, job.cfg.color, |job.h.blocks[w].fields|)
  }

  /** The words of the copied block right after pass one. */
  ghost function RawBlock(job: Job, w: int, pos: nat): (r: seq<int>)
    requires JobOk(job) && w in job.h.blocks
    ensures |r| == 1 + |job.h.blocks[w].fields|
  {
    [HeaderOf(job, w)]
      + RawFields(job.cfg, job.h.blocks[w], KindAt(job.h, job.cfg, w), DataAddr(job, w, pos))
  }

  ghost function RawData(job: Job, w: int): seq<int>
    requires JobOk(job) && w in job.h.blocks
  {
    SkipPart(job.cfg, KindAt(job.h, job.cfg, w), DataOf(job, w))
  }

  ghost function RawEntry(job: Job, w: int, pos: nat): seq<int>
    requires JobOk(job) && w in job.h.blocks
  {
    RawBlock(job, w, pos) + RawData(job, w)
  }

  ghost function EntrySize(job: Job, w: int): nat
    requires JobOk(job) && w in job.h.blocks
  {
    1 + |job.h.blocks[w].fields| + |RawData(job, w)|
  }

  /** The number of words taken by the copies of `order`. */
  ghost function Size(job: Job, order: seq<int>): nat
    requires JobOk(job) && AllIn(order, job.h)
  {
    if order == [] then 0 else Size(job, order[..|order|-1]) + EntrySize(job, order[|order|-1])
  }

  /** The buffer after pass one. */
  ghost function RawImage(job: Job, order: seq<int>): (r: seq<int>)
    requires JobOk(job) && AllIn(order, job.h)
    ensures |r| == Size(job, order)
  {
    if order == [] then []
    else
      var front := order[..|order|-1];
      RawImage(job, front) + RawEntry(job, order[|order|-1], Size(job, front))
  }

  /** The table after pass one: original address to address of the copy. */
  ghost function Relo(job: Job, order: seq<int>): map<int, int>
    requires JobOk(job) && AllIn(order, job.h)
  {
    if order == [] then map[]
    else
      var front := order[..|order|-1];
      Relo(job, front)[order[|order|-1] := WordAddr(job.dest, Size(job, front) + 1)]
  }

  /** The data areas allocated outside of the buffer. */
  ghost function External(job: Job, order: seq<int>): map<int, seq<int>>
    requires JobOk(job) && AllIn(order, job.h)
  {
    if order == [] then map[]
    else
      var front, w := External(job, order[..|order|-1]), order[|order|-1];
      if KindAt(job.h, job.cfg, w).Bigarray? && job.cfg.bigarrays != 2
      then front[job.malloc(w) := DataOf(job, w)]
      else front
  }

  /** Pass two on one field: redirect a pointer whose target was copied. */
  ghost function FixField(job: Job, relo: map<int, int>, f: int): int
  {
    if IsBlock(f) && f in relo then relo[f] + (job.target - job.dest) else f
  }

  ghost function FixFields(job: Job, relo: map<int, int>, fields: seq<int>): (r: seq<int>)
    ensures |r| == |fields|
  {
    seq(|fields|, i requires 0 <= i < |fields| => FixField(job, relo, fields[i]))
  }

  ghost function FixBlock(job: Job, relo: map<int, int>, w: int, pos: nat): (r: seq<int>)
    requires JobOk(job) && w in job.h.blocks
    ensures |r| == 1 + |job.h.blocks[w].fields|
  {
    if KindAt(job.h, job.cfg, w).Scanned? then
      [HeaderOf(job, w)] + FixFields(job, relo, job.h.blocks[w].fields)
    else RawBlock(job, w, pos)
  }

  /** The buffer after pass two. */
  ghost function FixImage(job: Job, relo: map<int, int>, order: seq<int>): (r: seq<int>)
    requires JobOk(job) && AllIn(order, job.h)
    ensures |r| == Size(job, order)
  {
    if order == [] then []
    else
      var front, w := order[..|order|-1], order[|order|-1];
      FixImage(job, relo, front) + (FixBlock(job, relo, w, Size(job, front)) + RawData(job, w))
  }
}
