/** `netstring_read_utf8_ml` of src/netstring/netaccel_c.c: decodes a piece of a UTF-8
    string into an array of code points, and says how many bytes it used so that the
    caller can go on from there.
 */
module Utf8Slice {

  ghost predicate Bytes(b: seq<int>) { forall k :: 0 <= k < |b| ==> 0 <= b[k] < 256 }

  // ------------------------------------------------------- one character

  datatype One = Char(cp: int, len: nat) | Incomplete | Malformed

  predicate Tail(ch: int) { 0x80 <= ch < 0xc0 }

  /** The body of the loop, on the bytes from the current position to the end.  The
      C expressions `(x & m) << k | y` put disjoint bits together. */
  function ReadOne(b: seq<int>, isJava: bool): (r: One)
    requires b != []
    ensures r.Char? ==> 1 <= r.len <= |b|
  {
    var ch := b[0];
    if ch == 0 then (if isJava then Malformed else Char(0, 1))
    else if ch <= 127 then Char(ch, 1)
    else if ch <= 223 then
      if |b| < 2 then Incomplete
      else if isJava && ch == 0x80 && b[1] == 0xc0 then Char(0, 2)
      else if !Tail(b[1]) then Malformed
      else
        var cp := ch % 32 * 64 + b[1] % 64;
        if cp < 0x80 then Malformed else Char(cp, 2)
    else if ch <= 239 then
      if |b| < 3 then Incomplete
      else if !Tail(b[1]) || !Tail(b[2]) then Malformed
      else
        var cp := ch % 16 * 4096 + b[1] % 64 * 64 + b[2] % 64;
        if cp < 0x800 || 0xd800 <= cp < 0xe000 || 0xfffe <= cp <= 0xffff then Malformed else Char(cp, 3)
    else if ch <= 247 then
      if |b| < 4 then Incomplete
      else if !Tail(b[1]) || !Tail(b[2]) || !Tail(b[3]) then Malformed
      else
        var cp := ch % 8 * 262144 + b[1] % 64 * 4096 + b[2] % 64 * 64 + b[3] % 64;
        if cp < 0x10000 || cp >= 0x110000 then Malformed else Char(cp, 4)
    else Malformed
  }

  // ------------------------------------------------------------- a slice

  /** The characters and byte lengths found, and whether malformed input ended it. */
  datatype Slice = Slice(chars: seq<int>, lens: seq<int>, malformed: bool)

  function ReadSlice(b: seq<int>, isJava: bool, room: nat): (r: Slice)
    ensures |r.chars| == |r.lens| <= room
    ensures 0 <= Sum(r.lens) <= |b|
    decreases room
  {
    if b == [] || room == 0 then Slice([], [], false)
    else
      match ReadOne(b, isJava)
      case Incomplete => Slice([], [], false)
      case Malformed => Slice([], [], true)
      case Char(cp, len) =>
        var rest := ReadSlice(b[len..], isJava, room - 1);
        Slice([cp] + rest.chars, [len] + rest.lens, rest.malformed)
  }

  function Sum(lens: seq<int>): int
  {
    if lens == [] then 0 else lens[0] + Sum(lens[1..])
  }

  /** `InvalidArgument` and `Raised` are the two exceptions. */
  datatype Result = Read(n: int, bytes: int) | Raised(n: int, bytes: int) | InvalidArgument

  lemma {:induction false} SumAppend(a: seq<int>, x: int)
    ensures Sum(a + [x]) == Sum(a) + x
  {
    if a == [] {
      assert a + [x] == [x];
    } else {
      assert (a + [x])[1..] == a[1..] + [x];
      SumAppend(a[1..], x);
    }
  }

  /** What is done and what is still to do make up the whole slice. */
  ghost predicate Progress(b: seq<int>, isJava: bool, room: nat, chars: seq<int>, lens: seq<int>, at: nat)
  {
    && |chars| == |lens| <= room && at == Sum(lens) && at <= |b|
    && var rest := ReadSlice(b[at..], isJava, room - |chars|);
       ReadSlice(b, isJava, room) == Slice(chars + rest.chars, lens + rest.lens, rest.malformed)
  }

  lemma SliceChar(b: seq<int>, isJava: bool, room: nat, cp: int, len: nat)
    requires b != [] && room > 0 && ReadOne(b, isJava) == Char(cp, len)
    ensures var rest := ReadSlice(b[len..], isJava, room - 1);
      ReadSlice(b, isJava, room) == Slice([cp] + rest.chars, [len] + rest.lens, rest.malformed)
  {
    hide ReadOne;
  }

  lemma ProgressChar(b: seq<int>, isJava: bool, room: nat, chars: seq<int>, lens: seq<int>, at: nat, cp: int, len: nat)
    requires Progress(b, isJava, room, chars, lens, at) && at < |b| && |chars| < room
    requires ReadOne(b[at..], isJava) == Char(cp, len)
    ensures Progress(b, isJava, room, chars + [cp], lens + [len], at + len)
  {
    hide ReadOne, ReadSlice, Sum;
    SumAppend(lens, len);
    SliceChar(b[at..], isJava, room - |chars|, cp, len);
    assert b[at..][len..] == b[at + len..];
    var rest := ReadSlice(b[at + len..], isJava, room - |chars| - 1);
    assert chars + ([cp] + rest.chars) == chars + [cp] + rest.chars;
    assert lens + ([len] + rest.lens) == lens + [len] + rest.lens;
  }

  lemma ProgressEnd(b: seq<int>, isJava: bool, room: nat, chars: seq<int>, lens: seq<int>, at: nat)
    requires Progress(b, isJava, room, chars, lens, at)
    requires at == |b| || |chars| == room || !ReadOne(b[at..], isJava).Char?
    ensures ReadSlice(b, isJava, room)
      == Slice(chars, lens, at < |b| && |chars| < room && ReadOne(b[at..], isJava).Malformed?)
  {
    hide ReadOne;
    assert chars + [] == chars && lens + [] == lens;
  }

  /** The two stores at index `n` and what they leave alone. */
  method Store(sliceChar: array<int>, sliceBlen: array<int>, n: nat, cp: int, len: int)
    requires sliceChar != sliceBlen && n < sliceChar.Length == sliceBlen.Length
    modifies sliceChar, sliceBlen
    ensures sliceChar[..n+1] == old(sliceChar[..n]) + [cp]
    ensures sliceBlen[..n+1] == old(sliceBlen[..n]) + [len]
    ensures sliceBlen[n+1..] == old(sliceBlen[n+1..])
  {
    sliceChar[n] := cp;
    sliceBlen[n] := len;
  }

  /** The loop.  `nRet` is set when it is ended by an incomplete character. */
  method Fill(isJava: bool, sliceChar: array<int>, sliceBlen: array<int>, s: seq<int>, pIn: nat, pMax: nat)
    returns (nRet: int, p: nat, malformed: bool)
    requires sliceChar != sliceBlen && sliceChar.Length == sliceBlen.Length && pIn <= pMax <= |s|
    modifies sliceChar, sliceBlen
    ensures 0 <= nRet <= sliceChar.Length && pIn <= p
    ensures ReadSlice(s[pIn..pMax], isJava, sliceChar.Length) == Slice(sliceChar[..nRet], sliceBlen[..nRet], malformed)
    ensures p - pIn == Sum(sliceBlen[..nRet])
    ensures malformed ==> nRet < sliceChar.Length
    ensures sliceBlen[nRet..] == old(sliceBlen[..])[nRet..]
  {
    hide *;
    ghost var b, room := s[pIn..pMax], sliceChar.Length;
    ghost var chars: seq<int>, lens: seq<int> := [], [];
    ProgressStart(b, isJava, room);
    var n := 0;
    p, nRet, malformed := pIn, -1, false;
    while p < pMax && n < sliceChar.Length && nRet == -1
      invariant pIn <= p <= pMax && 0 <= n <= room && (nRet == -1 || nRet == n)
      invariant sliceChar[..n] == chars && sliceBlen[..n] == lens
      invariant sliceBlen[n..] == old(sliceBlen[..])[n..]
      invariant Progress(b, isJava, room, chars, lens, p - pIn)
      invariant nRet != -1 ==> p < pMax && n < room && ReadOne(b[p - pIn..], isJava).Incomplete?
      decreases pMax - p, if nRet == -1 then 1 else 0
    {
      Window(s, pIn, p, pMax);
      var one := ReadOne(s[p..pMax], isJava);
      match one
      case Malformed =>
        ProgressEnd(b, isJava, room, chars, lens, p - pIn);
        ProgressAt(b, isJava, room, chars, lens, p - pIn);
        return n, p, true;
      case Char(cp, len) =>
        ProgressChar(b, isJava, room, chars, lens, p - pIn, cp, len);
        chars, lens := chars + [cp], lens + [len];
        Store(sliceChar, sliceBlen, n, cp, len);
        p := p + len;
        n := n + 1;
        ProgressAt(b, isJava, room, chars, lens, p - pIn);
        SuffixKept(old(sliceBlen[..]), n - 1);
      case Incomplete =>
        nRet := n;
    }
    if nRet == -1 { nRet := n; }
    ProgressEnd(b, isJava, room, chars, lens, p - pIn);
    ProgressAt(b, isJava, room, chars, lens, p - pIn);
  }

  lemma Window(s: seq<int>, from: nat, at: nat, to: nat)
    requires from <= at <= to <= |s|
    ensures s[from..to][at - from..] == s[at..to]
  {
  }

  lemma ProgressStart(b: seq<int>, isJava: bool, room: nat)
    ensures Progress(b, isJava, room, [], [], 0)
  {
    hide ReadSlice;
    assert b[0..] == b;
    var r := ReadSlice(b, isJava, room);
    assert [] + r.chars == r.chars && [] + r.lens == r.lens;
  }

  lemma SuffixKept(a: seq<int>, n: nat)
    requires n < |a|
    ensures a[n..][1..] == a[n+1..]
  {
  }

  method ReadUtf8(isJava: bool, sliceChar: array<int>, sliceBlen: array<int>, s: seq<int>, pIn: int, lIn: int)
    returns (r: Result)
    requires Bytes(s) && sliceChar != sliceBlen
    modifies sliceChar, sliceBlen
    ensures r.InvalidArgument? <==>
      sliceChar.Length != sliceBlen.Length || pIn < 0 || lIn < 0 || pIn + lIn > |s|
    ensures r.InvalidArgument? ==> sliceChar[..] == old(sliceChar[..]) && sliceBlen[..] == old(sliceBlen[..])
    ensures !r.InvalidArgument? ==>
      var got := ReadSlice(s[pIn..pIn + lIn], isJava, sliceChar.Length);
      && r == (if got.malformed then Raised(|got.chars|, Sum(got.lens)) else Read(|got.chars|, Sum(got.lens)))
      && sliceChar[..|got.chars|] == got.chars && sliceBlen[..|got.lens|] == got.lens
      && (|got.chars| < sliceChar.Length ==> sliceChar[|got.chars|] == -1)
      && sliceBlen[|got.lens|..] == old(sliceBlen[..])[|got.lens|..]
  {
    hide ReadSlice, Sum;
    if sliceChar.Length != sliceBlen.Length { return InvalidArgument; }
    if pIn < 0 || lIn < 0 || pIn + lIn > |s| { return InvalidArgument; }
    var nRet, p, malformed := Fill(isJava, sliceChar, sliceBlen, s, pIn, pIn + lIn);
    ghost var chars := sliceChar[..nRet];
    if nRet < sliceChar.Length { sliceChar[nRet] := -1; }
    assert sliceChar[..nRet] == chars;
    return if malformed then Raised(nRet, p - pIn) else Read(nRet, p - pIn);
  }

  lemma ProgressAt(b: seq<int>, isJava: bool, room: nat, chars: seq<int>, lens: seq<int>, at: nat)
    requires Progress(b, isJava, room, chars, lens, at)
    ensures at == Sum(lens) <= |b| && |chars| == |lens| <= room
  {
  }

  // ------------------------------------------------------------- encoding

  /** The code points that the decoder produces: Unicode scalar values except U+FFFE
      and U+FFFF. */
  predicate Allowed(cp: int)
  {
    0 <= cp < 0x110000 && !(0xd800 <= cp < 0xe000) && !(0xfffe <= cp <= 0xffff)
  }

  /** Section 3 of RFC 3629. */
  function Encode(cp: int): (b: seq<int>)
    requires Allowed(cp)
    ensures 1 <= |b| <= 4
  {
    if cp < 0x80 then [cp]
    else if cp < 0x800 then [0xc0 + cp / 64, 0x80 + cp % 64]
    else if cp < 0x10000 then [0xe0 + cp / 4096, 0x80 + cp / 64 % 64, 0x80 + cp % 64]
    else [0xf0 + cp / 262144, 0x80 + cp / 4096 % 64, 0x80 + cp / 64 % 64, 0x80 + cp % 64]
  }

  ghost predicate AllAllowed(cps: seq<int>) { forall k :: 0 <= k < |cps| ==> Allowed(cps[k]) }

  function EncodeAll(cps: seq<int>): seq<int>
    requires AllAllowed(cps)
  {
    if cps == [] then [] else Encode(cps[0]) + EncodeAll(cps[1..])
  }

  /** Base-64 digits of a code point. */
  lemma Digits(cp: int)
    requires 0 <= cp < 0x200000
    ensures cp == cp / 64 * 64 + cp % 64
    ensures cp / 64 == cp / 4096 * 64 + cp / 64 % 64
    ensures cp / 4096 == cp / 262144 * 64 + cp / 4096 % 64
  {
    assert cp / 64 / 64 == cp / 4096;
    assert cp / 4096 / 64 == cp / 262144;
  }

  lemma TailBits(d: int)
    requires 0 <= d < 64
    ensures Tail(0x80 + d) && (0x80 + d) % 64 == d
  {
  }

  lemma LeadBits(q: int)
    ensures 0 <= q < 32 ==> (0xc0 + q) % 32 == q
    ensures 0 <= q < 16 ==> (0xe0 + q) % 16 == q
    ensures 0 <= q < 8 ==> (0xf0 + q) % 8 == q
  {
  }

  lemma ReadTwo(cp: int, rest: seq<int>)
    requires 0x80 <= cp < 0x800
    ensures ReadOne([0xc0 + cp / 64, 0x80 + cp % 64] + rest, false) == Char(cp, 2)
  {
    Digits(cp);
    LeadBits(cp / 64);
    TailBits(cp % 64);
  }

  lemma ReadThree(cp: int, rest: seq<int>)
    requires 0x800 <= cp < 0x10000 && Allowed(cp)
    ensures ReadOne([0xe0 + cp / 4096, 0x80 + cp / 64 % 64, 0x80 + cp % 64] + rest, false) == Char(cp, 3)
  {
    Digits(cp);
    var q, d1, d2 := cp / 4096, cp / 64 % 64, cp % 64;
    LeadBits(q);
    TailBits(d1);
    TailBits(d2);
    var b := [0xe0 + q, 0x80 + d1, 0x80 + d2] + rest;
    assert b[0] == 0xe0 + q && b[1] == 0x80 + d1 && b[2] == 0x80 + d2;
    assert cp == q * 4096 + d1 * 64 + d2;
  }

  lemma ReadFour(cp: int, rest: seq<int>)
    requires 0x10000 <= cp < 0x110000
    ensures ReadOne([0xf0 + cp / 262144, 0x80 + cp / 4096 % 64, 0x80 + cp / 64 % 64, 0x80 + cp % 64] + rest, false)
      == Char(cp, 4)
  {
    Digits(cp);
    var q, d1, d2, d3 := cp / 262144, cp / 4096 % 64, cp / 64 % 64, cp % 64;
    LeadBits(q);
    TailBits(d1);
    TailBits(d2);
    TailBits(d3);
    var b := [0xf0 + q, 0x80 + d1, 0x80 + d2, 0x80 + d3] + rest;
    assert b[0] == 0xf0 + q && b[1] == 0x80 + d1 && b[2] == 0x80 + d2 && b[3] == 0x80 + d3;
    assert cp == q * 262144 + d1 * 4096 + d2 * 64 + d3;
  }

  /** A complete encoding is read back, whatever follows it. */
  lemma ReadEncoded(cp: int, rest: seq<int>)
    requires Allowed(cp)
    ensures ReadOne(Encode(cp) + rest, false) == Char(cp, |Encode(cp)|)
  {
    if cp >= 0x10000 {
      hide ReadOne;
      ReadFour(cp, rest);
    } else if cp >= 0x800 {
      hide ReadOne;
      ReadThree(cp, rest);
    } else if cp >= 0x80 {
      hide ReadOne;
      ReadTwo(cp, rest);
    }
  }

  /** A proper part of an encoding is recognised as incomplete. */
  lemma ReadPart(cp: int, k: nat)
    requires Allowed(cp) && 0 < k < |Encode(cp)|
    ensures ReadOne(Encode(cp)[..k], false) == Incomplete
  {
  }

  // ------------------------------------------------------------ resumption

  /** The number of complete characters in the first `k` bytes of an encoding. */
  function Whole(cps: seq<int>, k: nat): (j: nat)
    requires AllAllowed(cps)
    ensures j <= |cps|
  {
    if cps == [] || k < |Encode(cps[0])| then 0 else 1 + Whole(cps[1..], k - |Encode(cps[0])|)
  }

  function Min(a: nat, b: nat): nat { if a < b then a else b }

  /** Reading the first `k` bytes of an encoding, cut anywhere, with room for `room`
      characters: all complete characters that fit, never an error, and the reported
      bytes are exactly those of the characters. */
  ghost predicate SliceRight(cps: seq<int>, k: nat, room: nat)
    requires AllAllowed(cps) && k <= |EncodeAll(cps)|
  {
    var j := Min(room, Whole(cps, k));
    var r := ReadSlice(EncodeAll(cps)[..k], false, room);
    && r.chars == cps[..j] && !r.malformed
    && Sum(r.lens) == |EncodeAll(cps[..j])| <= k
  }

  lemma EncodeFront(cps: seq<int>, j: nat)
    requires AllAllowed(cps) && 0 < j <= |cps|
    ensures cps[..j] == [cps[0]] + cps[1..][..j-1]
    ensures EncodeAll(cps[..j]) == Encode(cps[0]) + EncodeAll(cps[1..][..j-1])
  {
    hide Encode;
    assert cps[..j][1..] == cps[1..][..j-1];
  }

  lemma SumCons(x: int, a: seq<int>)
    ensures Sum([x] + a) == x + Sum(a)
  {
    assert ([x] + a)[1..] == a;
  }

  lemma SliceStep(cps: seq<int>, k: nat, room: nat)
    requires AllAllowed(cps) && k <= |EncodeAll(cps)| && room > 0
    requires cps != [] && |Encode(cps[0])| <= k
    requires SliceRight(cps[1..], k - |Encode(cps[0])|, room - 1)
    ensures SliceRight(cps, k, room)
  {
    hide ReadOne, Encode, Allowed, ReadSlice, EncodeAll, Whole, Sum, Min;
    var e, rest := Encode(cps[0]), EncodeAll(cps[1..]);
    var i := WholeStep(cps, k, room);
    var b' := rest[..k - |e|];
    CutAppend(e, rest, k);
    ReadEncoded(cps[0], b');
    SliceChar(e + b', false, room, cps[0], |e|);
    EncodeFront(cps, 1 + i);
    SumCons(|e|, ReadSlice(b', false, room - 1).lens);
  }

  lemma CutAppend(a: seq<int>, b: seq<int>, k: nat)
    requires |a| <= k <= |a| + |b|
    ensures (a + b)[..k] == a + b[..k - |a|]
    ensures (a + b[..k - |a|])[|a|..] == b[..k - |a|]
  {
  }

  lemma WholeStep(cps: seq<int>, k: nat, room: nat) returns (i: nat)
    requires AllAllowed(cps) && cps != [] && |Encode(cps[0])| <= k && room > 0
    ensures i == Min(room - 1, Whole(cps[1..], k - |Encode(cps[0])|)) < |cps|
    ensures Min(room, Whole(cps, k)) == 1 + i
    ensures EncodeAll(cps) == Encode(cps[0]) + EncodeAll(cps[1..])
  {
    i := Min(room - 1, Whole(cps[1..], k - |Encode(cps[0])|));
  }

  lemma {:induction false} SliceOfEncoding(cps: seq<int>, k: nat, room: nat)
    requires AllAllowed(cps) && k <= |EncodeAll(cps)|
    ensures SliceRight(cps, k, room)
    decreases |cps|
  {
    hide ReadOne, Encode, Allowed;
    var b := EncodeAll(cps)[..k];
    if cps != [] && k > 0 && room > 0 {
      var e := Encode(cps[0]);
      if k < |e| {
        assert b == e[..k];
        ReadPart(cps[0], k);
      } else {
        SliceOfEncoding(cps[1..], k - |e|, room - 1);
        SliceStep(cps, k, room);
      }
    }
  }

  /** Decoding undoes encoding. */
  lemma DecodeEncode(cps: seq<int>, room: nat)
    requires AllAllowed(cps) && room >= |cps|
    ensures var r := ReadSlice(EncodeAll(cps), false, room);
      r.chars == cps && !r.malformed && Sum(r.lens) == |EncodeAll(cps)|
  {
    hide ReadSlice, EncodeAll;
    SliceOfEncoding(cps, |EncodeAll(cps)|, room);
    WholeAll(cps);
    assert EncodeAll(cps)[..|EncodeAll(cps)|] == EncodeAll(cps);
    assert cps[..|cps|] == cps;
  }

  lemma {:induction false} WholeAll(cps: seq<int>)
    requires AllAllowed(cps)
    ensures Whole(cps, |EncodeAll(cps)|) == |cps|
  {
    hide Encode;
    if cps != [] { WholeAll(cps[1..]); }
  }

  /** One call of a reader that goes on where the last call stopped: bytes up to `cut`
      are there, and the slice has room for `room` characters. */
  datatype Call = Call(cut: nat, room: nat)

  /** Where a call stops to look for bytes. */
  function CutOf(b: seq<int>, at: nat, call: Call): (cut: nat)
    requires at <= |b|
    ensures at <= cut <= |b|
  {
    if call.cut > |b| then |b| else if call.cut < at then at else call.cut
  }

  /** Reading through any sequence of calls.  A call whose bytes end before the current
      position reads nothing. */
  function ReadThrough(b: seq<int>, at: nat, calls: seq<Call>): (r: (seq<int>, nat, bool))
    requires at <= |b|
    ensures at <= r.1 <= |b|
    decreases |calls|
  {
    if calls == [] then ([], at, false)
    else
      var r := ReadSlice(b[at..CutOf(b, at, calls[0])], false, calls[0].room);
      if r.malformed then (r.chars, at + Sum(r.lens), true)
      else
        var (chars, end, bad) := ReadThrough(b, at + Sum(r.lens), calls[1..]);
        (r.chars + chars, end, bad)
  }

  lemma {:induction false} EncodeSplit(a: seq<int>, c: seq<int>)
    requires AllAllowed(a) && AllAllowed(c)
    ensures AllAllowed(a + c) && EncodeAll(a + c) == EncodeAll(a) + EncodeAll(c)
  {
    hide Encode, Allowed;
    if a == [] {
      assert a + c == c;
    } else {
      assert (a + c)[1..] == a[1..] + c;
      EncodeSplit(a[1..], c);
    }
  }

  /** One call delivers the next `i` characters. */
  lemma OneCall(done: seq<int>, cps: seq<int>, call: Call) returns (i: nat)
    requires AllAllowed(done) && AllAllowed(cps)
    ensures AllAllowed(done + cps) && EncodeAll(done + cps) == EncodeAll(done) + EncodeAll(cps)
    ensures i <= |cps| && AllAllowed(cps[..i])
    ensures var b, at := EncodeAll(done + cps), |EncodeAll(done)|;
      var r := ReadSlice(b[at..CutOf(b, at, call)], false, call.room);
      r.chars == cps[..i] && !r.malformed && Sum(r.lens) == |EncodeAll(cps[..i])|
  {
    hide ReadSlice, EncodeAll, Allowed, Whole, Sum, CutOf, Encode;
    EncodeSplit(done, cps);
    var b, at := EncodeAll(done + cps), |EncodeAll(done)|;
    var cut := CutOf(b, at, call);
    i := Min(call.room, Whole(cps, cut - at));
    SliceOfEncoding(cps, cut - at, call.room);
    assert b[at..cut] == EncodeAll(cps)[..cut - at];
  }

  /** Main result on resumption: however the input is cut and however small the slices
      are, the calls together deliver the first `j` characters of the list, they have
      used exactly the bytes of these, and no call fails. */
  lemma {:induction false} ResumeAnywhere(done: seq<int>, cps: seq<int>, calls: seq<Call>)
    returns (j: nat)
    requires AllAllowed(done) && AllAllowed(cps)
    ensures AllAllowed(done + cps) && |EncodeAll(done)| <= |EncodeAll(done + cps)|
    ensures j <= |cps| && AllAllowed(cps[..j])
    ensures ReadThrough(EncodeAll(done + cps), |EncodeAll(done)|, calls)
      == (cps[..j], |EncodeAll(done)| + |EncodeAll(cps[..j])|, false)
    decreases |calls|
  {
    hide ReadSlice, EncodeAll, Allowed, Sum, CutOf;
    if calls == [] {
      EncodeSplit(done, cps);
      j := 0;
      EncodeNone(cps[..0]);
    } else {
      var i := OneCall(done, cps, calls[0]);
      var part, rest := cps[..i], cps[i..];
      assert done + part + rest == done + cps;
      EncodeSplit(done, part);
      j := ResumeAnywhere(done + part, rest, calls[1..]);
      EncodeSplit(part, rest[..j]);
      assert part + rest[..j] == cps[..i + j];
      j := i + j;
    }
  }

  lemma EncodeNone(none: seq<int>)
    requires none == [] && AllAllowed(none)
    ensures EncodeAll(none) == []
  {
  }

  /** Calls that use up all bytes deliver the whole list, and only they do. */
  lemma ResumeToEnd(cps: seq<int>, calls: seq<Call>)
    requires AllAllowed(cps)
    ensures var r := ReadThrough(EncodeAll(cps), 0, calls);
      !r.2 && (r.1 == |EncodeAll(cps)| <==> r.0 == cps)
  {
    hide EncodeAll, ReadThrough, Allowed, Encode;
    EncodeNone([]);
    assert [] + cps == cps;
    var j := ResumeAnywhere([], cps, calls);
    assert cps[..j] + cps[j..] == cps;
    EncodeSplit(cps[..j], cps[j..]);
    if j < |cps| { EncodeHead(cps[j..]); } else { EncodeNone(cps[j..]); }
  }

  /** Every call with room for a character and with the next character complete makes
      progress. */
  lemma CallProgress(cps: seq<int>, k: nat, room: nat)
    requires AllAllowed(cps) && k <= |EncodeAll(cps)| && cps != [] && room > 0 && |Encode(cps[0])| <= k
    ensures |ReadSlice(EncodeAll(cps)[..k], false, room).chars| > 0
  {
    hide ReadSlice;
    SliceOfEncoding(cps, k, room);
  }

  lemma {:induction false} ReadAll(done: seq<int>, cps: seq<int>, calls: seq<Call>)
    requires AllAllowed(done) && AllAllowed(cps) && |calls| >= |cps|
    requires AllAllowed(done + cps) && |EncodeAll(done)| <= |EncodeAll(done + cps)|
    requires forall k :: 0 <= k < |calls| ==> calls[k].room > 0 && calls[k].cut >= |EncodeAll(done + cps)|
    ensures ReadThrough(EncodeAll(done + cps), |EncodeAll(done)|, calls) == (cps, |EncodeAll(done + cps)|, false)
    decreases |calls|
  {
    hide ReadSlice, EncodeAll, Allowed, Sum, CutOf;
    EncodeSplit(done, cps);
    if calls == [] {
      EncodeNone(cps);
    } else {
      var b, at := EncodeAll(done + cps), |EncodeAll(done)|;
      var i := OneCall(done, cps, calls[0]);
      CutAtEnd(EncodeAll(done), EncodeAll(cps), calls[0]);
      if cps != [] {
        EncodeHead(cps);
        CallProgress(cps, |EncodeAll(cps)|, calls[0].room);
        assert EncodeAll(cps)[..|EncodeAll(cps)|] == EncodeAll(cps);
      }
      var part, rest := cps[..i], cps[i..];
      assert done + part + rest == done + cps;
      EncodeSplit(done, part);
      EncodeSplit(done + part, rest);
      ReadAll(done + part, rest, calls[1..]);
      assert part + rest == cps;
    }
  }

  /** As many calls as there are characters, with all bytes there and room for at least
      one character each, read the whole list. */
  lemma ReadWhole(cps: seq<int>, calls: seq<Call>)
    requires AllAllowed(cps) && |calls| >= |cps|
    requires forall k :: 0 <= k < |calls| ==> calls[k].room > 0 && calls[k].cut >= |EncodeAll(cps)|
    ensures ReadThrough(EncodeAll(cps), 0, calls) == (cps, |EncodeAll(cps)|, false)
  {
    hide EncodeAll, ReadThrough, Allowed;
    EncodeNone([]);
    assert [] + cps == cps;
    ReadAll([], cps, calls);
  }

  lemma CutAtEnd(a: seq<int>, c: seq<int>, call: Call)
    requires call.cut >= |a + c|
    ensures CutOf(a + c, |a|, call) == |a + c| && (a + c)[|a|..|a + c|] == c
  {
  }

  lemma EncodeHead(cps: seq<int>)
    requires AllAllowed(cps) && cps != []
    ensures |Encode(cps[0])| <= |EncodeAll(cps)|
  {
  }

  // ------------------------------------------------------ what is accepted

  /** Not everything that is accepted is UTF-8: the bytes 80 to BF are taken for the
      first byte of a pair.  This is the only gap. */
  lemma AcceptedIsEncoding(b: seq<int>)
    requires b != [] && Bytes(b) && ReadOne(b, false).Char?
    ensures var r := ReadOne(b, false);
      Allowed(r.cp) && (b[..r.len] == Encode(r.cp) <==> !Tail(b[0]))
  {
    var ch := b[0];
    if ch > 239 { AcceptedFour(b); }
    else if ch > 223 { AcceptedThree(b); }
    else if ch > 127 { AcceptedTwo(b); }
  }

  lemma AcceptedTwo(b: seq<int>)
    requires |b| >= 2 && Bytes(b) && 127 < b[0] <= 223 && ReadOne(b, false).Char?
    ensures var r := ReadOne(b, false);
      r.len == 2 && Allowed(r.cp) && (b[..2] == Encode(r.cp) <==> !Tail(b[0]))
  {
    var cp := b[0] % 32 * 64 + b[1] % 64;
    assert cp / 64 == b[0] % 32 && cp % 64 == b[1] % 64;
    assert 0x80 + b[1] % 64 == b[1];
  }

  lemma AcceptedThree(b: seq<int>)
    requires |b| >= 3 && Bytes(b) && 223 < b[0] <= 239 && ReadOne(b, false).Char?
    ensures var r := ReadOne(b, false);
      r.len == 3 && Allowed(r.cp) && b[..3] == Encode(r.cp)
  {
    var q, d1, d2 := b[0] - 0xe0, b[1] - 0x80, b[2] - 0x80;
    assert b[0] % 16 == q && b[1] % 64 == d1 && b[2] % 64 == d2;
    var cp := q * 4096 + d1 * 64 + d2;
    assert cp / 64 == q * 64 + d1 && cp % 64 == d2;
    assert cp / 4096 == q && cp / 64 % 64 == d1;
  }

  lemma FourDigits(q: int, d1: int, d2: int, d3: int)
    requires 0 <= q < 8 && 0 <= d1 < 64 && 0 <= d2 < 64 && 0 <= d3 < 64
    ensures var cp := q * 262144 + d1 * 4096 + d2 * 64 + d3;
      cp / 262144 == q && cp / 4096 % 64 == d1 && cp / 64 % 64 == d2 && cp % 64 == d3
  {
    var cp := q * 262144 + d1 * 4096 + d2 * 64 + d3;
    assert cp / 64 == q * 4096 + d1 * 64 + d2;
    assert cp / 4096 == q * 64 + d1;
  }

  lemma AcceptedFour(b: seq<int>)
    requires |b| >= 4 && Bytes(b) && 239 < b[0] <= 247 && ReadOne(b, false).Char?
    ensures var r := ReadOne(b, false);
      r.len == 4 && Allowed(r.cp) && b[..4] == Encode(r.cp)
  {
    var q, d1, d2, d3 := b[0] - 0xf0, b[1] - 0x80, b[2] - 0x80, b[3] - 0x80;
    LeadBits(q);
    TailBits(d1);
    TailBits(d2);
    TailBits(d3);
    var cp := q * 262144 + d1 * 4096 + d2 * 64 + d3;
    FourDigits(q, d1, d2, d3);
    assert ReadOne(b, false) == Char(cp, 4);
    hide ReadOne;
  }

  /** A pair that is accepted and is not the encoding of the character it stands for. */
  lemma TailAccepted()
    ensures ReadOne([0x82, 0x80], false) == Char(0x80, 2) && Encode(0x80) == [0xc2, 0x80]
  {
  }

  /** Also where the bytes are not the encoding, their number is right. */
  lemma AcceptedLength(b: seq<int>)
    requires b != [] && Bytes(b) && ReadOne(b, false).Char?
    ensures Allowed(ReadOne(b, false).cp) && |Encode(ReadOne(b, false).cp)| == ReadOne(b, false).len
  {
    AcceptedIsEncoding(b);
    if b[0] > 127 && b[0] <= 223 { AcceptedTwo(b); }
  }

  /** Does one of the characters, of the given lengths, start with a byte 80 to BF? */
  ghost predicate TailFirst(b: seq<int>, lens: seq<int>)
    decreases |lens|
  {
    lens != [] && b != [] && (Tail(b[0]) || (0 <= lens[0] <= |b| && TailFirst(b[lens[0]..], lens[1..])))
  }

  /** What is accepted as a whole is UTF-8 if and only if no character in it starts with
      a byte 80 to BF. */
  lemma {:induction false} AcceptedSlice(b: seq<int>, room: nat)
    requires Bytes(b)
    requires var r := ReadSlice(b, false, room); !r.malformed && Sum(r.lens) == |b|
    ensures var r := ReadSlice(b, false, room);
      AllAllowed(r.chars) && (b == EncodeAll(r.chars) <==> !TailFirst(b, r.lens))
    decreases room
  {
    hide ReadOne, Encode, Allowed;
    if b != [] {
      AcceptedRest(b, room);
      var one := ReadOne(b, false);
      AcceptedLength(b);
      AcceptedIsEncoding(b);
      AcceptedSlice(b[one.len..], room - 1);
      var r, rest := ReadSlice(b, false, room), ReadSlice(b[one.len..], false, room - 1);
      hide ReadSlice;
      EncodeCons(one.cp, rest.chars);
      SplitAt(b, one.len, Encode(one.cp), EncodeAll(rest.chars));
      assert r.lens[1..] == rest.lens;
    }
  }

  lemma AcceptedRest(b: seq<int>, room: nat)
    requires b != [] && Bytes(b)
    requires var r := ReadSlice(b, false, room); !r.malformed && Sum(r.lens) == |b|
    ensures room > 0 && ReadOne(b, false).Char?
    ensures var one := ReadOne(b, false);
      var r, rest := ReadSlice(b, false, room), ReadSlice(b[one.len..], false, room - 1);
      && Bytes(b[one.len..]) && !rest.malformed && Sum(rest.lens) == |b[one.len..]|
      && r.chars == [one.cp] + rest.chars && r.lens == [one.len] + rest.lens
  {
    hide ReadOne;
    var one := ReadOne(b, false);
    if one.Char? && room > 0 {
      SumCons(one.len, ReadSlice(b[one.len..], false, room - 1).lens);
    }
  }

  lemma EncodeCons(cp: int, cps: seq<int>)
    requires Allowed(cp) && AllAllowed(cps)
    ensures AllAllowed([cp] + cps) && EncodeAll([cp] + cps) == Encode(cp) + EncodeAll(cps)
  {
    hide Encode, Allowed;
    assert ([cp] + cps)[1..] == cps;
  }

  lemma SplitAt(b: seq<int>, n: nat, x: seq<int>, y: seq<int>)
    requires n <= |b| && |x| == n
    ensures b == x + y <==> b[..n] == x && b[n..] == y
  {
    if b == x + y {
      assert (x + y)[..n] == x && (x + y)[n..] == y;
    }
    assert b == b[..n] + b[n..];
  }

  // --------------------------------------------------- the reader described

  /** A first byte 80 to BF is read as if it were C0 to DF with the same low bits. */
  function Lead(b: seq<int>): seq<int>
  {
    if b != [] && 0x80 <= b[0] <= 0xbf then [0xc0 + b[0] % 32] + b[1..] else b
  }

  /** The character `cp` is at the front of `b`, in `len` bytes. */
  ghost predicate Begins(b: seq<int>, isJava: bool, cp: int, len: nat)
  {
    if isJava && b != [] && b[0] == 0 then false
    else if isJava && [0x80, 0xc0] <= b then cp == 0 && len == 2
    else Allowed(cp) && Encode(cp) <= Lead(b) && len == |Encode(cp)|
  }

  /** The bytes end before a character that may begin like this. */
  ghost predicate CutOff(b: seq<int>)
  {
    b != [] && 0x80 <= b[0] <= 0xf7 && |b| < if b[0] <= 0xdf then 2 else if b[0] <= 0xef then 3 else 4
  }

  lemma LeadRead(b: seq<int>)
    requires b != [] && Bytes(b)
    ensures ReadOne(Lead(b), false) == ReadOne(b, false)
  {
    if 0x80 <= b[0] <= 0xbf {
      LeadBits(b[0] % 32);
      assert |Lead(b)| == |b| && Lead(b)[0] % 32 == b[0] % 32 && 0xc0 <= Lead(b)[0] <= 0xdf;
      if |b| > 1 { assert Lead(b)[1] == b[1]; }
    }
  }

  /** A character is read if and only if its encoding is there. */
  lemma CharExactly(b: seq<int>, cp: int, len: nat)
    requires b != [] && Bytes(b)
    ensures ReadOne(b, false) == Char(cp, len) <==> Begins(b, false, cp, len)
  {
    var c := Lead(b);
    LeadRead(b);
    assert Bytes(c) && !Tail(c[0]);
    if ReadOne(c, false) == Char(cp, len) {
      AcceptedIsEncoding(c);
      hide ReadOne, Lead, Encode;
      assert c == c[..len] + c[len..];
    } else if Begins(b, false, cp, len) {
      hide ReadOne, Lead, Encode;
      var e := Encode(cp);
      assert c == e + c[|e|..];
      ReadEncoded(cp, c[|e|..]);
    }
  }

  /** What one step of the reader does with any bytes, in both modes: it finds the
      character that begins there, it waits for more bytes, and in all other cases the
      bytes are malformed. */
  lemma OneExactly(b: seq<int>, isJava: bool)
    requires b != [] && Bytes(b)
    ensures forall cp, len: nat :: ReadOne(b, isJava) == Char(cp, len) <==> Begins(b, isJava, cp, len)
    ensures ReadOne(b, isJava).Incomplete? <==> CutOff(b)
  {
    forall cp, len: nat
      ensures ReadOne(b, isJava) == Char(cp, len) <==> Begins(b, isJava, cp, len)
    {
      CharExactly(b, cp, len);
      JavaExactly(b);
      hide ReadOne;
    }
  }

  lemma JavaExactly(b: seq<int>)
    requires b != []
    ensures ReadOne(b, true) == if b[0] == 0 then Malformed
                                else if [0x80, 0xc0] <= b then Char(0, 2)
                                else ReadOne(b, false)
  {
    assert [0x80, 0xc0] <= b <==> |b| >= 2 && b[0] == 0x80 && b[1] == 0xc0;
  }

  /** The characters stand one after the other at the front of `b`. */
  ghost predicate IsSlice(b: seq<int>, isJava: bool, chars: seq<int>, lens: seq<int>)
    decreases |chars|
  {
    && |chars| == |lens|
    && (chars != [] ==>
          && 0 <= lens[0] <= |b| && Begins(b, isJava, chars[0], lens[0])
          && IsSlice(b[lens[0]..], isJava, chars[1..], lens[1..]))
  }

  ghost predicate NoneBegins(b: seq<int>, isJava: bool) { forall cp, len: nat :: !Begins(b, isJava, cp, len) }

  lemma OneFound(b: seq<int>, isJava: bool)
    requires b != [] && Bytes(b)
    ensures var one := ReadOne(b, isJava);
      match one
      case Char(cp, len) => Begins(b, isJava, cp, len)
      case Incomplete => NoneBegins(b, isJava) && CutOff(b)
      case Malformed => NoneBegins(b, isJava) && !CutOff(b)
  {
    OneExactly(b, isJava);
    hide ReadOne, Begins, CutOff;
  }

  lemma IsSliceCons(b: seq<int>, isJava: bool, cp: int, len: nat, chars: seq<int>, lens: seq<int>)
    requires len <= |b| && Begins(b, isJava, cp, len) && IsSlice(b[len..], isJava, chars, lens)
    ensures IsSlice(b, isJava, [cp] + chars, [len] + lens)
  {
    hide Begins;
    assert ([cp] + chars)[1..] == chars && ([len] + lens)[1..] == lens;
  }

  /** What a slice holds of any bytes: one character after the other, each where the
      one before ends.  It ends with the bytes, when the room is used up, where the
      bytes are cut off within a character, or else at a place where no character is,
      and only this is malformed. */
  lemma {:induction false} SliceExactly(b: seq<int>, isJava: bool, room: nat)
    requires Bytes(b)
    ensures var r := ReadSlice(b, isJava, room);
            var at := Sum(r.lens);
      && IsSlice(b, isJava, r.chars, r.lens)
      && (at == |b| || |r.chars| == room ==> !r.malformed)
      && (at < |b| && |r.chars| < room ==> NoneBegins(b[at..], isJava) && (r.malformed <==> !CutOff(b[at..])))
    decreases room
  {
    hide ReadOne, Begins, CutOff, NoneBegins;
    assert b[0..] == b;
    if b != [] && room > 0 {
      OneFound(b, isJava);
      var one := ReadOne(b, isJava);
      if one.Char? {
        var rest := ReadSlice(b[one.len..], isJava, room - 1);
        SliceExactly(b[one.len..], isJava, room - 1);
        SliceChar(b, isJava, room, one.cp, one.len);
        hide ReadSlice, IsSlice, Sum;
        IsSliceCons(b, isJava, one.cp, one.len, rest.chars, rest.lens);
        SumCons(one.len, rest.lens);
        DropTwice(b, one.len, Sum(rest.lens));
      }
    }
  }

  lemma DropTwice(b: seq<int>, m: nat, n: nat)
    requires m + n <= |b|
    ensures b[m..][n..] == b[m + n..]
  {
  }

  // ------------------------------------------------------------- Java mode

  /** The encoding that Java uses: the null character has two bytes. */
  function JavaEncode(cp: int): (b: seq<int>)
    requires Allowed(cp)
  {
    if cp == 0 then [0xc0, 0x80] else Encode(cp)
  }

  function JavaEncodeAll(cps: seq<int>): seq<int>
    requires AllAllowed(cps)
  {
    if cps == [] then [] else JavaEncode(cps[0]) + JavaEncodeAll(cps[1..])
  }

  /** The mode matters only after a null byte or 80. */
  lemma JavaSame(b: seq<int>)
    requires b != [] && b[0] != 0 && b[0] != 0x80
    ensures ReadOne(b, true) == ReadOne(b, false)
  {
  }

  lemma EncodeFirst(cp: int)
    requires Allowed(cp) && cp != 0
    ensures Encode(cp)[0] != 0 && Encode(cp)[0] != 0x80
  {
  }

  /** The test for the null character has its two bytes in the wrong order.  Every
      other character is read, and the null character is always malformed. */
  lemma JavaOne(cp: int, rest: seq<int>)
    requires Allowed(cp)
    ensures ReadOne(JavaEncode(cp) + rest, true) == if cp == 0 then Malformed else Char(cp, |JavaEncode(cp)|)
  {
    if cp != 0 {
      EncodeFirst(cp);
      hide ReadOne, Encode;
      JavaSame(Encode(cp) + rest);
      ReadEncoded(cp, rest);
    }
  }

  /** The characters in front of the first null. */
  function BeforeNull(cps: seq<int>): seq<int>
  {
    if cps == [] || cps[0] == 0 then [] else [cps[0]] + BeforeNull(cps[1..])
  }

  lemma {:induction false} BeforeNullAll(cps: seq<int>)
    ensures BeforeNull(cps) == cps <==> 0 !in cps
  {
    if cps != [] && cps[0] != 0 {
      BeforeNullAll(cps[1..]);
      assert cps == [cps[0]] + cps[1..];
    }
  }

  lemma JavaStep(e: seq<int>, rest: seq<int>, room: nat, cp: int)
    requires e != [] && room > 0
    requires ReadOne(e + rest, true) == if cp == 0 then Malformed else Char(cp, |e|)
    ensures var r := ReadSlice(e + rest, true, room);
      if cp == 0 then r.chars == [] && r.malformed
      else
        var r' := ReadSlice(rest, true, room - 1);
        r.chars == [cp] + r'.chars && r.malformed == r'.malformed
  {
    hide ReadOne;
    assert (e + rest)[|e|..] == rest;
  }

  /** In Java mode a list is read up to its first null character, where it fails. */
  lemma {:induction false} JavaRead(cps: seq<int>, room: nat)
    requires AllAllowed(cps) && room >= |cps|
    ensures var r := ReadSlice(JavaEncodeAll(cps), true, room);
      r.chars == BeforeNull(cps) && (r.malformed <==> 0 in cps)
    decreases |cps|
  {
    hide ReadOne, Encode, Allowed;
    if cps != [] {
      var e, rest := JavaEncode(cps[0]), JavaEncodeAll(cps[1..]);
      JavaOne(cps[0], rest);
      JavaStep(e, rest, room, cps[0]);
      hide ReadSlice;
      if cps[0] != 0 {
        JavaRead(cps[1..], room - 1);
      }
    }
  }

  /** Main result on Java mode: the Java encoding of a list is decoded to this list if
      and only if the list has no null character. */
  lemma JavaDecodes(cps: seq<int>, room: nat)
    requires AllAllowed(cps) && room >= |cps|
    ensures var r := ReadSlice(JavaEncodeAll(cps), true, room);
      (r.chars == cps && !r.malformed) <==> 0 !in cps
  {
    hide ReadSlice, JavaEncodeAll;
    JavaRead(cps, room);
    BeforeNullAll(cps);
  }

  /** A list that fails. */
  lemma JavaNullRejected()
    ensures JavaEncodeAll([65, 0]) == [65, 0xc0, 0x80]
    ensures ReadSlice([65, 0xc0, 0x80], true, 2) == Slice([65], [1], true)
  {
    var b := [65, 0xc0, 0x80];
    assert JavaEncodeAll([65, 0][1..]) == [0xc0, 0x80];
    assert b[1..] == [0xc0, 0x80] && ReadOne(b, true) == Char(65, 1) && ReadOne(b[1..], true) == Malformed;
    assert ReadSlice(b[1..], true, 1) == Slice([], [], true);
  }
}
