/** Sequences of words, and what writing a run of words into one changes. */
module Words {

  /** `d` with `words` written at word `pos`. */
  ghost function Splice(d: seq<int>, pos: nat, words: seq<int>): (r: seq<int>)
    requires pos + |words| <= |d|
    ensures |r| == |d|
  {
    d[..pos] + words + d[pos + |words|..]
  }

  /** Nothing outside of `words` words at `pos` has changed. */
  ghost predicate OnlyBlock(d: seq<int>, d': seq<int>, pos: nat, words: nat)
  {
    |d| == |d'| && forall j :: 0 <= j < |d| && !(pos <= j < pos + words) ==> d'[j] == d[j]
  }

  lemma SpliceOnly(d: seq<int>, pos: nat, words: seq<int>)
    requires pos + |words| <= |d|
    ensures OnlyBlock(d, Splice(d, pos, words), pos, |words|)
  {
  }

  lemma SameBlock(d: seq<int>, pos: nat, words: nat)
    ensures OnlyBlock(d, d, pos, words)
  {
  }

  lemma SpliceTwice(d: seq<int>, pos: nat, a: seq<int>, b: seq<int>)
    requires pos + |a| + |b| <= |d|
    ensures Splice(Splice(d, pos, a), pos + |a|, b) == Splice(d, pos, a + b)
  {
  }

  lemma SpliceParts(d: seq<int>, pos: nat, words: seq<int>)
    requires pos + |words| <= |d|
    ensures Splice(d, pos, words)[..pos + |words|] == d[..pos] + words
    ensures Splice(d, pos, words)[pos + |words|..] == d[pos + |words|..]
  {
  }

  lemma SliceMiddle(a: seq<int>, b: seq<int>, c: seq<int>, e: nat)
    requires |a| + e <= |b|
    ensures (a + b[|a|..] + c)[|a|..|a| + e] == b[|a|..|a| + e]
  {
  }

  lemma SpliceMiddle(a: seq<int>, b: seq<int>, c: seq<int>, was: seq<int>, now: seq<int>, x: seq<int>)
    requires |was| == |now| && |a| + |was| + |x| <= |b|
    requires b[|a|..|a| + |was| + |x|] == was + x
    ensures var d := a + b[|a|..] + c;
      Splice(d, |a|, now) == (a + (now + x)) + b[|a| + |was| + |x|..] + c
  {
    var d, e := a + b[|a|..] + c, |a| + |was| + |x|;
    assert b[|a|..] == was + x + b[e..];
    assert d == a + was + (x + b[e..] + c);
    assert d[|a| + |now|..] == x + b[e..] + c;
  }

  lemma SameSuffix(a: seq<int>, b: seq<int>, i: nat, j: nat)
    requires i <= j <= |a| == |b| && a[i..] == b[i..]
    ensures a[j..] == b[j..]
  {
    assert a[j..] == a[i..][j - i..];
    assert b[j..] == b[i..][j - i..];
  }

  lemma SpliceSame(d: seq<int>, pos: nat, words: seq<int>)
    requires pos + |words| <= |d| && d[pos..pos + |words|] == words
    ensures Splice(d, pos, words) == d
  {
    assert d == d[..pos] + d[pos..pos + |words|] + d[pos + |words|..];
  }

  /** Writing a block with an unchanged first word only writes the rest. */
  lemma SpliceRest(d: seq<int>, pos: nat, first: int, was: seq<int>, now: seq<int>)
    requires |was| == |now| && pos + 1 + |was| <= |d|
    requires d[pos..pos + 1 + |was|] == [first] + was
    ensures d[pos + 1..pos + 1 + |was|] == was
    ensures Splice(d, pos, [first] + now) == Splice(d, pos + 1, now)
  {
    var e := d[pos..pos + 1 + |was|];
    assert d[pos + 1..pos + 1 + |was|] == e[1..];
    assert d[pos] == e[0];
  }

  lemma SliceFront(d: seq<int>, pos: nat, a: seq<int>, b: seq<int>)
    requires pos + |a| + |b| <= |d| && d[pos..pos + |a| + |b|] == a + b
    ensures d[pos..pos + |a|] == a
  {
    assert d[pos..pos + |a|] == d[pos..pos + |a| + |b|][..|a|];
  }

  lemma SliceBack(d: seq<int>, a: seq<int>, b: seq<int>)
    requires |a| + |b| <= |d| && d[..|a| + |b|] == a + b
    ensures d[|a|..|a| + |b|] == b
  {
    assert d[|a|..|a| + |b|] == d[..|a| + |b|][|a|..];
  }

  lemma SliceAt(d: seq<int>, pos: nat, n: nat, i: nat)
    requires pos + n <= |d| && i < n
    ensures d[pos + i] == d[pos..pos + n][i]
  {
  }

  lemma EntryAt(d: seq<int>, pos: nat, entry: seq<int>, i: nat)
    requires pos + |entry| <= |d| && d[pos..pos + |entry|] == entry && i < |entry|
    ensures d[pos + i] == entry[i]
  {
  }

  lemma SpliceSet(d: seq<int>, pos: nat, words: seq<int>, i: nat, v: int)
    requires pos + |words| <= |d| && i < |words|
    ensures Splice(d, pos, words)[pos + i := v] == Splice(d, pos, words[i := v])
  {
  }

  lemma SpliceAt(d: seq<int>, pos: nat, words: seq<int>, i: nat)
    requires pos + |words| <= |d| && i < |words|
    ensures Splice(d, pos, words)[pos + i] == words[i]
  {
  }

  lemma TakeAppend(a: seq<int>, b: seq<int>, n: nat)
    requires n <= |a|
    ensures (a + b)[..n] == a[..n]
  {
  }

  lemma StartParts(image: seq<int>, d: seq<int>, cur: nat)
    requires cur <= |d| && d[..cur] == image
    ensures d == [] + image[0..] + d[cur..]
  {
    assert d == d[..cur] + d[cur..];
  }

  lemma EndParts(a: seq<int>, b: seq<int>, c: seq<int>)
    ensures a + b[|b|..] + c == a + c
  {
  }
}
