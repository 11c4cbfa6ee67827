/** The container file of NVClasses-0.9.1/NVcontainer.cc as an array of words: header fields,
    in-place free list and live blocks share one array, replaced by a longer one on growth. */
module Container {
  import opened FreeList

  // Word offsets of the header fields.
  const MAGIC: nat := 0 // hlen and version
  const SIZE: nat := 1
  const MTIME: nat := 2
  const FREELIST: nat := 3
  const BYTES_FREE: nat := 4
  const USERDATA: nat := 5

  /** hlen == 48 and version == 2, packed into one word. */
  const MAGIC_WORD := 48 + 2 * 0x1_0000_0000

  // ----- how a view is laid out in memory -----

  /** The block a free block links to: the list is circular. */
  function NextOff(free: seq<Block>, k: nat): nat
    requires k < |free|
  {
    if k + 1 < |free| then free[k + 1].off else free[0].off
  }

  /** A block's in-place header {next, size}. */
  predicate HeaderAt(w: seq<int>, b: Block, next: nat) {
    b.off + 1 < |w| && w[b.off] == next && w[b.off + 1] == b.size
  }

  ghost predicate Links(w: seq<int>, free: seq<Block>) {
    forall k :: 0 <= k < |free| ==> HeaderAt(w, free[k], NextOff(free, k))
  }

  ghost predicate Sizes(w: seq<int>, live: map<nat, nat>) {
    forall b :: b in live ==> b < |w| && w[b] == live[b]
  }

  ghost predicate Header(w: seq<int>, v: View) {
    && |w| == v.size > HLEN && v.free != []
    && w[MAGIC] == MAGIC_WORD && w[SIZE] == v.size
    && w[FREELIST] == v.free[|v.free| - 1].off && w[BYTES_FREE] == FreeSum(v.free)
  }

  ghost predicate Rep(w: seq<int>, v: View) {
    Header(w, v) && Links(w, v.free) && Sizes(w, v.live)
  }

  /** No word of these live blocks differs. */
  ghost predicate Kept(w: seq<int>, u: seq<int>, live: map<nat, nat>) {
    forall x :: 0 <= x < |w| && x < |u| && InLive(live, x) ==> u[x] == w[x]
  }

  // ----- one splice of the in-place list -----

  /** The free block whose link leads to block i. */
  function Pred(free: seq<Block>, i: nat): nat
    requires i <= |free| && free != []
    ensures Pred(free, i) < |free|
  {
    if i > 0 then i - 1 else |free| - 1
  }

  /** Where block j starts, read circularly. */
  function Succ(free: seq<Block>, i: nat, j: nat, m: Block): nat
    requires i <= j <= |free|
  {
    if j < |free| then free[j].off else if i > 0 then free[0].off else m.off
  }

  /** u is w with the words written that make free blocks i up to j the block m. */
  ghost predicate Spliced(w: seq<int>, u: seq<int>, free: seq<Block>, i: nat, j: nat, m: Block)
    requires free != [] && i <= j <= |free|
  {
    var p := Pred(free, i);
    && |u| == |w|
    && (forall x :: 0 <= x < |w| && x !in {FREELIST, BYTES_FREE, m.off, m.off + 1, free[p].off} ==> u[x] == w[x])
    && m.off + 1 < |u| && u[m.off] == Succ(free, i, j, m) && u[m.off + 1] == m.size
    && free[p].off < |u| && (!(i <= p < j) ==> u[free[p].off] == m.off)
  }

  /** w with the header {next, size} written at off and the tail offset in the file header. */
  function Own(w: seq<int>, off: nat, next: int, size: int, tail: int): seq<int>
    requires off + 1 < |w| && FREELIST < |w|
  {
    w[off := next][off + 1 := size][FREELIST := tail]
  }

  /** The link to m is already there, or m is the only block. */
  lemma SplicedOwn(w: seq<int>, free: seq<Block>, i: nat, j: nat, m: Block, tail: int)
    requires free != [] && i <= j <= |free| && HLEN <= m.off && m.off + 1 < |w|
    requires var p := Pred(free, i);
      && HLEN <= free[p].off < |w|
      && (!(i <= p < j) ==> w[free[p].off] == m.off && free[p].off != m.off && free[p].off != m.off + 1)
    ensures Spliced(w, Own(w, m.off, Succ(free, i, j, m), m.size, tail), free, i, j, m)
  {
  }

  lemma SplicedLinked(w: seq<int>, free: seq<Block>, i: nat, j: nat, m: Block, tail: int)
    requires free != [] && i <= j <= |free| && HLEN <= m.off && m.off + 1 < |w|
    requires var p := Pred(free, i);
      HLEN <= free[p].off < |w| && free[p].off != m.off && free[p].off != m.off + 1
    ensures Spliced(w, Own(w, m.off, Succ(free, i, j, m), m.size, tail)[free[Pred(free, i)].off := m.off],
                    free, i, j, m)
  {
  }

  /** u is w with free block k unlinked. */
  ghost predicate Unlinked(w: seq<int>, u: seq<int>, free: seq<Block>, k: nat)
    requires k < |free|
  {
    var p := Pred(free, k);
    && |u| == |w|
    && (forall x :: 0 <= x < |w| && x !in {FREELIST, BYTES_FREE, free[p].off} ==> u[x] == w[x])
    && free[p].off < |u| && u[free[p].off] == NextOff(free, k)
  }

  /** Distinct free blocks have distinct header words, all of them above the file header. */
  lemma HeadersApart(free: seq<Block>, hi: nat, a: nat, b: nat)
    requires FreeOk(free, hi) && a < |free| && b < |free| && a != b
    ensures free[a].off + 1 < free[a].End() < free[b].off || free[b].off + 1 < free[b].End() < free[a].off
    ensures HLEN <= free[a].off
  {
    hide Even;
    if a < b {
      assert free[a].End() < free[b].off;
    } else {
      assert free[b].End() < free[a].off;
    }
  }

  /** Links in the spliced list, by the links in the old one. */
  lemma SplicedNext(free: seq<Block>, i: nat, j: nat, m: Block, a: nat)
    requires free != [] && i <= j <= |free|
    ensures var c := Splice(free, i, j, [m]);
      && c[i] == m && NextOff(c, i) == Succ(free, i, j, m)
      && (a < i ==> c[a] == free[a] && NextOff(c, a) == if a == Pred(free, i) then m.off else NextOff(free, a))
      && (i < a < |c| ==>
           var o := a - i - 1 + j;
           c[a] == free[o] && NextOff(c, a) == if o == Pred(free, i) then m.off else NextOff(free, o))
  {
  }

  lemma UnlinkedNext(free: seq<Block>, k: nat, a: nat)
    requires k < |free| - 1 && a < |free| - 1
    ensures var c, o := Splice(free, k, k + 1, []), if a < k then a else a + 1;
      && |c| == |free| - 1 && c[a] == free[o]
      && NextOff(c, a) == if o == Pred(free, k) then NextOff(free, k) else NextOff(free, o)
  {
  }

  /** Unlinking writes no header word but the link of the predecessor. */
  lemma UnlinkedWords(w: seq<int>, u: seq<int>, free: seq<Block>, hi: nat, k: nat, o: nat)
    requires FreeOk(free, hi) && k < |free| && Unlinked(w, u, free, k)
    requires o < |free| && HeaderAt(w, free[o], NextOff(free, o))
    ensures HeaderAt(u, free[o], if o == Pred(free, k) then NextOff(free, k) else NextOff(free, o))
  {
    hide FreeOk;
    var p := Pred(free, k);
    if o != p {
      HeadersApart(free, hi, o, p);
    }
    SizeAtLeast(free, hi, o);
  }

  lemma UnlinkedLinks(w: seq<int>, u: seq<int>, free: seq<Block>, hi: nat, k: nat)
    requires FreeOk(free, hi) && Links(w, free) && k < |free| - 1 && Unlinked(w, u, free, k)
    ensures Links(u, Splice(free, k, k + 1, []))
  {
    hide FreeOk, Unlinked, HeaderAt, NextOff;
    var c := Splice(free, k, k + 1, []);
    forall a | 0 <= a < |c|
      ensures HeaderAt(u, c[a], NextOff(c, a))
    {
      var o := if a < k then a else a + 1;
      UnlinkedNext(free, k, a);
      assert HeaderAt(w, free[o], NextOff(free, o));
      UnlinkedWords(w, u, free, hi, k, o);
    }
  }

  lemma SplicedWords(w: seq<int>, u: seq<int>, free: seq<Block>, hi: nat, i: nat, j: nat, m: Block, o: nat)
    requires FreeOk(free, hi) && i <= j <= |free| && Spliced(w, u, free, i, j, m)
    requires o < |free| && !(i <= o < j) && HeaderAt(w, free[o], NextOff(free, o))
    requires free[o].End() < m.off || m.End() < free[o].off
    requires m.size >= LINK
    ensures HeaderAt(u, free[o], if o == Pred(free, i) then m.off else NextOff(free, o))
  {
    hide FreeOk;
    SizeAtLeast(free, hi, o);
    if o != Pred(free, i) {
      HeadersApart(free, hi, o, Pred(free, i));
    }
  }

  lemma SplicedLinks(w: seq<int>, u: seq<int>, free: seq<Block>, hi: nat, i: nat, j: nat, m: Block)
    requires FreeOk(free, hi) && Links(w, free) && i <= j <= |free| && Spliced(w, u, free, i, j, m)
    requires forall a :: 0 <= a < |free| && !(i <= a < j) ==> free[a].End() < m.off || m.End() < free[a].off
    requires m.size >= LINK
    ensures Links(u, Splice(free, i, j, [m]))
  {
    SplicedMid(w, u, free, i, j, m);
    hide FreeOk, Spliced, HeaderAt, NextOff;
    var c := Splice(free, i, j, [m]);
    forall a | 0 <= a < |c|
      ensures HeaderAt(u, c[a], NextOff(c, a))
    {
      SplicedNext(free, i, j, m, a);
      if a != i {
        var o := if a < i then a else a - i - 1 + j;
        assert HeaderAt(w, free[o], NextOff(free, o));
        SplicedWords(w, u, free, hi, i, j, m, o);
      }
    }
  }

  lemma SplicedMid(w: seq<int>, u: seq<int>, free: seq<Block>, i: nat, j: nat, m: Block)
    requires free != [] && i <= j <= |free| && Spliced(w, u, free, i, j, m)
    ensures HeaderAt(u, m, Succ(free, i, j, m))
  {
  }

  lemma SizeAtLeast(free: seq<Block>, hi: nat, k: nat)
    requires FreeOk(free, hi) && k < |free|
    ensures LINK <= free[k].size && HLEN <= free[k].off && free[k].End() <= hi
  {
    hide Even;
  }

  // ----- the whole effect of one call on memory -----

  /** The file header and the live blocks after the words of an unlinking or a splice. */
  lemma FreeWordsKept(v: View, x: nat)
    requires Inv(v)
    ensures x < HLEN || InFree(v.free, x) ==> !InLive(v.live, x)
  {
    hide Even;
    if InFree(v.free, x) {
      InFreeBounds(v, x);
    }
    InLiveBounds(v, x);
  }

  lemma HeaderWordsFree(v: View, k: nat)
    requires Inv(v) && k < |v.free|
    ensures InFree(v.free, v.free[k].off) && InFree(v.free, v.free[k].off + 1)
  {
    hide Even;
    assert v.free[k].off + 1 < v.free[k].End();
  }

  lemma LiveSubset(l: map<nat, nat>, live: map<nat, nat>, x: nat)
    requires forall b :: b in l ==> b in live && live[b] == l[b]
    ensures InLive(l, x) ==> InLive(live, x)
  {
  }

  lemma UnlinkedKept(v: View, w: seq<int>, u: seq<int>, k: nat)
    requires Inv(v) && k < |v.free| && Unlinked(w, u, v.free, k)
    ensures Kept(w, u, v.live)
  {
    hide Inv, InFree;
    forall x | 0 <= x < |w| && InLive(v.live, x)
      ensures u[x] == w[x]
    {
      FreeWordsKept(v, x);
      HeaderWordsFree(v, Pred(v.free, k));
    }
  }

  /** l: the blocks live both before and after. */
  lemma SplicedKept(v: View, l: map<nat, nat>, w: seq<int>, u: seq<int>, i: nat, j: nat, m: Block)
    requires Inv(v) && v.free != [] && i <= j <= |v.free| && Spliced(w, u, v.free, i, j, m)
    requires forall b :: b in l ==> b in v.live && v.live[b] == l[b]
    requires !InLive(l, m.off) && !InLive(l, m.off + 1)
    ensures Kept(w, u, l)
  {
    hide Inv, InFree, InLive;
    forall x | 0 <= x < |w| && InLive(l, x)
      ensures u[x] == w[x]
    {
      LiveSubset(l, v.live, x);
      FreeWordsKept(v, x);
      HeaderWordsFree(v, Pred(v.free, i));
    }
  }

  lemma KeptSizes(w: seq<int>, u: seq<int>, live: map<nat, nat>, hi: nat)
    requires Sizes(w, live) && LiveOk(live, hi) && Kept(w, u, live) && |w| <= |u|
    ensures Sizes(u, live)
  {
    forall b | b in live
      ensures b < |u| && u[b] == live[b]
    {
      assert InLive(live, b);
    }
  }

  /** u is the grown file: w with the new sizes written, followed by zeros. */
  ghost predicate Grown(w: seq<int>, u: seq<int>, v: View, n: nat)
    requires v.free != []
  {
    var t := v.free[|v.free| - 1];
    && |u| == n >= |w|
    && (forall x :: 0 <= x < |w| && x !in {SIZE, BYTES_FREE, t.off + 1} ==> u[x] == w[x])
    && SIZE < |w| && u[SIZE] == n && BYTES_FREE < |w| && u[BYTES_FREE] == w[BYTES_FREE] + n - |w|
    && t.off + 1 < |w| && u[t.off + 1] == w[t.off + 1] + n - |w|
  }

  lemma CarveTail(free: seq<Block>, k: nat, rsz: nat)
    requires k < |free| && (k == |free| - 1 ==> rsz + LINK <= free[k].size)
    ensures var c := Carve(free, k, rsz);
      c != [] && c[|c| - 1].off == if k == |free| - 1 then free[k].off + rsz else free[|free| - 1].off
  {
  }

  lemma GrownLinks(v: View, w: seq<int>, u: seq<int>, n: nat)
    requires FreeOk(v.free, |w|) && Links(w, v.free) && Grown(w, u, v, n)
    ensures Links(u, Stretch(v.free, n - |w|))
  {
    hide Fits, Spaced;
    var g, t := Stretch(v.free, n - |w|), |v.free| - 1;
    forall k | 0 <= k < |g|
      ensures HeaderAt(u, g[k], NextOff(g, k))
    {
      assert HeaderAt(w, v.free[k], NextOff(v.free, k));
      SizeAtLeast(v.free, |w|, k);
      if k != t {
        HeadersApart(v.free, |w|, k, t);
      }
    }
  }

  lemma GrownRep(v: View, w: seq<int>, u: seq<int>, nsz: nat)
    requires Inv(v) && Rep(w, v) && v.size <= nsz && Grown(w, u, v, PageUp(nsz))
    ensures Rep(u, Grow(v, nsz)) && Kept(w, u, v.live)
  {
    hide Inv, Header, Links, Sizes, Kept, Grow, Grown;
    var n := PageUp(nsz);
    TailHeader(v, w);
    InvParts(v);
    GrowShape(v, nsz);
    GrownHeader(v, w, u, nsz);
    GrownLinks(v, w, u, n);
    GrownKept(v, w, u, n);
    KeptSizes(w, u, v.live, v.size);
    GrowIs(v, nsz);
  }

  lemma GrowIs(v: View, nsz: nat)
    requires v.free != [] && v.size <= nsz
    ensures Grow(v, nsz) == View(PageUp(nsz), Stretch(v.free, PageUp(nsz) - v.size), v.live)
  {
    hide Stretch;
  }

  lemma GrownHeader(v: View, w: seq<int>, u: seq<int>, nsz: nat)
    requires Inv(v) && Rep(w, v) && v.size <= nsz && Grown(w, u, v, PageUp(nsz))
    ensures Header(u, Grow(v, nsz)) && |w| <= |u|
  {
    hide FreeOk, LiveOk, FreeSum, LiveSum, Tiled, Links, Sizes, Stretch;
    TailHeader(v, w);
    StretchOk(v.free, v.size, PageUp(nsz) - v.size);
    GrowShape(v, nsz);
  }

  lemma GrownKept(v: View, w: seq<int>, u: seq<int>, n: nat)
    requires Inv(v) && v.free != [] && Grown(w, u, v, n)
    ensures Kept(w, u, v.live)
  {
    hide Inv, FreeSum, LiveSum, InFree, InLive;
    forall x | 0 <= x < |w| && InLive(v.live, x)
      ensures u[x] == w[x]
    {
      FreeWordsKept(v, x);
      HeaderWordsFree(v, |v.free| - 1);
    }
  }

  lemma GrowNone(v: View, nsz: nat)
    requires nsz < v.size && v.free != []
    ensures Grow(v, nsz) == v
  {
  }

  lemma KeptTrans(w: seq<int>, u: seq<int>, z: seq<int>, live: map<nat, nat>)
    requires Kept(w, u, live) && Kept(u, z, live) && |w| <= |u|
    ensures Kept(w, z, live)
  {
  }

  lemma KeptAll(w: seq<int>, live: map<nat, nat>)
    ensures Kept(w, w, live)
  {
  }

  /** The header of free block k; only the tail has the tail's offset. */
  lemma HeaderOf(v: View, w: seq<int>, k: nat)
    requires Inv(v) && Rep(w, v) && k < |v.free|
    ensures var b := v.free[k];
      && HLEN <= b.off && b.off + 1 < |w| && w[b.off] == NextOff(v.free, k) && w[b.off + 1] == b.size
      && LINK <= b.size && b.End() <= |w|
      && (b.off == v.free[|v.free| - 1].off <==> k == |v.free| - 1)
  {
    hide Even, FreeSum, LiveSum, Tiled, LiveOk;
    assert HeaderAt(w, v.free[k], NextOff(v.free, k));
    if k != |v.free| - 1 {
      HeadersApart(v.free, v.size, k, |v.free| - 1);
    }
  }

  /** Where the header says the tail is, and its own header there. */
  lemma TailHeader(v: View, w: seq<int>)
    requires Inv(v) && Rep(w, v)
    ensures v.free != []
    ensures var t := v.free[|v.free| - 1];
      && |w| == v.size > HLEN && w[SIZE] == v.size && HLEN <= t.off && t.off + 1 < |w| && w[FREELIST] == t.off
      && w[t.off] == v.free[0].off && w[t.off + 1] == t.size && t.End() == v.size
  {
    hide Even, FreeSum, LiveSum;
    SizeAtLeast(v.free, v.size, |v.free| - 1);
    assert HeaderAt(w, v.free[|v.free| - 1], NextOff(v.free, |v.free| - 1));
  }

  /** u is w with the words written that take rsz words out of free block k. */
  ghost predicate TakenLink(w: seq<int>, u: seq<int>, free: seq<Block>, k: nat, rsz: nat)
    requires k < |free| && rsz <= free[k].size
  {
    var b := free[k];
    if b.size < rsz + LINK then Unlinked(w, u, free, k)
    else Spliced(w, u, free, k, k + 1, Block(b.off + rsz, b.size - rsz))
  }

  /** All that nvalloc writes in a file g that needs no growth, but for the size word. */
  ghost predicate Taken(g: View, w: seq<int>, u: seq<int>, k: nat, rsz: nat)
    requires k < |g.free| && rsz <= g.free[k].size
  {
    var c := Carve(g.free, k, rsz);
    && TakenLink(w, u, g.free, k, rsz)
    && HLEN < |u| == |w| && c != [] && u[FREELIST] == c[|c| - 1].off
    && u[BYTES_FREE] == w[BYTES_FREE] - Granted(g.free[k], rsz)
  }

  lemma TakenLinkFrame(w: seq<int>, u: seq<int>, z: seq<int>, free: seq<Block>, k: nat, rsz: nat)
    requires k < |free| && rsz <= free[k].size && TakenLink(w, u, free, k, rsz)
    requires |u| == |z| && (forall x :: 0 <= x < |z| && x != BYTES_FREE ==> z[x] == u[x])
    requires HLEN <= free[k].off && HLEN <= free[Pred(free, k)].off
    ensures TakenLink(w, z, free, k, rsz)
  {
  }

  lemma TakenLinks(g: View, w: seq<int>, u: seq<int>, k: nat, rsz: nat)
    requires FreeOk(g.free, g.size) && Links(w, g.free) && k < |g.free| && LINK <= rsz <= g.free[k].size
    requires k == |g.free| - 1 ==> rsz + LINK <= g.free[k].size
    requires TakenLink(w, u, g.free, k, rsz)
    ensures Links(u, Carve(g.free, k, rsz))
  {
    hide Fits, Unlinked, Spliced, Links;
    var b := g.free[k];
    if b.size < rsz + LINK {
      UnlinkedLinks(w, u, g.free, g.size, k);
    } else {
      SplicedLinks(w, u, g.free, g.size, k, k + 1, Block(b.off + rsz, b.size - rsz));
    }
  }

  lemma TakenKept(g: View, w: seq<int>, u: seq<int>, k: nat, rsz: nat)
    requires Inv(g) && k < |g.free| && LINK <= rsz <= g.free[k].size
    requires TakenLink(w, u, g.free, k, rsz)
    ensures Kept(w, u, g.live)
  {
    hide Inv, Unlinked, Spliced, Kept;
    var b := g.free[k];
    if b.size < rsz + LINK {
      UnlinkedKept(g, w, u, k);
    } else {
      FreeHas(g, k, b.off + rsz);
      FreeHas(g, k, b.off + rsz + 1);
      SplicedKept(g, g.live, w, u, k, k + 1, Block(b.off + rsz, b.size - rsz));
    }
  }

  /** The header words not rewritten. */
  lemma TakenHeader(g: View, w: seq<int>, u: seq<int>, k: nat, rsz: nat)
    requires Inv(g) && Rep(w, g) && k < |g.free| && LINK <= rsz <= g.free[k].size
    requires Taken(g, w, u, k, rsz)
    ensures u[MAGIC] == w[MAGIC] && u[SIZE] == w[SIZE] && u[MTIME] == w[MTIME] && u[USERDATA] == w[USERDATA]
    ensures |u| == g.size
  {
    hide Carve, Granted, FreeSum, LiveSum, Tiled, LiveOk, Links, Sizes, Even;
    SizeAtLeast(g.free, g.size, k);
    SizeAtLeast(g.free, g.size, Pred(g.free, k));
  }

  lemma FreeHas(g: View, k: nat, x: nat)
    requires Inv(g) && k < |g.free| && Has(g.free[k], x)
    ensures !InLive(g.live, x) && HLEN <= x < g.size && x !in g.live
  {
    hide Even;
    assert InFree(g.free, x);
    assert x in g.live ==> InLive(g.live, x);
  }

  /** The size word of the new block touches neither a header nor a live block. */
  lemma SizeWordLinks(u: seq<int>, c: seq<Block>, hi: nat, x: nat, n: int)
    requires Links(u, c) && x < |u| && !InFree(c, x) && FreeOk(c, hi)
    ensures Links(u[x := n], c)
  {
    hide Even, Spaced;
    forall k | 0 <= k < |c|
      ensures HeaderAt(u[x := n], c[k], NextOff(c, k))
    {
      assert HeaderAt(u, c[k], NextOff(c, k));
      assert c[k].off + 1 < c[k].End();
    }
  }

  lemma TakenRep(g: View, w: seq<int>, u: seq<int>, k: nat, rsz: nat)
    requires Inv(g) && Rep(w, g) && k < |g.free| && LINK <= rsz <= g.free[k].size && Even(rsz)
    requires k == |g.free| - 1 ==> rsz + LINK <= g.free[k].size
    requires Taken(g, w, u, k, rsz)
    ensures var b := g.free[k];
      var z, n := u[b.off := Granted(b, rsz)], Granted(b, rsz);
      && Rep(z, View(g.size, Carve(g.free, k, rsz), g.live[b.off := n]))
      && Kept(w, z, g.live) && z[MTIME] == w[MTIME] && z[USERDATA] == w[USERDATA]
  {
    hide Inv, Links, Kept, InFree, InLive, FreeSum, LiveSum, Carve, Granted, TakenLink, Sizes;
    var b, n, c := g.free[k], Granted(g.free[k], rsz), Carve(g.free, k, rsz);
    InvParts(g);
    TakenHeader(g, w, u, k, rsz);
    TakenLinks(g, w, u, k, rsz);
    TakenKept(g, w, u, k, rsz);
    FreeHas(g, k, b.off);
    CarveWords(g.free, g.size, k, rsz, b.off);
    CarveOk(g.free, g.size, k, rsz);
    CarveSum(g.free, k, rsz);
    GrantedHas(b, rsz);
    SizeWordLinks(u, c, g.size, b.off, n);
    SizeWordKept(w, u, g.live, b.off, n);
    KeptSizes(w, u, g.live, g.size);
    SizeWordSizes(u, g.live, b.off, n);
  }

  lemma AllocIs(v: View, bytes: nat, g: View, k: nat)
    requires v.free != [] && g == Prepared(v, RoundUp(bytes)) && k == FirstFit(v.free, RoundUp(bytes))
    ensures k < |g.free| && Remnant(v, bytes) == g.free[k].size
    ensures Alloc(v, bytes) == (View(g.size, Carve(g.free, k, RoundUp(bytes)),
                                     g.live[g.free[k].off := Granted(g.free[k], RoundUp(bytes))]), g.free[k].off)
  {
  }

  /** The size of the free block stays in its second word. */
  lemma TakenRemnant(g: View, w: seq<int>, u: seq<int>, k: nat, rsz: nat)
    requires Inv(g) && Rep(w, g) && k < |g.free| && LINK <= rsz <= g.free[k].size && Even(rsz)
    requires Taken(g, w, u, k, rsz)
    ensures g.free[k].off + 1 < |u| && u[g.free[k].off + 1] == g.free[k].size
  {
    hide Inv, Rep, Carve, Granted, FreeSum, Even;
    HeaderOf(g, w, k);
    PredApart(g, k);
    HeaderOf(g, w, Pred(g.free, k));
  }

  lemma InvParts(v: View)
    requires Inv(v)
    ensures FreeOk(v.free, v.size) && LiveOk(v.live, v.size) && v.free != []
  {
  }

  /** A block and the one linking to it. */
  lemma PredApart(v: View, k: nat)
    requires Inv(v) && k < |v.free|
    ensures var b, p := v.free[k], v.free[Pred(v.free, k)];
      Pred(v.free, k) == k || b.End() < p.off || p.off + 1 < p.End() < b.off
  {
    hide Even;
    if Pred(v.free, k) != k {
      HeadersApart(v.free, v.size, k, Pred(v.free, k));
    }
  }

  lemma GrantedHas(b: Block, rsz: nat)
    requires LINK <= rsz <= b.size
    ensures Has(Block(b.off, Granted(b, rsz)), b.off) && Has(b, b.off)
  {
  }

  lemma SizeWordKept(w: seq<int>, u: seq<int>, live: map<nat, nat>, x: nat, n: int)
    requires Kept(w, u, live) && x < |u| && !InLive(live, x)
    ensures Kept(w, u[x := n], live)
  {
  }

  lemma SizeWordSizes(u: seq<int>, live: map<nat, nat>, x: nat, n: nat)
    requires Sizes(u, live) && x < |u| && x !in live
    ensures Sizes(u[x := n], live[x := n])
  {
  }

  lemma FirstFitIs(free: seq<Block>, rsz: nat, k: nat)
    requires k < |free|
    requires forall i :: 0 <= i < k ==> free[i].size < rsz
    requires k < |free| - 1 ==> rsz <= free[k].size
    ensures FirstFit(free, rsz) == k
  {
    hide FirstFit;
  }

  // ----- freeing -----

  /** Where the freed block lies among the free ones: k is the first above it. */
  lemma Neighbours(v: View, b: nat)
    requires Inv(v) && b in v.live
    ensures var k, f := Below(v.free, b), Block(b, v.live[b]);
      && k < |v.free| && f.End() <= v.free[k].off && HLEN <= b && LINK <= f.size
      && (k > 0 ==> v.free[k - 1].End() <= b)
      && (forall i :: 0 <= i < |v.free| ==> v.free[i].End() <= b || f.End() <= v.free[i].off)
      && (v.free[Pred(v.free, k)].End() == b <==> TouchesLeft(v.free, f))
      && (v.free[k].off == f.End() <==> TouchesRight(v.free, f))
  {
    hide Even, Below;
    LiveApart(v, b);
    BelowApart(v.free, Block(b, v.live[b]));
  }

  /** u is w with the words written that put f among the free blocks. */
  ghost predicate Joined(w: seq<int>, u: seq<int>, free: seq<Block>, f: Block)
    requires free != []
  {
    Spliced(w, u, free, First(free, f), Last(free, f), Merged(free, f))
  }

  /** All that nvfree writes. */
  ghost predicate Freed(v: View, w: seq<int>, u: seq<int>, b: nat)
    requires b in v.live && v.free != []
  {
    var c := Release(v.free, Block(b, v.live[b]));
    && Joined(w, u, v.free, Block(b, v.live[b]))
    && HLEN < |u| && u[FREELIST] == c[|c| - 1].off
    && u[BYTES_FREE] == w[BYTES_FREE] + v.live[b]
  }

  /** Only a single block links to itself. */
  lemma NextSelf(v: View, w: seq<int>, k: nat)
    requires Inv(v) && Rep(w, v) && k < |v.free|
    ensures NextOff(v.free, k) == v.free[k].off <==> |v.free| == 1
  {
    hide Even, FreeSum, LiveSum;
    if |v.free| > 1 {
      HeadersApart(v.free, v.size, k, if k + 1 < |v.free| then k + 1 else 0);
    }
  }

  lemma SizeAt(v: View, w: seq<int>, b: nat)
    requires Inv(v) && Rep(w, v) && b in v.live
    ensures HLEN <= b && b + 1 < |w| && w[b] == v.live[b]
  {
    hide Even, FreeSum, LiveSum;
  }

  lemma JoinShape(free: seq<Block>, f: Block)
    ensures var k, l, r := Below(free, f.off), TouchesLeft(free, f), TouchesRight(free, f);
      && (l ==> k > 0) && (r ==> k < |free|)
      && First(free, f) == (if l then k - 1 else k) && Last(free, f) == (if r then k + 1 else k)
      && Merged(free, f) == Block(if l then free[k - 1].off else f.off,
           (if l then free[k - 1].size else 0) + f.size + if r then free[k].size else 0)
  {
    hide Below;
  }

  /** The words to write when the freed block touches the free block before it. */
  lemma LeftWrote(v: View, w: seq<int>, b: nat, tail: int)
    requires Inv(v) && Rep(w, v) && b in v.live && TouchesLeft(v.free, Block(b, v.live[b]))
    ensures var f, k := Block(b, v.live[b]), Below(v.free, b);
      && 0 < k < |v.free| && v.free[k - 1].off + 1 < |w| && FREELIST < |w|
      && var right := f.End() == v.free[k].off;
         Joined(w, Own(w, v.free[k - 1].off, if right then NextOff(v.free, k) else v.free[k].off,
                       v.free[k - 1].size + f.size + if right then v.free[k].size else 0, tail), v.free, f)
  {
    hide Inv, Rep, Below, Spliced, First, Last, Merged, TouchesLeft, TouchesRight;
    var f, k := Block(b, v.live[b]), Below(v.free, b);
    JoinShape(v.free, f);
    TailHeader(v, w);
    Neighbours(v, b);
    HeaderOf(v, w, k - 1);
    HeaderOf(v, w, Pred(v.free, k - 1));
    PredApart(v, k - 1);
    SplicedOwn(w, v.free, First(v.free, f), Last(v.free, f), Merged(v.free, f), tail);
  }

  /** The words to write when it does not. */
  ghost predicate RightJoined(w: seq<int>, free: seq<Block>, f: Block, tail: int) {
    var k := Below(free, f.off);
    && k < |free| && f.off + 1 < |w| && FREELIST < |w| && free[Pred(free, k)].off < |w|
    && var right := f.End() == free[k].off;
       var own := Own(w, f.off, if !right then free[k].off else if |free| == 1 then f.off else NextOff(free, k),
                      f.size + if right then free[k].size else 0, tail);
       Joined(w, if right && |free| == 1 then own else own[free[Pred(free, k)].off := f.off], free, f)
  }

  /** The link of what is left of free block k. */
  lemma SplitNext(g: View, w: seq<int>, k: nat, m: Block)
    requires Inv(g) && Rep(w, g) && k < |g.free|
    ensures var b, p := g.free[k], g.free[Pred(g.free, k)];
      && b.off < |w| && (p.off == b.off <==> Pred(g.free, k) == k)
      && Succ(g.free, k, k + 1, m) == (if p.off == b.off then m.off else w[b.off])
      && (p.off == b.off ==> |g.free| == 1)
  {
    hide Inv, Rep;
    HeaderOf(g, w, k);
    PredApart(g, k);
    InvTail(g);
  }

  lemma RightWrote(v: View, w: seq<int>, b: nat, tail: int)
    requires Inv(v) && Rep(w, v) && b in v.live && !TouchesLeft(v.free, Block(b, v.live[b]))
    ensures RightJoined(w, v.free, Block(b, v.live[b]), tail)
  {
    hide Inv, Rep, Below, Spliced, First, Last, Merged, TouchesLeft, TouchesRight;
    var f, k := Block(b, v.live[b]), Below(v.free, b);
    JoinShape(v.free, f);
    TailHeader(v, w);
    Neighbours(v, b);
    HeaderOf(v, w, k);
    HeaderOf(v, w, Pred(v.free, k));
    if f.End() == v.free[k].off && |v.free| == 1 {
      SplicedOwn(w, v.free, First(v.free, f), Last(v.free, f), Merged(v.free, f), tail);
    } else {
      SplicedLinked(w, v.free, First(v.free, f), Last(v.free, f), Merged(v.free, f), tail);
    }
  }

  /** Its three cases. */
  lemma RightCases(w: seq<int>, free: seq<Block>, f: Block, tail: int)
    requires RightJoined(w, free, f, tail)
    ensures var k := Below(free, f.off);
      && k < |free| && f.off + 1 < |w| && FREELIST < |w| && free[Pred(free, k)].off < |w|
      && (f.End() != free[k].off ==>
            Joined(w, Own(w, f.off, free[k].off, f.size, tail)[free[Pred(free, k)].off := f.off], free, f))
      && (f.End() == free[k].off && |free| == 1 ==>
            Joined(w, Own(w, f.off, f.off, f.size + free[k].size, tail), free, f))
      && (f.End() == free[k].off && |free| != 1 ==>
            Joined(w, Own(w, f.off, NextOff(free, k), f.size + free[k].size, tail)[free[Pred(free, k)].off := f.off],
                   free, f))
  {
    hide Joined, Below, NextOff, Pred;
  }

  /** The tail of the list after a release. */
  lemma ReleaseTail(v: View, b: nat)
    requires Inv(v) && b in v.live
    ensures var f, k, t := Block(b, v.live[b]), Below(v.free, b), |v.free| - 1;
      var c := Release(v.free, f);
      c != [] && c[|c| - 1].off ==
        if k == t && f.End() == v.free[t].off
        then (if TouchesLeft(v.free, f) then v.free[k - 1].off else b) else v.free[t].off
  {
    hide Inv, Below, Merged, Splice;
    var f := Block(b, v.live[b]);
    Neighbours(v, b);
    MergedOff(v.free, f);
    SpliceTail(v.free, First(v.free, f), Last(v.free, f), Merged(v.free, f));
  }

  lemma SpliceTail(free: seq<Block>, i: nat, j: nat, m: Block)
    requires i <= j <= |free|
    ensures var c := Splice(free, i, j, [m]);
      c != [] && c[|c| - 1] == if j == |free| then m else free[|free| - 1]
  {
  }

  lemma MergedOff(free: seq<Block>, f: Block)
    ensures Merged(free, f).off == if TouchesLeft(free, f) then free[Below(free, f.off) - 1].off else f.off
  {
  }

  /** Where a release writes headers: above the file header. */
  lemma JoinedAbove(v: View, b: nat)
    requires Inv(v) && b in v.live
    ensures var f := Block(b, v.live[b]);
      && HLEN <= Merged(v.free, f).off && Merged(v.free, f).size >= LINK && v.free != []
      && HLEN <= v.free[Pred(v.free, First(v.free, f))].off
      && v.free[Pred(v.free, First(v.free, f))].off < v.size
  {
    hide Inv, Below, Merged, First, Last;
    InvParts(v);
    Neighbours(v, b);
    SizeAtLeast(v.free, v.size, Pred(v.free, First(v.free, Block(b, v.live[b]))));
    LiveApart(v, b);
    InvLiveFits(v, b);
    MergedFits(v.free, v.size, Block(b, v.live[b]));
  }

  lemma InvLiveFits(v: View, b: nat)
    requires Inv(v) && b in v.live
    ensures Fits(Block(b, v.live[b]), v.size)
  {
    hide Even;
  }

  lemma JoinedFrame(v: View, w: seq<int>, u: seq<int>, z: seq<int>, b: nat)
    requires Inv(v) && b in v.live && v.free != [] && Joined(w, u, v.free, Block(b, v.live[b]))
    requires |u| == |z| && (forall x :: 0 <= x < |z| && x != BYTES_FREE ==> z[x] == u[x])
    ensures Joined(w, z, v.free, Block(b, v.live[b]))
  {
    hide Inv, Merged, First, Last;
    JoinedAbove(v, b);
  }

  lemma FreedKept(v: View, w: seq<int>, u: seq<int>, b: nat)
    requires Inv(v) && b in v.live && v.free != [] && Joined(w, u, v.free, Block(b, v.live[b]))
    ensures Kept(w, u, v.live - {b})
  {
    hide Inv, Spliced, Kept, Merged, First, Last;
    var f := Block(b, v.live[b]);
    var m := Merged(v.free, f);
    JoinedAbove(v, b);
    MergedNotLive(v, b, m.off);
    MergedNotLive(v, b, m.off + 1);
    SplicedKept(v, v.live - {b}, w, u, First(v.free, f), Last(v.free, f), m);
  }

  lemma MergedNotLive(v: View, b: nat, x: nat)
    requires Inv(v) && b in v.live && Has(Merged(v.free, Block(b, v.live[b])), x)
    ensures !InLive(v.live - {b}, x)
  {
    hide Inv, Merged, Release, InFree, InLive, Has;
    var f := Block(b, v.live[b]);
    FreeInv(v, b);
    InFreeOne(Merged(v.free, f), x);
    InvParts(v);
    ReleaseHas(v.free, f, x);
    FreeWordsKept(Free(v, b), x);
  }

  lemma ReleaseHas(free: seq<Block>, f: Block, x: nat)
    requires Has(Merged(free, f), x)
    ensures InFree(Release(free, f), x)
  {
    hide Merged;
    assert Release(free, f)[First(free, f)] == Merged(free, f);
  }

  lemma FreedRep(v: View, w: seq<int>, u: seq<int>, b: nat)
    requires Inv(v) && Rep(w, v) && b in v.live && Freed(v, w, u, b)
    ensures Rep(u, Free(v, b)) && Kept(w, u, v.live - {b})
    ensures u[MTIME] == w[MTIME] && u[USERDATA] == w[USERDATA]
  {
    hide Inv, Links, Sizes, Kept, Merged, First, Last, FreeSum, LiveSum, LiveOk, FreeOk;
    var f := Block(b, v.live[b]);
    InvParts(v);
    JoinedAbove(v, b);
    ReleaseSum(v.free, f);
    FreedKept(v, w, u, b);
    SubSizes(w, v.live, b);
    FreeInv(v, b);
    InvParts(Free(v, b));
    KeptSizes(w, u, v.live - {b}, v.size);
    FreedLinks(v, w, u, b);
  }

  lemma SubSizes(w: seq<int>, live: map<nat, nat>, b: nat)
    requires Sizes(w, live)
    ensures Sizes(w, live - {b})
  {
  }

  lemma FreedLinks(v: View, w: seq<int>, u: seq<int>, b: nat)
    requires Inv(v) && Links(w, v.free) && b in v.live && v.free != []
    requires Joined(w, u, v.free, Block(b, v.live[b]))
    ensures Links(u, Release(v.free, Block(b, v.live[b])))
  {
    hide Inv, Links, FreeOk, Merged, Spliced, Below, First, Last;
    var f := Block(b, v.live[b]);
    InvParts(v);
    JoinedAbove(v, b);
    MergedApart(v, b);
    SplicedLinks(w, u, v.free, v.size, First(v.free, f), Last(v.free, f), Merged(v.free, f));
  }

  /** The merged block keeps a gap to every block outside the spliced range. */
  lemma MergedApart(v: View, b: nat)
    requires Inv(v) && b in v.live
    ensures var f := Block(b, v.live[b]);
      var m, i, j := Merged(v.free, f), First(v.free, f), Last(v.free, f);
      && i <= j <= |v.free|
      && forall a :: 0 <= a < |v.free| && !(i <= a < j) ==> v.free[a].End() < m.off || m.End() < v.free[a].off
  {
    hide Even, Below, Merged, First, Last;
    var f := Block(b, v.live[b]);
    LiveApart(v, b);
    MergedGaps(v.free, v.size, f);
    var m, i, j := Merged(v.free, f), First(v.free, f), Last(v.free, f);
    forall a | 0 <= a < |v.free| && !(i <= a < j)
      ensures v.free[a].End() < m.off || m.End() < v.free[a].off
    {
      if a < i - 1 {
        assert v.free[a].End() < v.free[i - 1].off;
      } else if a > j {
        assert v.free[j].End() < v.free[a].off;
      }
    }
  }

  // ----- words that belong to the users of the file -----

  /** A word inside a live block is nobody's header. */
  lemma UserWord(v: View, w: seq<int>, b: nat, i: nat, x: int)
    requires Inv(v) && Rep(w, v) && b in v.live && b < i < b + v.live[b]
    ensures i < |w| && Rep(w[i := x], v)
  {
    hide Inv, FreeSum, LiveSum, HeaderAt, InFree;
    InParts(v, w, b);
    var u := w[i := x];
    assert InLive(v.live, i);
    FreeWordsKept(v, i);
    forall k | 0 <= k < |v.free|
      ensures HeaderAt(u, v.free[k], NextOff(v.free, k))
    {
      UserLink(v, w, k, i, x);
    }
    forall c | c in v.live
      ensures c < |u| && u[c] == v.live[c]
    {
      LiveDistinct(v, b, c);
    }
  }

  lemma InParts(v: View, w: seq<int>, b: nat)
    requires Inv(v) && Rep(w, v) && b in v.live
    ensures HLEN <= b && b + v.live[b] <= |w|
  {
    hide Even, FreeSum, LiveSum;
  }

  lemma HeaderWord(v: View, w: seq<int>, i: nat, x: int)
    requires Inv(v) && Rep(w, v) && (i == USERDATA || i == MTIME)
    ensures i < |w| && Rep(w[i := x], v)
  {
    hide Inv, FreeSum, LiveSum, HeaderAt;
    var u := w[i := x];
    forall k | 0 <= k < |v.free|
      ensures HeaderAt(u, v.free[k], NextOff(v.free, k))
    {
      HeaderOf(v, w, k);
      FileWordLink(w, v.free[k], NextOff(v.free, k), i, x);
    }
    forall b | b in v.live
      ensures b < |u| && u[b] == v.live[b]
    {
      SizeAt(v, w, b);
    }
  }

  lemma FileWordLink(w: seq<int>, f: Block, next: nat, i: nat, x: int)
    requires f.off + 1 < |w| && w[f.off] == next && w[f.off + 1] == f.size && i < HLEN <= f.off
    ensures HeaderAt(w[i := x], f, next)
  {
  }

  lemma LiveDistinct(v: View, b: nat, c: nat)
    requires Inv(v) && b in v.live && c in v.live
    ensures !(b < c < b + v.live[b])
  {
    hide Even, FreeSum, LiveSum;
  }

  lemma UserLink(v: View, w: seq<int>, k: nat, i: nat, x: int)
    requires Inv(v) && Rep(w, v) && k < |v.free| && i < |w| && !InFree(v.free, i)
    ensures HeaderAt(w[i := x], v.free[k], NextOff(v.free, k))
  {
    hide Inv, FreeSum, LiveSum, InFree;
    HeaderOf(v, w, k);
    HeaderWordsFree(v, k);
  }

  class NVcontainer {
    /** The mapped file. */
    var mem: array<int>

    ghost var view: View

    ghost predicate Valid()
      reads this, mem
    {
      Inv(view) && Rep(mem[..], view)
    }

    /** The layout open() writes into an empty file. */
    constructor ()
      ensures Valid() && fresh(mem) && view == FRESH && mem[USERDATA] == 0 && mem[MTIME] == 0
    {
      mem := new int[PAGE](_ => 0);
      view := FRESH;
      new;
      mem[MAGIC] := MAGIC_WORD;
      mem[SIZE] := PAGE;
      mem[FREELIST] := HLEN;
      mem[BYTES_FREE] := PAGE - HLEN;
      mem[HLEN] := HLEN;
      mem[HLEN + 1] := PAGE - HLEN;
      FreshInv();
      FreeSumOne(FRESH.free[0]);
    }

    method Resize(nsz: nat)
      requires Valid()
      modifies this, mem
      ensures Valid() && view == Grow(old(view), nsz)
      ensures mem == old(mem) || fresh(mem)
      ensures Kept(old(mem[..]), mem[..], view.live)
      ensures mem[MTIME] == old(mem[MTIME]) && mem[USERDATA] == old(mem[USERDATA])
    {
      hide Inv, Rep, Grow, Kept;
      TailHeader(view, mem[..]);
      GrowInv(view, nsz);
      GrowShape(view, nsz);
      if nsz < mem.Length {
        GrowNone(view, nsz);
        KeptAll(mem[..], view.live);
        return;
      }
      var flhead := mem[FREELIST];
      var n := PageUp(nsz);
      var grown := n - mem.Length;
      mem[BYTES_FREE] := mem[BYTES_FREE] + grown;
      mem[flhead + 1] := mem[flhead + 1] + grown;
      mem[SIZE] := n;
      var old_mem := mem;
      mem := new int[n](i requires 0 <= i reads old_mem => if i < old_mem.Length then old_mem[i] else 0);
      GrownRep(view, old(mem[..]), mem[..], nsz);
      view := Grow(view, nsz);
    }

    /** The search loop of nvalloc: the first suitable free block, and the one linking to it. */
    method Search(rsz: nat) returns (prv: nat, cur: nat, ghost k: nat)
      requires Valid()
      ensures view.free != [] && k == FirstFit(view.free, rsz)
      ensures cur == view.free[FirstFit(view.free, rsz)].off
      ensures prv == view.free[Pred(view.free, FirstFit(view.free, rsz))].off
    {
      hide Inv, Rep, FirstFit;
      ghost var v, w := view, mem[..];
      TailHeader(v, w);
      HeaderOf(v, w, 0);
      var flhead := mem[FREELIST];
      prv := flhead;
      cur := mem[prv];
      k := 0;
      while mem[cur + 1] < rsz && cur != flhead
        invariant k < |v.free| && cur == v.free[k].off && prv == v.free[Pred(v.free, k)].off
        invariant cur + 1 < mem.Length && mem[cur + 1] == v.free[k].size && mem[cur] == NextOff(v.free, k)
        invariant cur == flhead <==> k == |v.free| - 1
        invariant forall i :: 0 <= i < k ==> v.free[i].size < rsz
        decreases |v.free| - k
      {
        HeaderOf(v, w, k + 1);
        prv := cur;
        cur := mem[cur];
        k := k + 1;
      }
      FirstFitIs(v.free, rsz, k);
    }

    /** Splitting free block k: what is left of it replaces it in the list. */
    method Split(prv: nat, res: nat, ghost k: nat, rsz: nat)
      requires Inv(view) && Rep(mem[..], view) && k < |view.free|
      requires LINK <= rsz && rsz + LINK <= view.free[k].size
      requires res == view.free[k].off && prv == view.free[Pred(view.free, k)].off
      modifies mem
      ensures TakenLink(old(mem[..]), mem[..], view.free, k, rsz)
      ensures mem[BYTES_FREE] == old(mem[BYTES_FREE])
      ensures mem[FREELIST] == if k == |view.free| - 1 then res + rsz else old(mem[FREELIST])
    {
      hide Inv, Rep, Spliced, Succ, NextOff, Pred;
      ghost var g, w := view, mem[..];
      ghost var m := Block(res + rsz, g.free[k].size - rsz);
      SplitNext(g, w, k, m);
      TailHeader(g, w);
      HeaderOf(g, w, k);
      HeaderOf(g, w, Pred(g.free, k));
      PredApart(g, k);
      var flhead := mem[FREELIST];
      var cur := res + rsz;
      mem[cur + 1] := mem[res + 1] - rsz;
      if prv != res {
        mem[cur] := mem[res];
        mem[prv] := cur;
        if res == flhead {
          mem[FREELIST] := cur;
        }
        assert mem[..] == Own(w, cur, Succ(g.free, k, k + 1, m), m.size, mem[FREELIST])[prv := cur];
        SplicedLinked(w, g.free, k, k + 1, m, mem[FREELIST]);
      } else {
        mem[cur] := cur;
        mem[FREELIST] := cur;
        assert mem[..] == Own(w, cur, Succ(g.free, k, k + 1, m), m.size, cur);
        SplicedOwn(w, g.free, k, k + 1, m, cur);
      }
    }

    /** Unlink or split free block k, which prv links to. */
    method Take(prv: nat, res: nat, ghost k: nat, need: nat) returns (rsz: nat)
      requires Inv(view) && Rep(mem[..], view) && k < |view.free| && LINK <= need <= view.free[k].size
      requires k == |view.free| - 1 ==> need + LINK <= view.free[k].size
      requires res == view.free[k].off && prv == view.free[Pred(view.free, k)].off
      modifies mem
      ensures Taken(view, old(mem[..]), mem[..], k, need) && rsz == Granted(view.free[k], need)
    {
      hide Inv, Rep, FreeSum, LiveSum, Carve, Spliced;
      ghost var g, w := view, mem[..];
      TailHeader(g, w);
      CarveTail(g.free, k, need);
      HeaderOf(g, w, k);
      HeaderOf(g, w, Pred(g.free, k));
      PredApart(g, k);
      rsz := need;
      if mem[res + 1] < rsz + LINK {
        mem[prv] := mem[res];
        rsz := mem[res + 1];
      } else {
        Split(prv, res, k, rsz);
      }
      ghost var u := mem[..];
      mem[BYTES_FREE] := mem[BYTES_FREE] - rsz;
      TakenLinkFrame(w, u, mem[..], g.free, k, need);
    }

    method Nvalloc(bytes: nat) returns (p: nat)
      requires Valid()
      modifies this, mem
      ensures Valid()
      ensures (view, p - 1) == Alloc(old(view), bytes)
      ensures p < mem.Length && mem[p] == Remnant(old(view), bytes)
      ensures mem == old(mem) || fresh(mem)
      ensures Kept(old(mem[..]), mem[..], old(view).live)
      ensures mem[MTIME] == old(mem[MTIME]) && mem[USERDATA] == old(mem[USERDATA])
    {
      hide Inv, Rep, Grow, Kept, Taken, Carve, FirstFit, FreeSum, LiveSum, Alloc, Remnant, Granted;
      ghost var v, w := view, mem[..];
      var need := RoundUp(bytes);
      TailHeader(v, w);
      var flhead := mem[FREELIST];
      var prv, res, k := Search(need);
      PreparedFits(v, need);
      HeaderOf(v, w, k);
      KeptAll(w, v.live);
      if res == flhead && mem[flhead + 1] < need + LINK {
        // The mapping may move: offsets stay valid.
        GrowShape(v, mem.Length + need + LINK - mem[flhead + 1]);
        Resize(mem.Length + need + LINK - mem[flhead + 1]);
        TailHeader(view, mem[..]);
        res := mem[FREELIST];
      }
      ghost var g, x := view, mem[..];
      var rsz := Take(prv, res, k, need);
      TakenRep(g, x, mem[..], k, need);
      TakenRemnant(g, x, mem[..], k, need);
      mem[res] := rsz;
      KeptTrans(w, x, mem[..], v.live);
      p := res + 1;
      AllocIs(v, bytes, g, k);
      view := Alloc(v, bytes).0;
      AllocInv(v, bytes);
    }

    /** The search loop of nvfree. */
    method Walk(pb: nat) returns (prv: nat, cur: nat, ghost k: nat)
      requires Valid() && pb in view.live
      ensures view.free != [] && k == Below(view.free, pb) < |view.free|
      ensures cur == view.free[Below(view.free, pb)].off
      ensures prv == view.free[Pred(view.free, Below(view.free, pb))].off
    {
      hide Inv, Rep, Below;
      ghost var v, w := view, mem[..];
      TailHeader(v, w);
      HeaderOf(v, w, 0);
      Neighbours(v, pb);
      var flhead := mem[FREELIST];
      prv := flhead;
      cur := mem[prv];
      k := 0;
      while cur < pb && cur != flhead
        invariant k <= Below(v.free, pb) && cur == v.free[k].off && prv == v.free[Pred(v.free, k)].off
        invariant cur < mem.Length && mem[cur] == NextOff(v.free, k)
        invariant cur == flhead <==> k == |v.free| - 1
        decreases |v.free| - k
      {
        HeaderOf(v, w, k + 1);
        prv := cur;
        cur := mem[cur];
        k := k + 1;
      }
    }

    /** The freed block is adjacent to the free block before it, and maybe to the one after. */
    method JoinLeft(prv: nat, cur: nat, ghost k: nat, pb: nat, psz: nat)
      requires Inv(view) && Rep(mem[..], view) && pb in view.live && psz == view.live[pb]
      requires k == Below(view.free, pb) < |view.free| && TouchesLeft(view.free, Block(pb, psz))
      requires cur == view.free[k].off && prv == view.free[Pred(view.free, k)].off
      modifies mem
      ensures Joined(old(mem[..]), mem[..], view.free, Block(pb, psz))
      ensures mem[BYTES_FREE] == old(mem[BYTES_FREE])
      ensures mem[FREELIST] == if pb + psz == cur && k == |view.free| - 1 then prv else old(mem[FREELIST])
    {
      hide Inv, Rep, Below, Joined, TouchesLeft;
      ghost var v, w := view, mem[..];
      TailHeader(v, w);
      Neighbours(v, pb);
      HeaderOf(v, w, k);
      LeftWrote(v, w, pb, w[FREELIST]);
      LeftWrote(v, w, pb, prv);
      HeaderOf(v, w, k - 1);
      var flhead := mem[FREELIST];
      mem[prv + 1] := mem[prv + 1] + psz;
      if pb + psz == cur {
        if cur == flhead {
          mem[FREELIST] := prv;
        }
        mem[prv + 1] := mem[prv + 1] + mem[cur + 1];
        mem[prv] := mem[cur];
        assert mem[..] == Own(w, prv, w[cur], w[prv + 1] + psz + w[cur + 1], mem[FREELIST]);
      } else {
        assert mem[..] == Own(w, prv, w[prv], w[prv + 1] + psz, mem[FREELIST]);
      }
    }

    /** The freed block starts a block of its own, merged with the one after it or not. */
    method JoinRight(prv: nat, cur: nat, ghost k: nat, pb: nat, psz: nat)
      requires Inv(view) && Rep(mem[..], view) && pb in view.live && psz == view.live[pb]
      requires k == Below(view.free, pb) < |view.free| && !TouchesLeft(view.free, Block(pb, psz))
      requires cur == view.free[k].off && prv == view.free[Pred(view.free, k)].off
      modifies mem
      ensures Joined(old(mem[..]), mem[..], view.free, Block(pb, psz))
      ensures mem[BYTES_FREE] == old(mem[BYTES_FREE])
      ensures mem[FREELIST] == if pb + psz == cur && k == |view.free| - 1 then pb else old(mem[FREELIST])
    {
      hide Inv, Rep, Below, Joined, TouchesLeft, RightJoined, NextOff;
      ghost var v, w := view, mem[..];
      TailHeader(v, w);
      Neighbours(v, pb);
      HeaderOf(v, w, k);
      if pb + psz == cur {
        JoinNext(prv, cur, k, pb, psz);
      } else {
        HeaderOf(v, w, Pred(v.free, k));
        RightWrote(v, w, pb, w[FREELIST]);
        RightCases(w, v.free, Block(pb, psz), w[FREELIST]);
        mem[pb] := cur;
        mem[pb + 1] := psz;
        mem[prv] := pb;
        assert mem[..] == Own(w, pb, cur, psz, mem[FREELIST])[prv := pb];
      }
    }

    /** It takes the place of the free block after it. */
    method JoinNext(prv: nat, cur: nat, ghost k: nat, pb: nat, psz: nat)
      requires Inv(view) && Rep(mem[..], view) && pb in view.live && psz == view.live[pb]
      requires k == Below(view.free, pb) < |view.free| && !TouchesLeft(view.free, Block(pb, psz))
      requires cur == view.free[k].off == pb + psz && prv == view.free[Pred(view.free, k)].off
      modifies mem
      ensures Joined(old(mem[..]), mem[..], view.free, Block(pb, psz))
      ensures mem[BYTES_FREE] == old(mem[BYTES_FREE])
      ensures mem[FREELIST] == if k == |view.free| - 1 then pb else old(mem[FREELIST])
    {
      hide Inv, Rep, Below, Joined, TouchesLeft, RightJoined, NextOff, Pred;
      ghost var v, w := view, mem[..];
      TailHeader(v, w);
      Neighbours(v, pb);
      HeaderOf(v, w, k);
      HeaderOf(v, w, Pred(v.free, k));
      RightWrote(v, w, pb, w[FREELIST]);
      RightCases(w, v.free, Block(pb, psz), w[FREELIST]);
      RightWrote(v, w, pb, pb);
      RightCases(w, v.free, Block(pb, psz), pb);
      NextSelf(v, w, k);
      var flhead := mem[FREELIST];
      if mem[cur] == cur {
        mem[FREELIST] := pb;
        mem[pb] := pb;
        mem[pb + 1] := psz + mem[cur + 1];
        assert mem[..] == Own(w, pb, pb, psz + w[cur + 1], pb);
      } else {
        mem[pb] := mem[cur];
        mem[pb + 1] := psz + mem[cur + 1];
        mem[prv] := pb;
        if cur == flhead {
          mem[FREELIST] := pb;
        }
        assert mem[..] == Own(w, pb, w[cur], psz + w[cur + 1], mem[FREELIST])[prv := pb];
      }
    }

    method Nvfree(p: nat)
      requires Valid() && p >= 1 && p - 1 in view.live
      modifies this, mem
      ensures Valid() && mem == old(mem)
      ensures view == Free(old(view), p - 1)
      ensures Kept(old(mem[..]), mem[..], view.live)
      ensures mem[MTIME] == old(mem[MTIME]) && mem[USERDATA] == old(mem[USERDATA])
    {
      hide Inv, Rep, Below, Kept, Joined, Release;
      ghost var v, w := view, mem[..];
      var pb := p - 1;
      SizeAt(v, w, pb);
      TailHeader(v, w);
      var psz := mem[pb];
      ghost var f := Block(pb, psz);
      var prv, cur, k := Walk(pb);
      Neighbours(v, pb);
      HeaderOf(v, w, Pred(v.free, k));
      ReleaseTail(v, pb);
      if prv + mem[prv + 1] == pb {
        JoinLeft(prv, cur, k, pb, psz);
      } else {
        JoinRight(prv, cur, k, pb, psz);
      }
      ghost var u := mem[..];
      mem[BYTES_FREE] := mem[BYTES_FREE] + psz;
      JoinedFrame(v, w, u, mem[..], pb);
      FreedRep(v, w, mem[..], pb);
      view := Free(v, pb);
      FreeInv(v, pb);
    }

    /** A write by the owner of the block at b. */
    method Store(ghost b: nat, i: nat, x: int)
      requires Valid() && b in view.live && b < i < b + view.live[b]
      modifies mem
      ensures Valid() && i < mem.Length && mem[..] == old(mem[..])[i := x]
    {
      hide Inv, Rep;
      UserWord(view, mem[..], b, i, x);
      mem[i] := x;
      assert mem[..] == old(mem[..])[i := x];
    }

    method SetData(d: int)
      requires Valid()
      modifies mem
      ensures Valid() && USERDATA < mem.Length && mem[..] == old(mem[..])[USERDATA := d]
    {
      hide Inv, Rep;
      HeaderWord(view, mem[..], USERDATA, d);
      mem[USERDATA] := d;
      assert mem[..] == old(mem[..])[USERDATA := d];
    }

    /** Without force the modification time never goes back. */
    method SetMtime(tm: int, force: bool)
      requires Valid()
      modifies mem
      ensures Valid() && MTIME < mem.Length
      ensures mem[..] == old(mem[..])[MTIME := if force || tm > old(mem[MTIME]) then tm else old(mem[MTIME])]
    {
      hide Inv, Rep;
      HeaderWord(view, mem[..], MTIME, tm);
      var ctm := mem[MTIME];
      if force || tm > ctm {
        mem[MTIME] := tm;
      }
      assert mem[..] == old(mem[..])[MTIME := if force || tm > ctm then tm else ctm];
    }
  }
}
