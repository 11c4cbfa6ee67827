/** The allocator of NVClasses-0.9.1/NVcontainer.cc on values: the free list, the live
    blocks and what nvalloc, nvfree and resize make of them.
    All offsets and sizes are counted in words of 8 bytes, the unit of every header field. */
module FreeList {

  /** sizeof(Header): 48 bytes. */
  const HLEN: nat := 6

  /** sizeof(FreeList): the in-place header {next, size} of a free block. */
  const LINK: nat := 2

  /** The file grows in pages of 0x10000 bytes. */
  const PAGE: nat := 0x2000

  datatype Block = Block(off: nat, size: nat) {
    function End(): nat { off + size }
  }

  /** What a container file holds: its size, the free list in address order, and the size
      of every live block by the offset of its size word. */
  datatype View = View(size: nat, free: seq<Block>, live: map<nat, nat>)

  // ----- the invariant -----

  /** A multiple of 16 bytes. */
  predicate Even(n: nat) { n % 2 == 0 }

  lemma EvenSum(m: nat, n: nat)
    requires Even(m)
    ensures Even(m + n) <==> Even(n)
    ensures n <= m ==> (Even(m - n) <==> Even(n))
  {
  }

  predicate Fits(b: Block, hi: nat) {
    HLEN <= b.off && LINK <= b.size && b.End() <= hi && Even(b.off) && Even(b.size)
  }

  /** Strictly address-ordered with a gap between neighbours: sorted and maximally coalesced. */
  ghost predicate Spaced(free: seq<Block>) {
    forall i, j :: 0 <= i < j < |free| ==> free[i].End() < free[j].off
  }

  /** The last free block always exists and reaches the end of the file. */
  ghost predicate FreeOk(free: seq<Block>, hi: nat) {
    && free != []
    && (forall i :: 0 <= i < |free| ==> Fits(free[i], hi))
    && Spaced(free)
    && free[|free| - 1].End() == hi
  }

  ghost predicate LiveOk(live: map<nat, nat>, hi: nat) {
    && (forall b :: b in live ==> Fits(Block(b, live[b]), hi))
    && (forall a, b :: a in live && b in live && a < b ==> a + live[a] <= b)
  }

  ghost predicate InFree(free: seq<Block>, x: nat) {
    exists i :: 0 <= i < |free| && free[i].off <= x < free[i].End()
  }

  ghost predicate InLive(live: map<nat, nat>, x: nat) {
    exists b :: b in live && b <= x < b + live[b]
  }

  /** Every word above the header is in exactly one of a free and a live block. */
  ghost predicate Tiled(v: View) {
    forall x :: HLEN <= x < v.size ==> (InFree(v.free, x) <==> !InLive(v.live, x))
  }

  ghost predicate Inv(v: View) {
    && v.size % PAGE == 0
    && FreeOk(v.free, v.size)
    && LiveOk(v.live, v.size)
    && Tiled(v)
    && FreeSum(v.free) + LiveSum(v.live) == v.size - HLEN
  }

  // ----- sums -----

  function FreeSum(free: seq<Block>): nat {
    if free == [] then 0 else free[0].size + FreeSum(free[1..])
  }

  ghost function LiveSum(live: map<nat, nat>): nat {
    if live == map[] then 0
    else
      var b :| b in live;
      live[b] + LiveSum(live - {b})
  }

  lemma {:induction false} FreeSumConcat(a: seq<Block>, b: seq<Block>)
    ensures FreeSum(a + b) == FreeSum(a) + FreeSum(b)
  {
    if a == [] {
      assert a + b == b;
    } else {
      assert (a + b)[1..] == a[1..] + b;
      FreeSumConcat(a[1..], b);
    }
  }

  lemma FreeSumOne(b: Block)
    ensures FreeSum([b]) == b.size
  {
  }

  lemma FreeSumNone()
    ensures FreeSum([]) == 0
  {
  }

  lemma {:induction false} LiveSumRemove(live: map<nat, nat>, b: nat)
    requires b in live
    ensures LiveSum(live) == live[b] + LiveSum(live - {b})
  {
    var c :| c in live && LiveSum(live) == live[c] + LiveSum(live - {c});
    if b != c {
      LiveSumRemove(live - {c}, b);
      LiveSumRemove(live - {b}, c);
      assert live - {c} - {b} == live - {b} - {c};
    }
  }

  lemma LiveSumAdd(live: map<nat, nat>, b: nat, n: nat)
    requires b !in live
    ensures LiveSum(live[b := n]) == n + LiveSum(live)
  {
    LiveSumRemove(live[b := n], b);
    AddRemove(live, b, n);
  }

  // ----- the operations -----

  /** Request in bytes to block size in words: room for the size word, in units of 16 bytes. */
  function RoundUp(bytes: nat): (rsz: nat)
    ensures LINK <= rsz && Even(rsz) && bytes + 8 <= 8 * rsz < bytes + 24
  {
    (bytes + 23) / 16 * 2
  }

  /** First suitable free block; the last block when none before it is large enough. */
  function FirstFit(free: seq<Block>, rsz: nat): (k: nat)
    requires free != []
    ensures k < |free|
    ensures forall i :: 0 <= i < k ==> free[i].size < rsz
    ensures k < |free| - 1 ==> rsz <= free[k].size
  {
    if |free| == 1 || rsz <= free[0].size then 0 else 1 + FirstFit(free[1..], rsz)
  }

  /** The next page boundary above a size. */
  function PageUp(nsz: nat): (n: nat)
    ensures nsz < n <= nsz + PAGE && n % PAGE == 0 && Even(n)
  {
    (nsz + PAGE) / PAGE * PAGE
  }

  /** The file after resize(nsz): never smaller, and grown past nsz to a full page. */
  function Grow(v: View, nsz: nat): View
    requires v.free != []
  {
    if nsz < v.size then v
    else
      var n := PageUp(nsz);
      View(n, Stretch(v.free, n - v.size), v.live)
  }

  /** The tail takes the new words. */
  function Stretch(free: seq<Block>, n: nat): seq<Block>
    requires free != []
  {
    var t := |free| - 1;
    free[t := Block(free[t].off, free[t].size + n)]
  }

  /** A block too small to be split is handed out whole. */
  function Granted(b: Block, rsz: nat): nat {
    if b.size < rsz + LINK then b.size else rsz
  }

  /** Free blocks i up to j give way to at most one block. */
  function Splice(free: seq<Block>, i: nat, j: nat, mid: seq<Block>): seq<Block>
    requires i <= j <= |free|
  {
    free[..i] + mid + free[j..]
  }

  function Carve(free: seq<Block>, k: nat, rsz: nat): seq<Block>
    requires k < |free|
  {
    var b := free[k];
    Splice(free, k, k + 1, if b.size < rsz + LINK then [] else [Block(b.off + rsz, b.size - rsz)])
  }

  /** The tail has to keep room for its own header: otherwise the file grows first. */
  function Prepared(v: View, rsz: nat): View
    requires v.free != []
  {
    var k := FirstFit(v.free, rsz);
    if k == |v.free| - 1 && v.free[k].size < rsz + LINK
    then Grow(v, v.size + rsz + LINK - v.free[k].size)
    else v
  }

  /** nvalloc: the new view and the offset of the block's size word. */
  function Alloc(v: View, bytes: nat): (View, nat)
    requires v.free != []
  {
    var rsz := RoundUp(bytes);
    var g := Prepared(v, rsz);
    var k := FirstFit(v.free, rsz);
    var b := g.free[k];
    (View(g.size, Carve(g.free, k, rsz), g.live[b.off := Granted(b, rsz)]), b.off)
  }

  /** The size of the free block that a request is taken from: nvalloc leaves it in the first of
      the words it hands out. */
  function Remnant(v: View, bytes: nat): nat
    requires v.free != []
  {
    Prepared(v, RoundUp(bytes)).free[FirstFit(v.free, RoundUp(bytes))].size
  }

  lemma RemnantHolds(v: View, bytes: nat)
    requires Inv(v)
    ensures v.free != [] && bytes + 8 <= 8 * Remnant(v, bytes)
  {
    hide Inv, FirstFit, Prepared, Even;
    InvTail(v);
    PreparedFits(v, RoundUp(bytes));
  }

  /** Number of free blocks below an offset. */
  function Below(free: seq<Block>, off: nat): (k: nat)
    ensures k <= |free|
    ensures forall i :: 0 <= i < k ==> free[i].off < off
    ensures k < |free| ==> off <= free[k].off
  {
    if free == [] || off <= free[0].off then 0 else 1 + Below(free[1..], off)
  }

  predicate TouchesLeft(free: seq<Block>, b: Block) {
    var k := Below(free, b.off);
    k > 0 && free[k - 1].End() == b.off
  }

  predicate TouchesRight(free: seq<Block>, b: Block) {
    var k := Below(free, b.off);
    k < |free| && b.End() == free[k].off
  }

  /** The freed block together with the free neighbours it touches. */
  function Merged(free: seq<Block>, b: Block): Block {
    var k := Below(free, b.off);
    var l := if TouchesLeft(free, b) then Block(free[k - 1].off, free[k - 1].size + b.size) else b;
    if TouchesRight(free, b) then Block(l.off, l.size + free[k].size) else l
  }

  /** The range of free blocks that the merged block replaces. */
  function First(free: seq<Block>, b: Block): (i: nat)
    ensures i <= Below(free, b.off)
  {
    if TouchesLeft(free, b) then Below(free, b.off) - 1 else Below(free, b.off)
  }

  function Last(free: seq<Block>, b: Block): (j: nat)
    ensures Below(free, b.off) <= j <= |free|
  {
    if TouchesRight(free, b) then Below(free, b.off) + 1 else Below(free, b.off)
  }

  function Release(free: seq<Block>, b: Block): seq<Block> {
    Splice(free, First(free, b), Last(free, b), [Merged(free, b)])
  }

  /** nvfree of the live block whose size word is at b. */
  function Free(v: View, b: nat): View
    requires b in v.live
  {
    View(v.size, Release(v.free, Block(b, v.live[b])), v.live - {b})
  }

  /** The layout open() writes into an empty file. */
  const FRESH: View := View(PAGE, [Block(HLEN, PAGE - HLEN)], map[])

  // ----- every operation keeps the invariant -----

  lemma FreshInv()
    ensures Inv(FRESH)
  {
    assert FRESH.free[0].End() == PAGE;
  }

  lemma StretchOk(free: seq<Block>, hi: nat, n: nat)
    requires free != [] && FreeOk(free, hi) && Even(n)
    ensures FreeOk(Stretch(free, n), hi + n)
    ensures FreeSum(Stretch(free, n)) == FreeSum(free) + n
  {
    hide FreeOk, FreeSum;
    StretchFits(free, hi, n);
    StretchSum(free, n);
  }

  lemma StretchFits(free: seq<Block>, hi: nat, n: nat)
    requires FreeOk(free, hi) && Even(n)
    ensures FreeOk(Stretch(free, n), hi + n)
  {
    var g, t := Stretch(free, n), |free| - 1;
    forall i | 0 <= i < |g|
      ensures Fits(g[i], hi + n)
    {
      assert Fits(free[i], hi);
    }
  }

  lemma StretchSum(free: seq<Block>, n: nat)
    requires free != []
    ensures FreeSum(Stretch(free, n)) == FreeSum(free) + n
  {
    var g, t := Stretch(free, n), |free| - 1;
    assert free == free[..t] + [free[t]] && g == free[..t] + [g[t]];
    FreeSumConcat(free[..t], [free[t]]);
    FreeSumConcat(free[..t], [g[t]]);
    FreeSumOne(free[t]);
    FreeSumOne(g[t]);
  }

  lemma StretchWords(free: seq<Block>, hi: nat, n: nat, x: nat)
    requires FreeOk(free, hi)
    ensures InFree(Stretch(free, n), x) <==> InFree(free, x) || hi <= x < hi + n
  {
    var g, t := Stretch(free, n), |free| - 1;
    if InFree(free, x) {
      var i :| 0 <= i < |free| && free[i].off <= x < free[i].End();
      assert g[i].off <= x < g[i].End();
    }
    if hi <= x < hi + n {
      assert g[t].off <= x < g[t].End();
    }
  }

  lemma GrowInv(v: View, nsz: nat)
    requires Inv(v)
    ensures Inv(Grow(v, nsz))
    ensures nsz < Grow(v, nsz).size && v.size <= Grow(v, nsz).size
    ensures if nsz < v.size then Grow(v, nsz) == v else Grow(v, nsz).size <= nsz + 0x2000
  {
    hide Even, FreeSum, LiveSum, Stretch, InFree, InLive;
    if v.size <= nsz {
      var g, t := Grow(v, nsz), v.free[|v.free| - 1];
      EvenSum(t.off, t.size);
      EvenSum(g.size, v.size);
      StretchOk(v.free, v.size, g.size - v.size);
      forall x | HLEN <= x < g.size
        ensures InFree(g.free, x) <==> !InLive(g.live, x)
      {
        StretchWords(v.free, v.size, g.size - v.size, x);
        if v.size <= x {
          InLiveBounds(v, x);
        }
      }
    }
  }

  lemma InLiveBounds(v: View, x: nat)
    requires LiveOk(v.live, v.size)
    ensures InLive(v.live, x) ==> HLEN <= x < v.size
  {
    hide Even;
  }

  predicate Has(b: Block, x: nat) {
    b.off <= x < b.End()
  }

  ghost predicate Apart(free: seq<Block>, b: Block) {
    forall i :: 0 <= i < |free| ==> free[i].End() <= b.off || b.End() <= free[i].off
  }

  lemma SpliceSum(free: seq<Block>, i: nat, j: nat, mid: seq<Block>)
    requires i <= j <= |free|
    ensures FreeSum(Splice(free, i, j, mid)) + FreeSum(free[i..j]) == FreeSum(free) + FreeSum(mid)
  {
    assert free == free[..i] + free[i..j] + free[j..];
    FreeSumConcat(free[..i] + free[i..j], free[j..]);
    FreeSumConcat(free[..i], free[i..j]);
    FreeSumConcat(free[..i] + mid, free[j..]);
    FreeSumConcat(free[..i], mid);
  }

  lemma InFreeConcat(a: seq<Block>, b: seq<Block>, x: nat)
    ensures InFree(a + b, x) <==> InFree(a, x) || InFree(b, x)
  {
    if InFree(b, x) {
      var i :| 0 <= i < |b| && b[i].off <= x < b[i].End();
      assert (a + b)[|a| + i] == b[i];
    }
    if InFree(a, x) {
      var i :| 0 <= i < |a| && a[i].off <= x < a[i].End();
      assert (a + b)[i] == a[i];
    }
  }

  lemma SpliceWords(free: seq<Block>, i: nat, j: nat, mid: seq<Block>, x: nat)
    requires Spaced(free) && i <= j <= |free|
    ensures InFree(Splice(free, i, j, mid), x)
       <==> InFree(mid, x) || (InFree(free, x) && !InFree(free[i..j], x))
  {
    assert free == free[..i] + free[i..j] + free[j..];
    InFreeConcat(free[..i] + free[i..j], free[j..], x);
    InFreeConcat(free[..i], free[i..j], x);
    InFreeConcat(free[..i] + mid, free[j..], x);
    InFreeConcat(free[..i], mid, x);
    if InFree(free[i..j], x) {
      var m :| 0 <= m < j - i && free[i..j][m].off <= x < free[i..j][m].End();
      assert free[i + m].off <= x < free[i + m].End();
      assert !InFree(free[..i], x) && !InFree(free[j..], x);
    }
  }

  lemma InFreeOne(b: Block, x: nat)
    ensures InFree([b], x) <==> Has(b, x)
  {
    if Has(b, x) {
      assert [b][0].off <= x < [b][0].End();
    }
  }

  lemma CutOk(free: seq<Block>, hi: nat, k: nat)
    requires FreeOk(free, hi) && k < |free| - 1
    ensures FreeOk(Splice(free, k, k + 1, []), hi)
  {
    var c := Splice(free, k, k + 1, []);
    assert forall i :: 0 <= i < |c| ==> c[i] == free[if i < k then i else i + 1];
  }

  lemma SpliceSpaced(free: seq<Block>, i: nat, j: nat, m: Block)
    requires Spaced(free) && i <= j <= |free| && m.size > 0
    requires forall a :: 0 <= a < |free| ==> free[a].size > 0
    requires i > 0 ==> free[i - 1].End() < m.off
    requires j < |free| ==> m.End() < free[j].off
    ensures Spaced(Splice(free, i, j, [m]))
  {
    var c := Splice(free, i, j, [m]);
    assert forall a :: 0 <= a < i ==> c[a] == free[a] && free[a].End() < m.off;
    assert forall a :: i < a < |c| ==> c[a] == free[a - i - 1 + j];
    assert forall a :: j <= a < |free| ==> m.End() < free[a].off;
  }

  lemma SpliceOk(free: seq<Block>, hi: nat, i: nat, j: nat, m: Block)
    requires FreeOk(free, hi) && i <= j <= |free| && Fits(m, hi)
    requires i > 0 ==> free[i - 1].End() < m.off
    requires if j < |free| then m.End() < free[j].off else m.End() == hi
    ensures FreeOk(Splice(free, i, j, [m]), hi)
  {
    hide Spaced, Even;
    SpliceSpaced(free, i, j, m);
  }

  lemma CarveOk(free: seq<Block>, hi: nat, k: nat, rsz: nat)
    requires FreeOk(free, hi) && k < |free| && LINK <= rsz <= free[k].size && Even(rsz)
    requires k == |free| - 1 ==> rsz + LINK <= free[k].size
    ensures FreeOk(Carve(free, k, rsz), hi)
  {
    hide FreeOk, Splice;
    var b := free[k];
    if b.size < rsz + LINK {
      CutOk(free, hi, k);
    } else {
      CarveFits(free, hi, k, rsz);
      SpliceOk(free, hi, k, k + 1, Block(b.off + rsz, b.size - rsz));
    }
  }

  /** What is left of a block fits where the block was. */
  lemma CarveFits(free: seq<Block>, hi: nat, k: nat, rsz: nat)
    requires FreeOk(free, hi) && k < |free| && rsz + LINK <= free[k].size && Even(rsz)
    ensures var m := Block(free[k].off + rsz, free[k].size - rsz);
      && Fits(m, hi) && (k > 0 ==> free[k - 1].End() < m.off)
      && (if k + 1 < |free| then m.End() < free[k + 1].off else m.End() == hi)
  {
    assert Fits(free[k], hi);
  }

  lemma CarveSum(free: seq<Block>, k: nat, rsz: nat)
    requires k < |free| && rsz <= free[k].size
    ensures Granted(free[k], rsz) + FreeSum(Carve(free, k, rsz)) == FreeSum(free)
  {
    hide FreeSum;
    var b := free[k];
    assert free[k..k + 1] == [b];
    FreeSumOne(b);
    if b.size < rsz + LINK {
      FreeSumNone();
      SpliceSum(free, k, k + 1, []);
    } else {
      var m := Block(b.off + rsz, b.size - rsz);
      FreeSumOne(m);
      SpliceSum(free, k, k + 1, [m]);
    }
  }

  lemma CarveWords(free: seq<Block>, hi: nat, k: nat, rsz: nat, x: nat)
    requires FreeOk(free, hi) && k < |free| && LINK <= rsz <= free[k].size
    ensures InFree(Carve(free, k, rsz), x)
       <==> InFree(free, x) && !Has(Block(free[k].off, Granted(free[k], rsz)), x)
  {
    var b := free[k];
    assert free[k..k + 1] == [b];
    InFreeOne(b, x);
    if Has(b, x) {
      assert free[k].off <= x < free[k].End();
    }
    if b.size < rsz + LINK {
      SpliceWords(free, k, k + 1, [], x);
    } else {
      var m := Block(b.off + rsz, b.size - rsz);
      InFreeOne(m, x);
      SpliceWords(free, k, k + 1, [m], x);
    }
  }

  // ----- freeing -----

  /** Which of the four cases applies, and that the neighbours really are neighbours. */
  lemma BelowApart(free: seq<Block>, b: Block)
    requires Spaced(free) && Apart(free, b) && b.size > 0
    requires forall i :: 0 <= i < |free| ==> free[i].size > 0
    ensures var k := Below(free, b.off);
      && (forall i :: 0 <= i < k ==> free[i].End() <= b.off)
      && (forall i :: k <= i < |free| ==> b.End() <= free[i].off)
  {
    hide Below;
    var k := Below(free, b.off);
    forall i | k <= i < |free|
      ensures b.End() <= free[i].off
    {
      assert free[k].off <= free[i].off;
    }
  }

  lemma ReleaseOk(free: seq<Block>, hi: nat, b: Block)
    requires FreeOk(free, hi) && Fits(b, hi) && Apart(free, b)
    ensures FreeOk(Release(free, b), hi)
  {
    hide Fits, FreeOk, Apart, Merged, Below;
    MergedFits(free, hi, b);
    MergedGaps(free, hi, b);
    SpliceOk(free, hi, First(free, b), Last(free, b), Merged(free, b));
  }

  lemma MergedFits(free: seq<Block>, hi: nat, b: Block)
    requires FreeOk(free, hi) && Fits(b, hi) && Apart(free, b)
    ensures Fits(Merged(free, b), hi)
  {
    hide Even, Below, Spaced;
    BelowApart(free, b);
    var k := Below(free, b.off);
    if k > 0 {
      EvenSum(free[k - 1].size, b.size);
      EvenSum(free[k - 1].size + b.size, free[k].size);
    }
    EvenSum(b.size, free[k].size);
  }

  lemma MergedGaps(free: seq<Block>, hi: nat, b: Block)
    requires FreeOk(free, hi) && Fits(b, hi) && Apart(free, b)
    ensures var i, j, m := First(free, b), Last(free, b), Merged(free, b);
      && i <= j <= |free|
      && (i > 0 ==> free[i - 1].End() < m.off)
      && (if j < |free| then m.End() < free[j].off else m.End() == hi)
  {
    hide Even, Below;
    BelowApart(free, b);
  }

  lemma MergedHas(free: seq<Block>, b: Block, x: nat)
    ensures var k, i, j := Below(free, b.off), First(free, b), Last(free, b);
      Has(Merged(free, b), x) <==> Has(b, x) || (i < k && Has(free[i], x)) || (k < j && Has(free[k], x))
  {
  }

  lemma ReleaseSum(free: seq<Block>, b: Block)
    ensures FreeSum(Release(free, b)) == FreeSum(free) + b.size
  {
    var k, i, j := Below(free, b.off), First(free, b), Last(free, b);
    SpliceSum(free, i, j, [Merged(free, b)]);
    if i < k < j {
      assert free[i..j] == [free[i]] + [free[k]];
      FreeSumConcat([free[i]], [free[k]]);
    }
  }

  lemma InFreeNear(free: seq<Block>, b: Block, x: nat)
    ensures var k, i, j := Below(free, b.off), First(free, b), Last(free, b);
      && (InFree(free[i..j], x) <==> (i < k && Has(free[i], x)) || (k < j && Has(free[k], x)))
      && (InFree(free[i..j], x) ==> InFree(free, x))
  {
    var k, i, j := Below(free, b.off), First(free, b), Last(free, b);
    assert i < k ==> free[i..j][0] == free[i];
    assert k < j ==> free[i..j][k - i] == free[k];
  }

  lemma ReleaseWords(free: seq<Block>, hi: nat, b: Block, x: nat)
    requires FreeOk(free, hi)
    ensures InFree(Release(free, b), x) <==> InFree(free, x) || Has(b, x)
  {
    hide Merged, InFree, Has, Fits;
    InFreeNear(free, b, x);
    MergedHas(free, b, x);
    InFreeOne(Merged(free, b), x);
    SpliceWords(free, First(free, b), Last(free, b), [Merged(free, b)], x);
  }

  // ----- live blocks -----

  lemma LiveWordsAdd(live: map<nat, nat>, b: nat, n: nat, x: nat)
    requires b !in live
    ensures InLive(live[b := n], x) <==> InLive(live, x) || Has(Block(b, n), x)
  {
    var l := live[b := n];
    if InLive(live, x) {
      var c :| c in live && c <= x < c + live[c];
      assert c in l && c <= x < c + l[c];
    }
    if Has(Block(b, n), x) {
      assert b in l && b <= x < b + l[b];
    }
  }

  lemma LiveWordsRemove(live: map<nat, nat>, b: nat, hi: nat, x: nat)
    requires LiveOk(live, hi) && b in live
    ensures InLive(live - {b}, x) <==> InLive(live, x) && !Has(Block(b, live[b]), x)
  {
    if InLive(live, x) && !Has(Block(b, live[b]), x) {
      var c :| c in live && c <= x < c + live[c];
      assert c in live - {b};
    }
  }

  /** A live and a free block have no word in common. */
  lemma LiveApart(v: View, b: nat)
    requires Inv(v) && b in v.live
    ensures Apart(v.free, Block(b, v.live[b]))
  {
    forall i | 0 <= i < |v.free|
      ensures v.free[i].End() <= b || b + v.live[b] <= v.free[i].off
    {
      var f := v.free[i];
      var x := if f.off < b then b else f.off;
      if x < f.End() && x < b + v.live[b] {
        assert InFree(v.free, x) && InLive(v.live, x);
      }
    }
  }

  lemma FreeInv(v: View, b: nat)
    requires Inv(v) && b in v.live
    ensures Inv(Free(v, b))
  {
    hide Even, FreeSum, LiveSum, Release, Apart, FreeOk, InFree;
    var f := Block(b, v.live[b]);
    LiveApart(v, b);
    ReleaseOk(v.free, v.size, f);
    ReleaseSum(v.free, f);
    LiveSumRemove(v.live, b);
    forall x | HLEN <= x < v.size
      ensures InFree(Free(v, b).free, x) <==> !InLive(Free(v, b).live, x)
    {
      ReleaseWords(v.free, v.size, f, x);
      LiveWordsRemove(v.live, b, v.size, x);
      assert Has(f, x) ==> InLive(v.live, x);
    }
  }

  /** g is v, grown if need be, with the same live blocks and the k-th free block large
      enough for rsz words. */
  predicate Ready(v: View, g: View, k: nat, rsz: nat) {
    && v.size <= g.size && g.live == v.live
    && k < |v.free| == |g.free| && g.free[k].off == v.free[k].off && rsz <= g.free[k].size
    && (k == |g.free| - 1 ==> rsz + LINK <= g.free[k].size)
  }

  lemma PreparedFits(v: View, rsz: nat)
    requires Inv(v) && Even(rsz) && LINK <= rsz
    ensures Inv(Prepared(v, rsz)) && Ready(v, Prepared(v, rsz), FirstFit(v.free, rsz), rsz)
  {
    hide Inv, Grow, Even, FirstFit;
    InvTail(v);
    var k := FirstFit(v.free, rsz);
    if k == |v.free| - 1 && v.free[k].size < rsz + LINK {
      GrowInv(v, v.size + rsz + LINK - v.free[k].size);
      GrowShape(v, v.size + rsz + LINK - v.free[k].size);
    }
  }

  lemma InvTail(v: View)
    requires Inv(v)
    ensures v.free != [] && v.free[|v.free| - 1].End() == v.size
  {
  }

  lemma GrowShape(v: View, nsz: nat)
    requires v.free != [] && v.free[|v.free| - 1].End() == v.size
    ensures var g, t := Grow(v, nsz), |v.free| - 1;
      && g.live == v.live && |g.free| == |v.free|
      && (forall i :: 0 <= i <= t ==> g.free[i].off == v.free[i].off) && g.free[t].End() == g.size
  {
  }

  /** A free block handed out is a new live block, disjoint from every other. */
  lemma TakeInv(g: View, k: nat, rsz: nat)
    requires Inv(g) && k < |g.free| && LINK <= rsz <= g.free[k].size && Even(rsz)
    requires k == |g.free| - 1 ==> rsz + LINK <= g.free[k].size
    ensures var b := g.free[k];
      && b.off !in g.live
      && Inv(View(g.size, Carve(g.free, k, rsz), g.live[b.off := Granted(b, rsz)]))
  {
    hide Even, FreeSum, LiveSum, Carve, FreeOk, LiveOk, Tiled;
    var b, n := g.free[k], Granted(g.free[k], rsz);
    var h := View(g.size, Carve(g.free, k, rsz), g.live[b.off := n]);
    TakeNew(g, k);
    CarveOk(g.free, g.size, k, rsz);
    CarveSum(g.free, k, rsz);
    LiveSumAdd(g.live, b.off, n);
    TakeLiveOk(g, k, n);
    TakeTiled(g, k, rsz);
  }

  lemma TakeNew(g: View, k: nat)
    requires Inv(g) && k < |g.free|
    ensures g.free[k].off !in g.live && HLEN <= g.free[k].off && Even(g.free[k].size)
  {
    hide Even;
    var b := g.free[k].off;
    assert InFree(g.free, b);
    assert b in g.live ==> InLive(g.live, b);
  }

  lemma TakeTiled(g: View, k: nat, rsz: nat)
    requires Inv(g) && k < |g.free| && LINK <= rsz <= g.free[k].size && g.free[k].off !in g.live
    ensures var b := g.free[k];
      Tiled(View(g.size, Carve(g.free, k, rsz), g.live[b.off := Granted(b, rsz)]))
  {
    hide Inv, Carve, Granted, InFree, InLive;
    forall x | HLEN <= x < g.size
      ensures var b := g.free[k];
        InFree(Carve(g.free, k, rsz), x) <==> !InLive(g.live[b.off := Granted(b, rsz)], x)
    {
      TakeWords(g, k, rsz, x);
    }
  }

  lemma TakeWords(g: View, k: nat, rsz: nat, x: nat)
    requires Inv(g) && k < |g.free| && LINK <= rsz <= g.free[k].size && g.free[k].off !in g.live
    requires HLEN <= x < g.size
    ensures var b := g.free[k];
      InFree(Carve(g.free, k, rsz), x) <==> !InLive(g.live[b.off := Granted(b, rsz)], x)
  {
    hide Even, Carve;
    var b, n := g.free[k], Granted(g.free[k], rsz);
    CarveWords(g.free, g.size, k, rsz, x);
    LiveWordsAdd(g.live, b.off, n, x);
    assert Has(Block(b.off, n), x) ==> InFree(g.free, x);
  }

  lemma TakeLiveOk(g: View, k: nat, n: nat)
    requires Inv(g) && k < |g.free| && LINK <= n <= g.free[k].size && Even(n)
    ensures LiveOk(g.live[g.free[k].off := n], g.size)
  {
    hide Even;
    var b := g.free[k];
    forall a | a in g.live
      ensures a + g.live[a] <= b.off || b.End() <= a
    {
      LiveApart(g, a);
    }
  }

  /** nvalloc keeps the invariant; the block it returns is new, holds the size word and the
      request, and every other live block stays as it was. */
  lemma AllocInv(v: View, bytes: nat)
    requires Inv(v)
    ensures var (w, b) := Alloc(v, bytes);
      && Inv(w) && v.size <= w.size
      && b !in v.live && b in w.live && w.live == v.live[b := w.live[b]] && RoundUp(bytes) <= w.live[b]
  {
    hide Inv, FirstFit, Carve, Prepared;
    var rsz := RoundUp(bytes);
    InvTail(v);
    PreparedFits(v, rsz);
    TakeInv(Prepared(v, rsz), FirstFit(v.free, rsz), rsz);
  }

  /** Where nvalloc puts a block, and how much it takes: the first free block that the request fits
      into, or else the last one, which is made larger when it has no room for the request and a
      header behind it. Fewer than 32 bytes are wasted, and the file grows by no more than is
      missing and a page of 8-byte words. */
  lemma AllocPlace(v: View, bytes: nat) returns (k: nat)
    requires Inv(v)
    ensures var (w, b) := Alloc(v, bytes);
      && k < |v.free| && b == v.free[k].off && b in w.live
      && bytes + 8 <= 8 * w.live[b] < bytes + 40
      && (forall i :: 0 <= i < k ==> 8 * v.free[i].size < bytes + 8)
      && (bytes + 8 <= 8 * v.free[k].size || k == |v.free| - 1)
      && (w.size == v.size <==> k < |v.free| - 1 || bytes + 24 <= 8 * v.free[k].size)
      && 8 * w.size < 8 * v.size + bytes + 40 + 0x10000
  {
    hide FirstFit, PageUp, Inv;
    InvTail(v);
    var rsz := RoundUp(bytes);
    k := FirstFit(v.free, rsz);
    PreparedFits(v, rsz);
    forall i | 0 <= i < |v.free|
      ensures v.free[i].size % 2 == 0
    {
      EvenSize(v, i);
    }
    EvenSize(Prepared(v, rsz), k);
  }

  lemma EvenSize(v: View, i: nat)
    requires Inv(v) && i < |v.free|
    ensures v.free[i].size % 2 == 0
  {
    assert Fits(v.free[i], v.size);
  }

  // ----- the free list is a function of the live blocks -----

  lemma {:induction false} SameRuns(f: seq<Block>, g: seq<Block>)
    requires Spaced(f) && Spaced(g)
    requires forall i :: 0 <= i < |f| ==> f[i].size > 0
    requires forall i :: 0 <= i < |g| ==> g[i].size > 0
    requires forall x :: InFree(f, x) <==> InFree(g, x)
    ensures f == g
  {
    if f == [] || g == [] {
      assert f != [] ==> InFree(f, f[0].off);
      assert g != [] ==> InFree(g, g[0].off);
    } else {
      assert InFree(f, f[0].off) && InFree(g, g[0].off);
      assert f[0].off == g[0].off;
      RunEnd(f, g);
      RunEnd(g, f);
      forall x
        ensures InFree(f[1..], x) <==> InFree(g[1..], x)
      {
        InFreeTail(f, x);
        InFreeTail(g, x);
      }
      SameRuns(f[1..], g[1..]);
    }
  }

  /** The word after a run is not free: runs are maximal. */
  lemma RunEnd(f: seq<Block>, g: seq<Block>)
    requires f != [] && g != [] && f[0].off == g[0].off && Spaced(f) && g[0].size > 0
    requires forall x :: InFree(f, x) <==> InFree(g, x)
    ensures g[0].End() <= f[0].End()
  {
    var x := f[0].End();
    assert x < g[0].End() ==> InFree(g, x);
    assert !InFree(f, x);
  }

  lemma InFreeTail(f: seq<Block>, x: nat)
    requires f != [] && Spaced(f)
    ensures InFree(f[1..], x) <==> InFree(f, x) && !Has(f[0], x)
  {
    assert f == [f[0]] + f[1..];
    InFreeConcat([f[0]], f[1..], x);
    InFreeOne(f[0], x);
    assert forall i :: 0 <= i < |f[1..]| ==> f[0].End() < f[1..][i].off;
  }

  /** The free list is determined by the live blocks and the file size alone. */
  lemma Canonical(v: View, w: View)
    requires Inv(v) && Inv(w) && v.size == w.size && v.live == w.live
    ensures v == w
  {
    forall x
      ensures InFree(v.free, x) <==> InFree(w.free, x)
    {
      InFreeBounds(v, x);
      InFreeBounds(w, x);
    }
    SameRuns(v.free, w.free);
  }

  lemma InFreeBounds(v: View, x: nat)
    requires Inv(v)
    ensures InFree(v.free, x) ==> HLEN <= x < v.size
  {
  }

  /** The round trip: freeing the block just allocated restores the free list, or, when the
      file had to grow, the free list of the grown file. */
  lemma AllocThenFree(v: View, bytes: nat)
    requires Inv(v)
    ensures var (w, b) := Alloc(v, bytes);
      b in w.live && Free(w, b) == Prepared(v, RoundUp(bytes))
  {
    hide Inv;
    InvTail(v);
    var (w, b) := Alloc(v, bytes);
    AllocInv(v, bytes);
    FreeInv(w, b);
    PreparedFits(v, RoundUp(bytes));
    AddRemove(v.live, b, w.live[b]);
    Canonical(Free(w, b), Prepared(v, RoundUp(bytes)));
  }

  lemma AddRemove(live: map<nat, nat>, b: nat, n: nat)
    requires b !in live
    ensures live[b := n] - {b} == live
  {
  }

  // ----- runs -----

  datatype Op = Nvalloc(bytes: nat) | Nvfree(b: nat) | Resize(nsz: nat)

  predicate Enabled(v: View, op: Op) {
    match op
    case Nvfree(b) => b in v.live
    case _ => v.free != []
  }

  function Step(v: View, op: Op): View
    requires Enabled(v, op)
  {
    match op
    case Nvalloc(bytes) => Alloc(v, bytes).0
    case Nvfree(b) => Free(v, b)
    case Resize(nsz) => Grow(v, nsz)
  }

  ghost predicate Run(vs: seq<View>, ops: seq<Op>) {
    && |vs| == |ops| + 1
    && vs[0] == FRESH
    && forall i :: 0 <= i < |ops| ==> Enabled(vs[i], ops[i]) && vs[i + 1] == Step(vs[i], ops[i])
  }

  /** Over every run, live and free blocks tile the file above the header, the free list is
      ordered and coalesced with its tail at the end, and no size is lost. */
  lemma {:induction false} RunInv(vs: seq<View>, ops: seq<Op>)
    requires Run(vs, ops)
    ensures forall i :: 0 <= i < |vs| ==> Inv(vs[i])
  {
    hide Inv;
    if ops == [] {
      FreshInv();
    } else {
      var n := |ops| - 1;
      RunInv(vs[..n + 1], ops[..n]);
      assert Inv(vs[..n + 1][n]);
      match ops[n]
      case Nvalloc(bytes) => AllocInv(vs[n], bytes);
      case Nvfree(b) => FreeInv(vs[n], b);
      case Resize(nsz) => GrowInv(vs[n], nsz);
    }
  }

  /** Two runs that end with the same live blocks and file size end with the same free list,
      whatever happened before. */
  lemma RunsAgree(vs: seq<View>, ops: seq<Op>, ws: seq<View>, qs: seq<Op>)
    requires Run(vs, ops) && Run(ws, qs)
    requires vs[|ops|].live == ws[|qs|].live && vs[|ops|].size == ws[|qs|].size
    ensures vs[|ops|] == ws[|qs|]
  {
    hide Inv;
    RunInv(vs, ops);
    RunInv(ws, qs);
    Canonical(vs[|ops|], ws[|qs|]);
  }

  /** When everything has been freed one block is left, from the header to the end. */
  lemma AllFree(v: View)
    requires Inv(v) && v.live == map[]
    ensures v.free == [Block(HLEN, v.size - HLEN)]
  {
    var w := [Block(HLEN, v.size - HLEN)];
    forall x
      ensures InFree(v.free, x) <==> InFree(w, x)
    {
      InFreeBounds(v, x);
      InFreeOne(w[0], x);
    }
    SameRuns(v.free, w);
  }

  ghost function FreeAll(v: View, bs: seq<nat>): View
    requires forall i :: 0 <= i < |bs| ==> bs[i] in v.live
    requires forall i, j :: 0 <= i < j < |bs| ==> bs[i] != bs[j]
    decreases bs
  {
    if bs == [] then v else FreeAll(Free(v, bs[0]), bs[1..])
  }

  lemma {:induction false} FreeAllInv(v: View, bs: seq<nat>)
    requires Inv(v)
    requires forall i :: 0 <= i < |bs| ==> bs[i] in v.live
    requires forall i, j :: 0 <= i < j < |bs| ==> bs[i] != bs[j]
    ensures Inv(FreeAll(v, bs))
    ensures FreeAll(v, bs).size == v.size
    ensures FreeAll(v, bs).live == v.live - (set b | b in bs)
    decreases bs
  {
    hide Inv, Release;
    if bs != [] {
      FreeInv(v, bs[0]);
      FreeAllInv(Free(v, bs[0]), bs[1..]);
      assert (set b | b in bs) == {bs[0]} + (set b | b in bs[1..]);
      assert v.live - {bs[0]} - (set b | b in bs[1..]) == v.live - (set b | b in bs);
    } else {
      assert v.live - {} == v.live;
    }
  }

  /** Frees in any order give the same list. */
  lemma FreeOrder(v: View, bs: seq<nat>, cs: seq<nat>)
    requires Inv(v)
    requires forall i :: 0 <= i < |bs| ==> bs[i] in v.live
    requires forall i, j :: 0 <= i < j < |bs| ==> bs[i] != bs[j]
    requires forall i :: 0 <= i < |cs| ==> cs[i] in v.live
    requires forall i, j :: 0 <= i < j < |cs| ==> cs[i] != cs[j]
    requires forall b :: b in bs <==> b in cs
    ensures FreeAll(v, bs) == FreeAll(v, cs)
  {
    hide Inv;
    FreeAllInv(v, bs);
    FreeAllInv(v, cs);
    assert (set b | b in bs) == (set b | b in cs);
    Canonical(FreeAll(v, bs), FreeAll(v, cs));
  }
}
