/** The sliding-window array in the container: NVClasses-0.9.1/NVArray.cc. A table {first, last,
    offsets} is the user data of the file; a slot's record is {size, data} in a block of its own. */
module NVArrays {
  import opened FreeList
  import opened Container
  import opened Bytes
  import opened UserBlocks

  // ----- layout -----

  /** Gone: the record has been freed, and the table word is not to be read any more. */
  datatype Slot = Empty | Held(off: nat, data: seq<byte>) | Gone

  /** tab: offset of the table, 0 before there is one. */
  datatype Arr = Arr(tab: nat, fst: nat, lst: nat, slots: seq<Slot>)

  ghost predicate Item(w: seq<int>, live: map<nat, nat>, off: nat, d: seq<byte>) {
    && off >= 1 && off - 1 in live && 2 + Words(|d|) <= live[off - 1] && off + 1 + Words(|d|) <= |w|
    && w[off] == |d| && w[off + 1..off + 1 + Words(|d|)] == Pack(d)
  }

  ghost predicate SlotAt(w: seq<int>, live: map<nat, nat>, x: nat, s: Slot) {
    x < |w| &&
    match s
    case Empty => w[x] == 0
    case Held(off, d) => w[x] == off && Item(w, live, off, d)
    case Gone => true
  }

  ghost predicate TabAt(w: seq<int>, live: map<nat, nat>, a: Arr) {
    && USERDATA < |w| && w[USERDATA] == a.tab
    && if a.tab == 0 then a.slots == [] && a.fst == 1 && a.lst == 0
       else
         && a.tab - 1 in live && |a.slots| + 3 <= live[a.tab - 1] && a.tab + 2 + |a.slots| <= |w|
         && w[a.tab] == a.fst && w[a.tab + 1] == a.lst && |a.slots| == a.lst + 1 - a.fst
  }

  ghost predicate SlotsAt(w: seq<int>, live: map<nat, nat>, a: Arr) {
    forall i :: 0 <= i < |a.slots| ==> SlotAt(w, live, a.tab + 2 + i, a.slots[i])
  }

  /** The record of slot i is in block b. */
  predicate HeldAt(a: Arr, i: nat, b: nat) {
    i < |a.slots| && a.slots[i].Held? && a.slots[i].off == b + 1
  }

  /** No record is in two slots, and none is where the table is. */
  ghost predicate Separate(a: Arr) {
    forall i: nat, j: nat, b: nat :: HeldAt(a, i, b) ==> b + 1 != a.tab && (HeldAt(a, j, b) ==> i == j)
  }

  /** Block b is the table or a record. */
  ghost predicate Uses(a: Arr, b: nat) {
    b + 1 == a.tab || exists i: nat :: HeldAt(a, i, b)
  }

  /** The live blocks are the table and one block for each occupied slot. */
  ghost predicate Exact(live: map<nat, nat>, a: Arr) {
    forall b: nat :: b in live <==> Uses(a, b)
  }

  ghost predicate ArrRep(w: seq<int>, live: map<nat, nat>, a: Arr) {
    TabAt(w, live, a) && SlotsAt(w, live, a) && Separate(a) && Exact(live, a)
  }

  lemma ArrParts(w: seq<int>, live: map<nat, nat>, a: Arr)
    requires ArrRep(w, live, a)
    ensures TabAt(w, live, a) && SlotsAt(w, live, a) && Separate(a) && Exact(live, a)
  {
  }

  lemma ArrWhole(w: seq<int>, live: map<nat, nat>, a: Arr)
    requires TabAt(w, live, a) && SlotsAt(w, live, a) && Separate(a) && Exact(live, a)
    ensures ArrRep(w, live, a)
  {
  }

  lemma SlotOf(w: seq<int>, live: map<nat, nat>, a: Arr, i: nat)
    requires i < |a.slots| && SlotsAt(w, live, a)
    ensures SlotAt(w, live, a.tab + 2 + i, a.slots[i])
  {
  }

  lemma ItemIn(w: seq<int>, live: map<nat, nat>, off: nat, d: seq<byte>)
    requires Item(w, live, off, d)
    ensures off >= 1 && off - 1 in live && 2 + Words(|d|) <= live[off - 1] && off + 1 + Words(|d|) <= |w|
    ensures w[off] == |d| && w[off + 1..off + 1 + Words(|d|)] == Pack(d)
  {
  }

  // ----- frames -----

  /** No word of block b changed. */
  ghost predicate Same(w: seq<int>, u: seq<int>, live: map<nat, nat>, l: map<nat, nat>, b: nat) {
    && |w| <= |u| && b in live && b in l && l[b] == live[b]
    && forall x :: b <= x < b + live[b] && x < |w| ==> u[x] == w[x]
  }

  lemma SameItem(w: seq<int>, u: seq<int>, live: map<nat, nat>, l: map<nat, nat>, off: nat, d: seq<byte>)
    requires Item(w, live, off, d) && Same(w, u, live, l, off - 1)
    ensures Item(u, l, off, d)
  {
    assert u[off + 1..off + 1 + Words(|d|)] == w[off + 1..off + 1 + Words(|d|)];
  }

  lemma SameTab(w: seq<int>, u: seq<int>, live: map<nat, nat>, l: map<nat, nat>, a: Arr)
    requires a.tab > 0 && TabAt(w, live, a) && Same(w, u, live, l, a.tab - 1) && u[USERDATA] == w[USERDATA]
    ensures TabAt(u, l, a)
    ensures forall x :: a.tab <= x < a.tab + 2 + |a.slots| ==> u[x] == w[x]
  {
  }

  /** Everything stays when no used block changes. */
  lemma Frame(w: seq<int>, u: seq<int>, live: map<nat, nat>, l: map<nat, nat>, a: Arr)
    requires |w| <= |u| && TabAt(w, live, a) && SlotsAt(w, live, a) && u[USERDATA] == w[USERDATA]
    requires forall b: nat :: Uses(a, b) ==> Same(w, u, live, l, b)
    ensures TabAt(u, l, a) && SlotsAt(u, l, a)
  {
    hide Same, Item, TabAt;
    if a.tab > 0 {
      assert Uses(a, a.tab - 1);
      SameTab(w, u, live, l, a);
    } else {
      NoTab(w, u, live, l, a);
    }
    forall i | 0 <= i < |a.slots|
      ensures SlotAt(u, l, a.tab + 2 + i, a.slots[i])
    {
      SlotOf(w, live, a, i);
      FrameSlot(w, u, live, l, a, i);
    }
  }

  lemma NoTab(w: seq<int>, u: seq<int>, live: map<nat, nat>, l: map<nat, nat>, a: Arr)
    requires |w| <= |u| && TabAt(w, live, a) && a.tab == 0 && u[USERDATA] == w[USERDATA]
    ensures a.slots == [] && TabAt(u, l, a)
  {
  }

  lemma FrameSlot(w: seq<int>, u: seq<int>, live: map<nat, nat>, l: map<nat, nat>, a: Arr, i: nat)
    requires |w| <= |u| && i < |a.slots| && SlotAt(w, live, a.tab + 2 + i, a.slots[i])
    requires u[a.tab + 2 + i] == w[a.tab + 2 + i]
    requires forall b: nat :: HeldAt(a, i, b) ==> Same(w, u, live, l, b)
    ensures SlotAt(u, l, a.tab + 2 + i, a.slots[i])
  {
    hide Same, Item;
    if a.slots[i].Held? {
      var off := a.slots[i].off;
      ItemStart(w, live, off, a.slots[i].data);
      assert HeldAt(a, i, off - 1);
      SameItem(w, u, live, l, off, a.slots[i].data);
    }
  }

  lemma ItemStart(w: seq<int>, live: map<nat, nat>, off: nat, d: seq<byte>)
    requires Item(w, live, off, d)
    ensures off >= 1 && off - 1 in live
  {
  }

  lemma KeptSame(w: seq<int>, u: seq<int>, live: map<nat, nat>, l: map<nat, nat>, b: nat)
    requires |w| <= |u| && b in live && b in l && l[b] == live[b]
    requires Kept(w, u, live) || Kept(w, u, l)
    ensures Same(w, u, live, l, b)
  {
    forall x | b <= x < b + live[b] && x < |w|
      ensures u[x] == w[x]
    {
      assert InLive(live, x) && InLive(l, x);
    }
  }

  // ----- freeing a record -----

  function WithSlot(a: Arr, i: nat, s: Slot): Arr
    requires i < |a.slots|
  {
    a.(slots := a.slots[i := s])
  }

  lemma GoneUses(a: Arr, i: nat)
    requires i < |a.slots| && a.slots[i].Held? && a.slots[i].off >= 1 && Separate(a)
    ensures Separate(WithSlot(a, i, Gone))
    ensures forall b: nat :: Uses(WithSlot(a, i, Gone), b) <==> Uses(a, b) && b != a.slots[i].off - 1
  {
    var n := WithSlot(a, i, Gone);
    forall j: nat, k: nat, b: nat | HeldAt(n, j, b)
      ensures b + 1 != n.tab && (HeldAt(n, k, b) ==> j == k)
    {
      assert HeldAt(a, j, b);
      assert HeldAt(n, k, b) ==> HeldAt(a, k, b);
    }
    forall b
      ensures Uses(n, b) <==> Uses(a, b) && b != a.slots[i].off - 1
    {
      GoneUse(a, i, b);
    }
  }

  lemma GoneUse(a: Arr, i: nat, b: nat)
    requires i < |a.slots| && a.slots[i].Held? && a.slots[i].off >= 1 && Separate(a)
    ensures Uses(WithSlot(a, i, Gone), b) <==> Uses(a, b) && b != a.slots[i].off - 1
  {
    var n := WithSlot(a, i, Gone);
    assert HeldAt(a, i, a.slots[i].off - 1);
    if j :| HeldAt(n, j, b) {
      assert HeldAt(a, j, b);
    }
    if j :| HeldAt(a, j, b) && b != a.slots[i].off - 1 {
      assert HeldAt(n, j, b);
    }
  }

  lemma FreeRep(w: seq<int>, u: seq<int>, live: map<nat, nat>, a: Arr, i: nat)
    requires |w| <= |u| && i < |a.slots| && a.slots[i].Held? && a.slots[i].off >= 1
    requires ArrRep(w, live, a) && Kept(w, u, live - {a.slots[i].off - 1}) && u[USERDATA] == w[USERDATA]
    ensures ArrRep(u, live - {a.slots[i].off - 1}, WithSlot(a, i, Gone))
  {
    hide ArrRep, Kept, TabAt, SlotsAt, Separate, Uses, Same, WithSlot;
    var n, l := WithSlot(a, i, Gone), live - {a.slots[i].off - 1};
    ArrParts(w, live, a);
    GoneUses(a, i);
    GoneAt(w, live, a, i);
    forall b | Uses(n, b)
      ensures Same(w, u, live, l, b)
    {
      KeptSame(w, u, live, l, b);
    }
    Frame(w, u, live, l, n);
    ArrWhole(u, l, n);
  }

  lemma GoneAt(w: seq<int>, live: map<nat, nat>, a: Arr, i: nat)
    requires i < |a.slots| && TabAt(w, live, a) && SlotsAt(w, live, a)
    ensures TabAt(w, live, WithSlot(a, i, Gone)) && SlotsAt(w, live, WithSlot(a, i, Gone))
  {
    hide Item;
  }

  // ----- giving a slot a record -----

  /** A live block q beside the structure. */
  ghost predicate Beside(w: seq<int>, live: map<nat, nat>, a: Arr, q: nat) {
    && TabAt(w, live, a) && SlotsAt(w, live, a) && Separate(a) && !Uses(a, q) && q in live
    && forall b: nat :: b in live <==> Uses(a, b) || b == q
  }

  lemma AllocRep(w: seq<int>, u: seq<int>, live: map<nat, nat>, a: Arr, q: nat, n: nat)
    requires |w| <= |u| && q !in live && Kept(w, u, live) && ArrRep(w, live, a) && u[USERDATA] == w[USERDATA]
    ensures Beside(u, live[q := n], a, q)
  {
    hide ArrRep, Kept, TabAt, SlotsAt, Separate, Uses, Same;
    ArrParts(w, live, a);
    var l := live[q := n];
    forall b: nat | Uses(a, b)
      ensures Same(w, u, live, l, b)
    {
      KeptSame(w, u, live, l, b);
    }
    Frame(w, u, live, l, a);
  }

  /** u is w but for words inside block q and the table word of slot i, which leads there. */
  ghost predicate Wrote(w: seq<int>, u: seq<int>, live: map<nat, nat>, a: Arr, i: nat, q: nat)
  {
    && |u| == |w| && q in live && a.tab + 2 + i < |u| && u[a.tab + 2 + i] == q + 1
    && forall x :: 0 <= x < |w| && !(q < x < q + live[q]) && x != a.tab + 2 + i ==> u[x] == w[x]
  }

  lemma SetSlot(w: seq<int>, u: seq<int>, live: map<nat, nat>, hi: nat, a: Arr, i: nat, q: nat, d: seq<byte>)
    requires LiveOk(live, hi) && TabAt(w, live, a) && SlotsAt(w, live, a) && Separate(a)
    requires i < |a.slots| && q + 1 != a.tab && Wrote(w, u, live, a, i, q) && Item(u, live, q + 1, d)
    requires forall j: nat :: HeldAt(a, j, q) ==> j == i
    ensures TabAt(u, live, WithSlot(a, i, Held(q + 1, d))) && SlotsAt(u, live, WithSlot(a, i, Held(q + 1, d)))
  {
    hide LiveOk, Item, SlotsAt, Separate, Wrote;
    var n := WithSlot(a, i, Held(q + 1, d));
    TabWords(w, u, live, hi, a, i, q);
    SlotsWords(w, u, live, hi, a, i, q, d);
  }

  lemma TabWords(w: seq<int>, u: seq<int>, live: map<nat, nat>, hi: nat, a: Arr, i: nat, q: nat)
    requires LiveOk(live, hi) && TabAt(w, live, a) && i < |a.slots| && q + 1 != a.tab && Wrote(w, u, live, a, i, q)
    ensures TabAt(u, live, a) && |u| == |w|
    ensures forall x :: a.tab <= x < a.tab + 2 + |a.slots| && x != a.tab + 2 + i ==> u[x] == w[x]
  {
    hide LiveOk;
    HeaderApart(live, hi, q);
    HeaderApart(live, hi, a.tab - 1);
    forall x | a.tab <= x < a.tab + 2 + |a.slots| && x != a.tab + 2 + i
      ensures u[x] == w[x]
    {
      BlocksApart(live, hi, a.tab - 1, q, x);
    }
  }

  lemma HeaderApart(live: map<nat, nat>, hi: nat, q: nat)
    requires LiveOk(live, hi) && q in live
    ensures HLEN <= q
  {
    hide Even;
  }

  lemma SlotsWords(w: seq<int>, u: seq<int>, live: map<nat, nat>, hi: nat, a: Arr, i: nat, q: nat, d: seq<byte>)
    requires LiveOk(live, hi) && TabAt(w, live, a) && SlotsAt(w, live, a) && Separate(a)
    requires i < |a.slots| && q + 1 != a.tab && Wrote(w, u, live, a, i, q) && Item(u, live, q + 1, d)
    requires forall j: nat :: HeldAt(a, j, q) ==> j == i
    ensures SlotsAt(u, live, WithSlot(a, i, Held(q + 1, d)))
  {
    hide LiveOk, Item, SlotsAt, SlotAt, TabAt, Separate, Wrote, Same;
    var n := WithSlot(a, i, Held(q + 1, d));
    TabWords(w, u, live, hi, a, i, q);
    TabSlots(w, live, a);
    forall j: nat | j < |n.slots|
      ensures SlotAt(u, live, n.tab + 2 + j, n.slots[j])
    {
      if j == i {
        HeldSlot(w, u, live, a, i, q, d);
      } else {
        SlotOf(w, live, a, j);
        forall b: nat | HeldAt(a, j, b)
          ensures Same(w, u, live, live, b)
        {
          OtherSame(w, u, live, hi, a, i, j, q, b);
        }
        FrameSlot(w, u, live, live, a, j);
      }
    }
    SlotsWhole(u, live, n);
  }

  lemma TabSlots(w: seq<int>, live: map<nat, nat>, a: Arr)
    requires TabAt(w, live, a) && a.slots != []
    ensures a.tab > 0 && a.tab + 2 + |a.slots| <= |w|
  {
  }

  lemma SlotsWhole(w: seq<int>, live: map<nat, nat>, a: Arr)
    requires forall j: nat :: j < |a.slots| ==> SlotAt(w, live, a.tab + 2 + j, a.slots[j])
    ensures SlotsAt(w, live, a)
  {
    hide SlotAt;
  }

  lemma HeldSlot(w: seq<int>, u: seq<int>, live: map<nat, nat>, a: Arr, i: nat, q: nat, d: seq<byte>)
    requires Wrote(w, u, live, a, i, q) && Item(u, live, q + 1, d)
    ensures SlotAt(u, live, a.tab + 2 + i, Held(q + 1, d))
  {
    hide Item;
  }

  lemma OtherSame(w: seq<int>, u: seq<int>, live: map<nat, nat>, hi: nat, a: Arr, i: nat, j: nat, q: nat, b: nat)
    requires LiveOk(live, hi) && TabAt(w, live, a) && i < |a.slots| && j < |a.slots| && j != i
    requires Wrote(w, u, live, a, i, q) && HeldAt(a, j, b) && Separate(a)
    requires SlotAt(w, live, a.tab + 2 + j, a.slots[j]) && forall k: nat :: HeldAt(a, k, q) ==> k == i
    ensures Same(w, u, live, live, b)
  {
    hide LiveOk, Item;
    ItemStart(w, live, a.slots[j].off, a.slots[j].data);
    forall x | b <= x < b + live[b] && x < |w|
      ensures u[x] == w[x]
    {
      BlocksApart(live, hi, b, q, x);
      BlocksApart(live, hi, b, a.tab - 1, x);
    }
  }

  lemma PutRep(w: seq<int>, u: seq<int>, live: map<nat, nat>, hi: nat, a: Arr, i: nat, q: nat, d: seq<byte>)
    requires LiveOk(live, hi) && Beside(w, live, a, q) && i < |a.slots| && !a.slots[i].Held?
    requires Wrote(w, u, live, a, i, q) && Item(u, live, q + 1, d)
    ensures ArrRep(u, live, WithSlot(a, i, Held(q + 1, d)))
  {
    hide LiveOk, Item, SlotsAt, TabAt, Separate, Wrote, ArrRep, WithSlot, HeldAt;
    var n := WithSlot(a, i, Held(q + 1, d));
    assert forall j: nat :: HeldAt(a, j, q) ==> Uses(a, q);
    SetSlot(w, u, live, hi, a, i, q, d);
    PutUses(a, i, q, d);
    ArrWhole(u, live, n);
  }

  lemma PutUses(a: Arr, i: nat, q: nat, d: seq<byte>)
    requires i < |a.slots| && !a.slots[i].Held? && Separate(a) && !Uses(a, q)
    ensures Separate(WithSlot(a, i, Held(q + 1, d)))
    ensures forall b: nat :: Uses(WithSlot(a, i, Held(q + 1, d)), b) <==> Uses(a, b) || b == q
  {
    var n := WithSlot(a, i, Held(q + 1, d));
    assert forall j: nat, b: nat :: HeldAt(n, j, b) <==> if j == i then b == q else HeldAt(a, j, b);
    assert forall j: nat :: !HeldAt(a, j, q);
    forall b: nat
      ensures Uses(n, b) <==> Uses(a, b) || b == q
    {
      assert HeldAt(n, i, q);
      if j :| HeldAt(a, j, b) {
        assert HeldAt(n, j, b);
      }
    }
  }

  /** New data of the same size for a slot that has a record. */
  lemma RewriteRep(w: seq<int>, u: seq<int>, live: map<nat, nat>, hi: nat, a: Arr, i: nat, d: seq<byte>)
    requires i < |a.slots| && a.slots[i].Held? && a.slots[i].off >= 1
    requires LiveOk(live, hi) && ArrRep(w, live, a)
    requires Wrote(w, u, live, a, i, a.slots[i].off - 1) && Item(u, live, a.slots[i].off, d)
    ensures ArrRep(u, live, WithSlot(a, i, Held(a.slots[i].off, d)))
  {
    hide LiveOk, Item, SlotsAt, TabAt, Wrote, ArrRep;
    var q := a.slots[i].off - 1;
    var n := WithSlot(a, i, Held(q + 1, d));
    ArrParts(w, live, a);
    assert HeldAt(a, i, q);
    assert forall j: nat, b: nat :: HeldAt(n, j, b) <==> HeldAt(a, j, b);
    SetSlot(w, u, live, hi, a, i, q, d);
    forall b: nat
      ensures Uses(n, b) <==> Uses(a, b)
    {
      if j :| HeldAt(a, j, b) {
        assert HeldAt(n, j, b);
      }
    }
    ArrWhole(u, live, n);
  }

  // ----- a new table -----

  /** What ssetsize copies: the slots of the numbers in both windows. */
  function NewSlots(a: Arr, f: nat, l: nat): (n: seq<Slot>)
    requires f <= l + 1 && |a.slots| == a.lst + 1 - a.fst
    ensures |n| == l + 1 - f
  {
    seq(l + 1 - f, k requires 0 <= k < l + 1 - f =>
      if a.fst <= f + k <= a.lst then a.slots[f + k - a.fst] else Empty)
  }

  /** No record lies outside the window, and no slot inside it is gone. */
  ghost predicate Fitting(a: Arr, f: nat, l: nat) {
    forall j: nat :: j < |a.slots| ==>
      (a.slots[j].Held? ==> f <= a.fst + j <= l) && (a.slots[j].Gone? ==> !(f <= a.fst + j <= l))
  }

  /** The entry of a number in the old table. */
  function Copied(w: seq<int>, a: Arr, nbr: int): int {
    if a.fst <= nbr <= a.lst && a.tab + 2 + (nbr - a.fst) < |w| then w[a.tab + 2 + (nbr - a.fst)] else 0
  }

  /** The words ssetsize writes: a table in block q, and its offset in the file header. */
  ghost predicate NewTable(w: seq<int>, u: seq<int>, live: map<nat, nat>, a: Arr, q: nat, f: nat, l: nat) {
    && f <= l + 1 && |a.slots| == a.lst + 1 - a.fst && a.tab + 2 + |a.slots| <= |w|
    && q in live && l + 1 - f + 3 <= live[q] && q + live[q] <= |w| && HLEN <= q && |u| == |w|
    && (forall x :: 0 <= x < |w| && !(q < x < q + live[q]) && x != USERDATA ==> u[x] == w[x])
    && u[USERDATA] == q + 1 && u[q + 1] == f && u[q + 2] == l
    && forall x :: q + 3 <= x < q + 3 + (l + 1 - f) ==> u[x] == Copied(w, a, f + (x - q - 3))
  }

  lemma NewTab(w: seq<int>, u: seq<int>, live: map<nat, nat>, a: Arr, q: nat, f: nat, l: nat)
    requires NewTable(w, u, live, a, q, f, l)
    ensures TabAt(u, live, Arr(q + 1, f, l, NewSlots(a, f, l)))
  {
  }

  lemma NewUses(a: Arr, q: nat, f: nat, l: nat)
    requires f <= l + 1 && |a.slots| == a.lst + 1 - a.fst && Separate(a) && !Uses(a, q) && Fitting(a, f, l)
    ensures Separate(Arr(q + 1, f, l, NewSlots(a, f, l)))
    ensures forall b: nat :: Uses(Arr(q + 1, f, l, NewSlots(a, f, l)), b) <==> b == q || (Uses(a, b) && b + 1 != a.tab)
  {
    var n := Arr(q + 1, f, l, NewSlots(a, f, l));
    forall j: nat, b: nat
      ensures HeldAt(n, j, b) ==> HeldAt(a, f + j - a.fst, b) && f + j >= a.fst
      ensures HeldAt(a, j, b) ==> a.fst + j >= f && HeldAt(n, a.fst + j - f, b)
    {
    }
    forall j: nat, k: nat, b: nat | HeldAt(n, j, b)
      ensures b + 1 != n.tab && (HeldAt(n, k, b) ==> j == k)
    {
      assert HeldAt(a, f + j - a.fst, b);
      assert Uses(a, b);
      assert HeldAt(n, k, b) ==> HeldAt(a, f + k - a.fst, b);
    }
    forall b: nat
      ensures Uses(n, b) <==> b == q || (Uses(a, b) && b + 1 != a.tab)
    {
      if j: nat :| HeldAt(n, j, b) {
        assert HeldAt(a, f + j - a.fst, b);
      }
      if j: nat :| HeldAt(a, j, b) {
        assert HeldAt(n, a.fst + j - f, b);
      }
    }
  }

  lemma NewSlotsAt(w: seq<int>, u: seq<int>, live: map<nat, nat>, hi: nat, a: Arr, q: nat, f: nat, l: nat)
    requires f <= l + 1 && |a.slots| == a.lst + 1 - a.fst
    requires LiveOk(live, hi) && SlotsAt(w, live, a) && !Uses(a, q)
    requires NewTable(w, u, live, a, q, f, l) && Fitting(a, f, l)
    ensures SlotsAt(u, live, Arr(q + 1, f, l, NewSlots(a, f, l)))
  {
    hide LiveOk, Item, SlotsAt, SlotAt, NewTable, Fitting, Uses;
    var n := Arr(q + 1, f, l, NewSlots(a, f, l));
    forall k: nat | k < |n.slots|
      ensures SlotAt(u, live, n.tab + 2 + k, n.slots[k])
    {
      NewSlotAt(w, u, live, hi, a, q, f, l, k);
    }
    SlotsWhole(u, live, n);
  }

  lemma NewShape(w: seq<int>, u: seq<int>, live: map<nat, nat>, a: Arr, q: nat, f: nat, l: nat)
    requires NewTable(w, u, live, a, q, f, l)
    ensures f <= l + 1 && |a.slots| == a.lst + 1 - a.fst
  {
  }

  lemma NewSlotAt(w: seq<int>, u: seq<int>, live: map<nat, nat>, hi: nat, a: Arr, q: nat, f: nat, l: nat, k: nat)
    requires f <= l + 1 && |a.slots| == a.lst + 1 - a.fst && k < l + 1 - f
    requires LiveOk(live, hi) && SlotsAt(w, live, a) && !Uses(a, q)
    requires NewTable(w, u, live, a, q, f, l) && Fitting(a, f, l)
    ensures SlotAt(u, live, q + 3 + k, NewSlots(a, f, l)[k])
  {
    hide LiveOk, Item, SlotsAt, Same;
    if a.fst <= f + k <= a.lst {
      var j := f + k - a.fst;
      SlotOf(w, live, a, j);
      if a.slots[j].Held? {
        var off, d := a.slots[j].off, a.slots[j].data;
        ItemStart(w, live, off, d);
        assert HeldAt(a, j, off - 1);
        NewSame(w, u, live, hi, a, q, f, l, off - 1);
        SameItem(w, u, live, live, off, d);
      }
    }
  }

  lemma NewSame(w: seq<int>, u: seq<int>, live: map<nat, nat>, hi: nat, a: Arr, q: nat, f: nat, l: nat, b: nat)
    requires LiveOk(live, hi) && NewTable(w, u, live, a, q, f, l) && b in live && b != q
    ensures Same(w, u, live, live, b)
  {
    hide LiveOk;
    HeaderApart(live, hi, b);
    forall x | b <= x < b + live[b] && x < |w|
      ensures u[x] == w[x]
    {
      BlocksApart(live, hi, b, q, x);
    }
  }

  /** After the table is written, and before the old one is given back. */
  lemma ResizeRep(w: seq<int>, u: seq<int>, live: map<nat, nat>, hi: nat, a: Arr, q: nat, f: nat, l: nat)
    requires LiveOk(live, hi) && Beside(w, live, a, q) && NewTable(w, u, live, a, q, f, l) && Fitting(a, f, l)
    ensures f <= l + 1 && |a.slots| == a.lst + 1 - a.fst
    ensures var n := Arr(q + 1, f, l, NewSlots(a, f, l));
      if a.tab == 0 then ArrRep(u, live, n)
      else a.tab - 1 in live && q != a.tab - 1 && Beside(u, live, n, a.tab - 1)
  {
    hide LiveOk, TabAt, SlotsAt, Separate, NewTable, Fitting, HeldAt;
    NewShape(w, u, live, a, q, f, l);
    NewTab(w, u, live, a, q, f, l);
    NewSlotsAt(w, u, live, hi, a, q, f, l);
    NewUses(a, q, f, l);
  }

  /** Giving back a block beside the structure. */
  lemma DropRep(w: seq<int>, u: seq<int>, live: map<nat, nat>, a: Arr, q: nat)
    requires |w| <= |u| && Beside(w, live, a, q) && Kept(w, u, live - {q}) && u[USERDATA] == w[USERDATA]
    ensures ArrRep(u, live - {q}, a)
  {
    hide Kept, TabAt, SlotsAt, Separate, Uses, Same;
    var l := live - {q};
    forall b: nat | Uses(a, b)
      ensures Same(w, u, live, l, b)
    {
      KeptSame(w, u, live, l, b);
    }
    Frame(w, u, live, l, a);
  }

  // ----- the object -----

  class NVArray {
    const c: NVcontainer
    /** Offset of the first table entry, and the numbers of the first and the last slot. */
    var arrtab: nat
    var arrfst: nat
    var arrlst: nat
    ghost var a: Arr

    ghost predicate Valid()
      reads this, c, c.mem
    {
      && c.Valid() && ArrRep(c.mem[..], c.view.live, a)
      && arrtab == (if a.tab == 0 then 0 else a.tab + 2) && arrfst == a.fst && arrlst == a.lst
    }

    lemma Parts()
      requires Valid()
      ensures c.Valid() && Inv(c.view) && Rep(c.mem[..], c.view) && LiveOk(c.view.live, c.view.size)
      ensures ArrRep(c.mem[..], c.view.live, a) && TabAt(c.mem[..], c.view.live, a)
      ensures SlotsAt(c.mem[..], c.view.live, a)
      ensures arrfst == a.fst && arrlst == a.lst && arrtab == (if a.tab == 0 then 0 else a.tab + 2)
      ensures |a.slots| == a.lst + 1 - a.fst && (a.slots != [] ==> a.tab > 0)
      ensures USERDATA < HLEN < c.mem.Length && c.view.free != []
    {
      hide Inv, LiveOk, Separate, SlotAt, Uses, Rep, NVcontainer.Valid;
      Layout(c);
      ArrParts(c.mem[..], c.view.live, a);
    }

    lemma Whole()
      requires c.Valid() && ArrRep(c.mem[..], c.view.live, a) && arrfst == a.fst && arrlst == a.lst
      requires arrtab == (if a.tab == 0 then 0 else a.tab + 2)
      ensures Valid()
    {
      hide Inv, Rep, ArrRep;
    }

    constructor ()
      ensures Valid() && a == Arr(0, 1, 0, []) && fresh(c) && fresh(c.mem)
    {
      c := new NVcontainer();
      a := Arr(0, 1, 0, []);
      arrtab, arrfst, arrlst := 0, 1, 0;
      new;
      hide Inv, Rep;
      assert forall b: nat :: !Uses(a, b);
    }

    /** The offset of a number's record, 0 when there is none. */
    method Sget(nbr: nat) returns (off: nat)
      requires Valid() && forall i :: 0 <= i < |a.slots| ==> !a.slots[i].Gone?
      ensures off == if a.fst <= nbr <= a.lst && nbr - a.fst < |a.slots| && a.slots[nbr - a.fst].Held?
                     then a.slots[nbr - a.fst].off else 0
      ensures off != 0 ==> Item(c.mem[..], c.view.live, off, a.slots[nbr - a.fst].data)
    {
      hide *;
      Parts();
      if arrfst <= nbr <= arrlst {
        SlotWord(c.mem[..], c.view.live, a, nbr - arrfst);
        if c.mem[arrtab + (nbr - arrfst)] != 0 {
          return c.mem[arrtab + (nbr - arrfst)];
        }
      }
      return 0;
    }

    /** nvfree(arrtab[i]): the table word stays as it is. */
    method FreeSlot(i: nat)
      requires Valid() && i < |a.slots| && a.slots[i].Held?
      modifies this`a, c, c.mem
      ensures Valid() && c.mem == old(c.mem) && a == WithSlot(old(a), i, Gone)
    {
      hide *;
      Parts();
      SlotWord(c.mem[..], c.view.live, a, i);
      ghost var w, v := c.mem[..], c.view;
      FreeLive(v, a.slots[i].off - 1);
      c.Nvfree(c.mem[arrtab + i]);
      FreeRep(w, c.mem[..], v.live, a, i);
      a := WithSlot(a, i, Gone);
      WithSlotIs(old(a), i, Gone);
      Whole();
    }

    /** nvalloc of a record's block. */
    method AllocItem(n: nat) returns (x: nat)
      requires Valid()
      modifies c, c.mem
      ensures c.Valid() && (c.mem == old(c.mem) || fresh(c.mem)) && Inv(c.view) && LiveOk(c.view.live, c.view.size)
      ensures x >= 1 && Beside(c.mem[..], c.view.live, a, x - 1) && RoundUp(n) <= c.view.live[x - 1]
      ensures x - 1 + c.view.live[x - 1] <= c.mem.Length && USERDATA < HLEN <= x - 1
    {
      hide *;
      Parts();
      ghost var w, v := c.mem[..], c.view;
      x := c.Nvalloc(n);
      Layout(c);
      Allocated(v, w, c.view, c.mem[..], x, n);
      AllocRep(w, c.mem[..], v.live, a, x - 1, c.view.live[x - 1]);
    }

    /** Stores a record: nvalloc, the table word, the size, the data. */
    method PutSlot(i: nat, d: seq<byte>) returns (x: nat)
      requires Valid() && i < |a.slots| && !a.slots[i].Held?
      modifies this`a, c, c.mem
      ensures Valid() && (c.mem == old(c.mem) || fresh(c.mem))
      ensures a == WithSlot(old(a), i, Held(x, d))
    {
      hide *;
      Parts();
      x := AllocItem(|d| + 8);
      BesideOld(c.mem[..], c.view.live, a, x - 1);
      ItemFits(|d|, c.view.live[x - 1]);
      ghost var w, live := c.mem[..], c.view.live;
      BesideTab(w, live, a, x - 1);
      OldWord(w, live, c.view.size, a, x - 1, i);
      c.Store(a.tab - 1, arrtab + i, x);
      c.Store(x - 1, x, |d|);
      StoreBytes(c, x - 1, x + 1, d);
      WroteItem(w, c.mem[..], live, a, i, x, d);
      PutRep(w, c.mem[..], live, c.view.size, a, i, x - 1, d);
      a := WithSlot(a, i, Held(x, d));
      WithSlotIs(old(a), i, Held(x, d));
      Whole();
    }

    /** Overwrites the data of a record in place. */
    method Rewrite(i: nat, d: seq<byte>)
      requires Valid() && i < |a.slots| && a.slots[i].Held? && |a.slots[i].data| == |d|
      modifies this`a, c.mem
      ensures Valid() && a == WithSlot(old(a), i, Held(old(a).slots[i].off, d))
    {
      hide *;
      Parts();
      SlotWord(c.mem[..], c.view.live, a, i);
      var x := c.mem[arrtab + i];
      StoreData(i, x, d);
      WithSlotIs(a, i, Held(x, d));
      a := WithSlot(a, i, Held(x, d));
      Whole();
    }

    /** The bytes of a record whose size stays. */
    method StoreData(ghost i: nat, x: nat, d: seq<byte>)
      requires c.Valid() && LiveOk(c.view.live, c.view.size) && ArrRep(c.mem[..], c.view.live, a)
      requires i < |a.slots| && a.slots[i].Held? && |a.slots[i].data| == |d| && x == a.slots[i].off
      modifies c.mem
      ensures c.Valid() && ArrRep(c.mem[..], c.view.live, WithSlot(a, i, Held(x, d)))
    {
      hide *;
      ArrParts(c.mem[..], c.view.live, a);
      ghost var w, live := c.mem[..], c.view.live;
      SlotWord(w, live, a, i);
      ItemIn(w, live, x, a.slots[i].data);
      StoreBytes(c, x - 1, x + 1, d);
      assert c.mem[..][x + 1..x + 1 + Words(|d|)] == c.mem[x + 1..x + 1 + Words(|d|)];
      RewroteRep(w, c.mem[..], live, c.view.size, a, i, d);
    }

    /** ssetsize: a new table with the slots of the numbers in both windows. */
    method Ssetsize(f: nat, l: nat)
      requires Valid() && f <= l + 1 && Fitting(a, f, l)
      modifies this, c, c.mem
      ensures Valid() && (c.mem == old(c.mem) || fresh(c.mem))
      ensures |old(a).slots| == old(a).lst + 1 - old(a).fst
      ensures a == Arr(a.tab, f, l, NewSlots(old(a), f, l))
    {
      hide *;
      Parts();
      var n := l + 1 - f;
      var p := AllocItem((n + 2) * 8);
      BesideOld(c.mem[..], c.view.live, a, p - 1);
      TableFits(n, c.view.live[p - 1]);
      ghost var w, v := c.mem[..], c.view;
      BesideUser(w, v.live, a, p - 1);
      var q := c.mem[USERDATA];
      FillTable(p, f, l);
      ghost var u := c.mem[..];
      ResizeRep(w, u, v.live, v.size, a, p - 1, f, l);
      NewTab(w, u, v.live, a, p - 1, f, l);
      UserWordIs(u, v.live, Arr(p, f, l, NewSlots(a, f, l)));
      arrfst, arrlst, arrtab := f, l, p + 2;
      if q != 0 {
        FreeLive(v, q - 1);
        c.Nvfree(q);
        DropRep(u, c.mem[..], v.live, Arr(p, f, l, NewSlots(a, f, l)), q - 1);
      }
      a := Arr(p, f, l, NewSlots(a, f, l));
      Whole();
    }

    /** The table's words, and setdata. */
    method FillTable(p: nat, f: nat, l: nat)
      requires c.Valid() && Inv(c.view) && p >= 1 && Beside(c.mem[..], c.view.live, a, p - 1)
      requires f <= l + 1 && |a.slots| == a.lst + 1 - a.fst && l + 1 - f + 3 <= c.view.live[p - 1]
      requires p - 1 + c.view.live[p - 1] <= c.mem.Length && USERDATA < HLEN <= p - 1
      requires arrfst == a.fst && arrlst == a.lst && (a.slots != [] ==> arrtab == a.tab + 2)
      modifies c.mem
      ensures c.Valid() && NewTable(old(c.mem[..]), c.mem[..], c.view.live, a, p - 1, f, l)
    {
      hide *;
      ghost var w, live := c.mem[..], c.view.live;
      BesideOld(w, live, a, p - 1);
      BesideUser(w, live, a, p - 1);
      Layout(c);
      c.Store(p - 1, p, f);
      c.Store(p - 1, p + 1, l);
      var i := 0;
      while i < l + 1 - f
        invariant 0 <= i <= l + 1 - f && c.Valid() && c.mem.Length == |w|
        invariant c.mem[p] == f && c.mem[p + 1] == l
        invariant forall x :: 0 <= x < |w| && !(p <= x < p + 2 + i) ==> c.mem[x] == w[x]
        invariant forall x :: p + 2 <= x < p + 2 + i ==> c.mem[x] == Copied(w, a, f + (x - p - 2))
      {
        CopiedIs(w, a, i + f);
        var e := 0;
        if arrfst <= i + f <= arrlst {
          OldWord(w, live, c.view.size, a, p - 1, i + f - a.fst);
          e := c.mem[arrtab + (i + f - arrfst)];
        }
        c.Store(p - 1, p + 2 + i, e);
        i := i + 1;
      }
      c.SetData(p);
      FilledTable(w, c.mem[..], live, a, p, f, l);
    }
  }

  lemma CopiedIs(w: seq<int>, a: Arr, nbr: int)
    requires a.tab + 2 + |a.slots| <= |w| && |a.slots| == a.lst + 1 - a.fst
    ensures Copied(w, a, nbr) == if a.fst <= nbr <= a.lst then w[a.tab + 2 + (nbr - a.fst)] else 0
  {
  }

  lemma WithSlotIs(a: Arr, i: nat, s: Slot)
    requires i < |a.slots|
    ensures var n := WithSlot(a, i, s); n == Arr(a.tab, a.fst, a.lst, a.slots[i := s])
  {
  }

  lemma SlotWord(w: seq<int>, live: map<nat, nat>, a: Arr, i: nat)
    requires i < |a.slots| && SlotsAt(w, live, a)
    ensures a.tab + 2 + i < |w|
    ensures a.slots[i].Empty? ==> w[a.tab + 2 + i] == 0
    ensures a.slots[i].Held? ==>
      && a.slots[i].off >= 1 && w[a.tab + 2 + i] == a.slots[i].off && a.slots[i].off - 1 in live
      && Item(w, live, a.slots[i].off, a.slots[i].data)
  {
    SlotOf(w, live, a, i);
  }

  lemma FreeLive(v: View, b: nat)
    requires b in v.live
    ensures Free(v, b).live == v.live - {b}
  {
  }

  lemma Allocated(v: View, w: seq<int>, x: View, u: seq<int>, p: nat, n: nat)
    requires Inv(v) && Rep(w, v) && p >= 1 && v.free != [] && (x, p - 1) == Alloc(v, n) && Inv(x) && Rep(u, x)
    ensures p - 1 !in v.live && p - 1 in x.live && x.live == v.live[p - 1 := x.live[p - 1]]
    ensures RoundUp(n) <= x.live[p - 1] && p - 1 + x.live[p - 1] <= |u| && |w| <= |u|
    ensures LiveOk(x.live, x.size) && USERDATA < HLEN <= p - 1
  {
    hide Inv, Rep, Alloc, LiveOk, FreeOk;
    AllocInv(v, n);
    InvParts(x);
    InParts(x, u, p - 1);
    TailHeader(v, w);
    TailHeader(x, u);
  }

  lemma ItemFits(n: nat, size: nat)
    requires RoundUp(n + 8) <= size
    ensures 2 + Words(n) <= size
  {
  }

  lemma TableFits(n: nat, size: nat)
    requires RoundUp((n + 2) * 8) <= size
    ensures n + 3 <= size
  {
  }

  lemma BesideTab(w: seq<int>, live: map<nat, nat>, a: Arr, q: nat)
    requires Beside(w, live, a, q) && a.slots != []
    ensures a.tab > 0 && a.tab - 1 in live && |a.slots| + 3 <= live[a.tab - 1] && q + 1 != a.tab && q in live
  {
    hide SlotsAt, Separate, Uses;
    TabUsed(a, q);
  }

  lemma TabUsed(a: Arr, q: nat)
    requires !Uses(a, q) && a.tab > 0
    ensures q + 1 != a.tab
  {
  }

  lemma BesideUser(w: seq<int>, live: map<nat, nat>, a: Arr, q: nat)
    requires Beside(w, live, a, q)
    ensures USERDATA < |w| && w[USERDATA] == a.tab && a.tab + 2 + |a.slots| <= |w|
  {
    hide SlotsAt, Separate, Uses;
  }

  lemma BesideOld(w: seq<int>, live: map<nat, nat>, a: Arr, q: nat)
    requires Beside(w, live, a, q)
    ensures q in live
  {
    hide SlotsAt, Separate, Uses, TabAt;
  }

  lemma UserWordIs(w: seq<int>, live: map<nat, nat>, a: Arr)
    requires TabAt(w, live, a)
    ensures USERDATA < |w| && w[USERDATA] == a.tab
  {
  }

  lemma OldWord(w: seq<int>, live: map<nat, nat>, hi: nat, a: Arr, q: nat, j: nat)
    requires LiveOk(live, hi) && Beside(w, live, a, q) && j < |a.slots|
    ensures a.tab > 0 && a.tab + 2 + j < |w| && !(q <= a.tab + 2 + j < q + live[q])
  {
    hide LiveOk;
    BesideTab(w, live, a, q);
    BlocksApart(live, hi, a.tab - 1, q, a.tab + 2 + j);
  }

  lemma FilledTable(w: seq<int>, u: seq<int>, live: map<nat, nat>, a: Arr, p: nat, f: nat, l: nat)
    requires p >= 1 && p - 1 in live && USERDATA < HLEN <= p - 1 && |u| == |w| && p - 1 + live[p - 1] <= |w|
    requires f <= l + 1 && |a.slots| == a.lst + 1 - a.fst && l + 1 - f + 3 <= live[p - 1]
    requires a.tab + 2 + |a.slots| <= |w|
    requires u[USERDATA] == p && u[p] == f && u[p + 1] == l
    requires forall x :: 0 <= x < |w| && !(p <= x < p + 2 + (l + 1 - f)) && x != USERDATA ==> u[x] == w[x]
    requires forall x :: p + 2 <= x < p + 2 + (l + 1 - f) ==> u[x] == Copied(w, a, f + (x - p - 2))
    ensures NewTable(w, u, live, a, p - 1, f, l)
  {
  }

  lemma WroteItem(w: seq<int>, u: seq<int>, live: map<nat, nat>, a: Arr, i: nat, x: nat, d: seq<byte>)
    requires x >= 1 && x - 1 in live && |u| == |w| && a.tab + 2 + i < |u| && u[a.tab + 2 + i] == x
    requires 2 + Words(|d|) <= live[x - 1] && x + 1 + Words(|d|) <= |u|
    requires u[x] == |d| && u[x + 1..x + 1 + Words(|d|)] == Pack(d)
    requires forall y :: 0 <= y < |w| && !(x <= y < x + 1 + Words(|d|)) && y != a.tab + 2 + i ==> u[y] == w[y]
    ensures Wrote(w, u, live, a, i, x - 1) && Item(u, live, x, d)
  {
  }

  lemma RewroteRep(w: seq<int>, u: seq<int>, live: map<nat, nat>, hi: nat, a: Arr, i: nat, d: seq<byte>)
    requires i < |a.slots| && a.slots[i].Held? && a.slots[i].off >= 1 && |u| == |w|
    requires LiveOk(live, hi) && ArrRep(w, live, a)
    requires var x := a.slots[i].off;
      && x + 1 + Words(|d|) <= |u| && u[x + 1..x + 1 + Words(|d|)] == Pack(d)
      && forall y :: 0 <= y < |w| && !(x + 1 <= y < x + 1 + Words(|d|)) ==> u[y] == w[y]
    requires |d| == |a.slots[i].data|
    ensures ArrRep(u, live, WithSlot(a, i, Held(a.slots[i].off, d)))
  {
    hide *;
    RewroteItem(w, u, live, hi, a, i, d);
    RewriteRep(w, u, live, hi, a, i, d);
  }

  lemma RewroteItem(w: seq<int>, u: seq<int>, live: map<nat, nat>, hi: nat, a: Arr, i: nat, d: seq<byte>)
    requires i < |a.slots| && a.slots[i].Held? && a.slots[i].off >= 1 && |u| == |w|
    requires LiveOk(live, hi) && ArrRep(w, live, a)
    requires var x := a.slots[i].off;
      && x + 1 + Words(|d|) <= |u| && u[x + 1..x + 1 + Words(|d|)] == Pack(d)
      && forall y :: 0 <= y < |w| && !(x + 1 <= y < x + 1 + Words(|d|)) ==> u[y] == w[y]
    requires |d| == |a.slots[i].data|
    ensures Wrote(w, u, live, a, i, a.slots[i].off - 1) && Item(u, live, a.slots[i].off, d)
  {
    hide *;
    var x := a.slots[i].off;
    ArrParts(w, live, a);
    SlotWord(w, live, a, i);
    ItemIn(w, live, x, a.slots[i].data);
    TabWordApart(w, live, hi, a, i);
    RewroteIs(w, u, live, a, i, x, d);
  }

  /** The table word of a slot is not in the slot's block. */
  lemma TabWordApart(w: seq<int>, live: map<nat, nat>, hi: nat, a: Arr, i: nat)
    requires i < |a.slots| && a.slots[i].Held? && a.slots[i].off >= 1 && a.slots[i].off - 1 in live
    requires LiveOk(live, hi) && TabAt(w, live, a) && Separate(a)
    ensures var b := a.slots[i].off - 1; !(b <= a.tab + 2 + i < b + live[b])
  {
    hide *;
    TabRange(w, live, a);
    HeldOff(a, i);
    BlocksApart(live, hi, a.tab - 1, a.slots[i].off - 1, a.tab + 2 + i);
  }

  lemma TabRange(w: seq<int>, live: map<nat, nat>, a: Arr)
    requires TabAt(w, live, a) && a.slots != []
    ensures a.tab > 0 && a.tab - 1 in live && |a.slots| + 3 <= live[a.tab - 1]
  {
  }

  lemma HeldOff(a: Arr, i: nat)
    requires Separate(a) && i < |a.slots| && a.slots[i].Held? && a.slots[i].off >= 1
    ensures a.slots[i].off != a.tab
  {
    assert HeldAt(a, i, a.slots[i].off - 1);
  }

  lemma RewroteIs(w: seq<int>, u: seq<int>, live: map<nat, nat>, a: Arr, i: nat, x: nat, d: seq<byte>)
    requires x >= 1 && x - 1 in live && |u| == |w| && a.tab + 2 + i < |w| && w[a.tab + 2 + i] == x
    requires 2 + Words(|d|) <= live[x - 1] && x + 1 + Words(|d|) <= |u| && w[x] == |d|
    requires !(x - 1 <= a.tab + 2 + i < x - 1 + live[x - 1])
    requires u[x + 1..x + 1 + Words(|d|)] == Pack(d)
    requires forall y :: 0 <= y < |w| && !(x + 1 <= y < x + 1 + Words(|d|)) ==> u[y] == w[y]
    ensures Wrote(w, u, live, a, i, x - 1) && Item(u, live, x, d)
  {
  }
}
