/** Circular lists and the bucket table on top of the container: NVClasses-0.9.1/NVlist.cc and
    NVHash.cc. A record at offset r is {next, szdata, data}; a list
    is held by the offset of its tail, whose next is the head. */
module HashTable {
  import opened FreeList
  import opened Container
  import opened Bytes
  import opened UserBlocks

  // ----- layout -----

  /** tab: offset of the table, the number of buckets followed by their tails.
      buckets: the records of each bucket from head to tail. content: their data. */
  datatype Table = Table(tab: nat, buckets: seq<seq<nat>>, content: seq<seq<seq<byte>>>) {
    function Root(h: nat): nat { tab + 1 + h }
  }

  function Tail(recs: seq<nat>): nat {
    if recs == [] then 0 else recs[|recs| - 1]
  }

  function NextRec(recs: seq<nat>, k: nat): nat
    requires k < |recs|
  {
    if k + 1 < |recs| then recs[k + 1] else recs[0]
  }

  /** A record with its data, inside a live block of its own. */
  ghost predicate Rec(w: seq<int>, live: map<nat, nat>, r: nat, next: nat, d: seq<byte>) {
    && r >= 1 && r - 1 in live && 3 + Words(|d|) <= live[r - 1] && r + 2 + Words(|d|) <= |w|
    && w[r] == next && w[r + 1] == |d| && w[r + 2..r + 2 + Words(|d|)] == Pack(d)
  }

  ghost predicate TableAt(w: seq<int>, live: map<nat, nat>, t: Table) {
    && t.tab >= 1 && t.tab - 1 in live && |t.buckets| + 2 <= live[t.tab - 1]
    && t.tab + 1 + |t.buckets| <= |w| && w[t.tab] == |t.buckets|
  }

  ghost predicate Shaped(t: Table) {
    && |t.content| == |t.buckets|
    && forall h :: 0 <= h < |t.buckets| ==> |t.content[h]| == |t.buckets[h]|
  }

  ghost predicate Heads(w: seq<int>, t: Table) {
    t.tab + 1 + |t.buckets| <= |w| &&
    forall h :: 0 <= h < |t.buckets| ==> w[t.Root(h)] == Tail(t.buckets[h])
  }

  ghost predicate Records(w: seq<int>, live: map<nat, nat>, t: Table) {
    Shaped(t) && forall h, k :: 0 <= h < |t.buckets| && 0 <= k < |t.buckets[h]| ==>
      Rec(w, live, t.buckets[h][k], NextRec(t.buckets[h], k), t.content[h][k])
  }

  /** No record twice, and none where the table is. */
  ghost predicate NoClash(t: Table) {
    && (forall h, k :: 0 <= h < |t.buckets| && 0 <= k < |t.buckets[h]| ==> t.buckets[h][k] != t.tab)
    && (forall h, k, i, j ::
          0 <= h < |t.buckets| && 0 <= k < |t.buckets[h]| && 0 <= i < |t.buckets| && 0 <= j < |t.buckets[i]| ==>
            t.buckets[h][k] == t.buckets[i][j] ==> h == i && k == j)
  }

  ghost predicate IsRec(t: Table, r: nat) {
    exists h, k :: 0 <= h < |t.buckets| && 0 <= k < |t.buckets[h]| && t.buckets[h][k] == r
  }

  /** The live blocks are the table and the records, nothing else. */
  ghost predicate Exact(live: map<nat, nat>, t: Table) {
    forall b :: b in live ==> b + 1 == t.tab || IsRec(t, b + 1)
  }

  ghost predicate HashRep(w: seq<int>, live: map<nat, nat>, t: Table) {
    TableAt(w, live, t) && Heads(w, t) && Records(w, live, t) && NoClash(t) && Exact(live, t)
  }

  lemma RecAt(w: seq<int>, live: map<nat, nat>, t: Table, h: nat, k: nat)
    requires Records(w, live, t) && h < |t.buckets| && k < |t.buckets[h]|
    ensures |t.content[h]| == |t.buckets[h]|
    ensures Rec(w, live, t.buckets[h][k], NextRec(t.buckets[h], k), t.content[h][k])
  {
    hide Rec;
  }

  lemma RecApart(t: Table, h: nat, k: nat, i: nat, j: nat)
    requires NoClash(t) && h < |t.buckets| && k < |t.buckets[h]| && i < |t.buckets| && j < |t.buckets[i]|
    ensures t.buckets[h][k] == t.buckets[i][j] ==> h == i && k == j
    ensures t.buckets[h][k] != t.tab
  {
  }

  // ----- what a change elsewhere leaves alone -----

  /** The words of record r that matter: link, size, data. */
  lemma RecFrame(w: seq<int>, u: seq<int>, live: map<nat, nat>, l: map<nat, nat>, r: nat, next: nat, d: seq<byte>)
    requires Rec(w, live, r, next, d) && |w| <= |u| && r - 1 in l && l[r - 1] == live[r - 1]
    requires forall x :: r <= x < r + 2 + Words(|d|) ==> u[x] == w[x]
    ensures Rec(u, l, r, next, d)
  {
    assert u[r + 2..r + 2 + Words(|d|)] == w[r + 2..r + 2 + Words(|d|)];
  }

  lemma RecRelink(w: seq<int>, u: seq<int>, live: map<nat, nat>, l: map<nat, nat>, r: nat, next: nat, other: nat,
                  d: seq<byte>)
    requires Rec(w, live, r, next, d) && |w| <= |u| && r - 1 in l && l[r - 1] == live[r - 1]
    requires forall x :: r < x < r + 2 + Words(|d|) ==> u[x] == w[x]
    requires u[r] == other
    ensures Rec(u, l, r, other, d)
  {
    assert u[r + 2..r + 2 + Words(|d|)] == w[r + 2..r + 2 + Words(|d|)];
  }

  lemma KeptAt(w: seq<int>, u: seq<int>, live: map<nat, nat>, b: nat, x: nat)
    requires Kept(w, u, live) && b in live && b <= x < b + live[b] && x < |w| && x < |u|
    ensures u[x] == w[x]
  {
    assert InLive(live, x);
  }

  /** A structure is untouched when every word of every live block is. */
  lemma KeptRep(w: seq<int>, u: seq<int>, live: map<nat, nat>, l: map<nat, nat>, t: Table)
    requires TableAt(w, live, t) && Heads(w, t) && Records(w, live, t)
    requires Kept(w, u, live) && |w| <= |u| && forall b :: b in live ==> b in l && l[b] == live[b]
    ensures TableAt(u, l, t) && Heads(u, t) && Records(u, l, t)
  {
    hide Kept, Rec;
    forall x | t.tab <= x < t.tab + 1 + |t.buckets|
      ensures u[x] == w[x]
    {
      KeptAt(w, u, live, t.tab - 1, x);
    }
    forall h | 0 <= h < |t.buckets|
      ensures u[t.Root(h)] == Tail(t.buckets[h])
    {
      assert u[t.Root(h)] == w[t.Root(h)];
    }
    forall h, k | 0 <= h < |t.buckets| && 0 <= k < |t.buckets[h]|
      ensures Rec(u, l, t.buckets[h][k], NextRec(t.buckets[h], k), t.content[h][k])
    {
      KeptRec(w, u, live, l, t.buckets[h][k], NextRec(t.buckets[h], k), t.content[h][k]);
    }
  }

  lemma KeptRec(w: seq<int>, u: seq<int>, live: map<nat, nat>, l: map<nat, nat>, r: nat, next: nat, d: seq<byte>)
    requires Rec(w, live, r, next, d) && Kept(w, u, live) && |w| <= |u|
    requires forall b :: b in live ==> b in l && l[b] == live[b]
    ensures Rec(u, l, r, next, d)
  {
    forall x | r <= x < r + 2 + Words(|d|)
      ensures u[x] == w[x]
    {
      KeptAt(w, u, live, r - 1, x);
    }
    RecFrame(w, u, live, l, r, next, d);
  }

  // ----- inserting a record -----

  function Inserted(t: Table, h: nat, p: nat, d: seq<byte>, front: bool): Table
    requires h < |t.buckets| == |t.content|
  {
    Table(t.tab,
          t.buckets[h := if front then [p] + t.buckets[h] else t.buckets[h] + [p]],
          t.content[h := if front then [d] + t.content[h] else t.content[h] + [d]])
  }

  /** The words that sprepend and sappend write once the record's size and data are in place. */
  ghost predicate Linked(w: seq<int>, u: seq<int>, t: Table, h: nat, p: nat, front: bool)
    requires h < |t.buckets|
  {
    var recs := t.buckets[h];
    && |u| == |w|
    && (forall x :: 0 <= x < |w| && x != p && x != t.Root(h) && x != Tail(recs) ==> u[x] == w[x])
    && p < |u| && u[p] == (if recs == [] then p else recs[0])
    && t.Root(h) < |u| && u[t.Root(h)] == (if recs == [] || !front then p else Tail(recs))
    && (recs != [] ==> Tail(recs) < |u| && u[Tail(recs)] == p)
  }

  lemma InsertedAt(t: Table, h: nat, p: nat, d: seq<byte>, front: bool, i: nat, j: nat)
    requires Shaped(t) && h < |t.buckets| && i < |t.buckets|
    requires var b := Inserted(t, h, p, d, front).buckets; j < |b[i]|
    ensures var n := Inserted(t, h, p, d, front);
      var new_at := if front then 0 else |t.buckets[h]|;
      && |n.content[i]| == |n.buckets[i]|
      && (i != h ==> n.buckets[i] == t.buckets[i] && n.content[i] == t.content[i])
      && (i == h && j == new_at ==> (
            && n.buckets[i][j] == p && n.content[i][j] == d
            && NextRec(n.buckets[i], j) == if t.buckets[h] == [] then p else t.buckets[h][0]))
      && (i == h && j != new_at ==>
            var o := if front then j - 1 else j;
            && 0 <= o < |t.buckets[h]| && n.buckets[i][j] == t.buckets[h][o] && n.content[i][j] == t.content[h][o]
            && NextRec(n.buckets[i], j) == if o + 1 == |t.buckets[h]| then p else NextRec(t.buckets[h], o))
  {
  }

  /** What holds before linking: the old structure, and the new record's size and data. */
  ghost predicate BeforeLink(w: seq<int>, live: map<nat, nat>, t: Table, h: nat, p: nat, d: seq<byte>) {
    && h < |t.buckets| && TableAt(w, live, t) && Heads(w, t) && Records(w, live, t) && NoClash(t)
    && p >= 1 && p - 1 in live && 3 + Words(|d|) <= live[p - 1] && p + 2 + Words(|d|) <= |w|
    && w[p + 1] == |d| && w[p + 2..p + 2 + Words(|d|)] == Pack(d)
    && !IsRec(t, p) && p != t.tab
  }

  /** A record other than p in a live block, beside the table. */
  predicate Placed(live: map<nat, nat>, t: Table, r: nat, p: nat) {
    r >= 1 && r - 1 in live && 3 <= live[r - 1] && r != p && r != t.tab
  }

  /** Where the tail of a bucket is: in a live block of its own. */
  lemma TailBlock(w: seq<int>, live: map<nat, nat>, t: Table, h: nat, p: nat)
    requires h < |t.buckets| && t.buckets[h] != []
    requires Records(w, live, t) && NoClash(t) && !IsRec(t, p)
    ensures Placed(live, t, Tail(t.buckets[h]), p)
  {
    hide Records, NoClash, IsRec, Shaped, NextRec, Tail;
    var k := |t.buckets[h]| - 1;
    TailIs(t.buckets[h]);
    RecBlock(w, live, t, h, k);
    RecApart(t, h, k, h, k);
    RecHere(t, h, k);
  }

  lemma RecBlock(w: seq<int>, live: map<nat, nat>, t: Table, h: nat, k: nat)
    requires Records(w, live, t) && h < |t.buckets| && k < |t.buckets[h]|
    ensures var r := t.buckets[h][k]; r >= 1 && r - 1 in live && 3 <= live[r - 1]
  {
    hide Records, Rec, NextRec;
    RecordsShaped(w, live, t);
    RecAt(w, live, t, h, k);
    RecIn(w, live, t.buckets[h][k], NextRec(t.buckets[h], k), t.content[h][k]);
  }

  lemma TailIs(recs: seq<nat>)
    requires recs != []
    ensures Tail(recs) == recs[|recs| - 1]
  {
  }

  /** The words that linking writes, apart from the new record's own link. */
  predicate LinkWord(t: Table, h: nat, x: nat)
    requires h < |t.buckets|
  {
    x == t.Root(h) || x == Tail(t.buckets[h])
  }

  lemma NewWord(w: seq<int>, live: map<nat, nat>, hi: nat, t: Table, h: nat, p: nat, d: seq<byte>, x: nat)
    requires LiveOk(live, hi) && BeforeLink(w, live, t, h, p, d) && p <= x < p + 2 + Words(|d|)
    ensures !LinkWord(t, h, x)
  {
    hide LiveOk, Heads, Records, NoClash, IsRec;
    BlocksApart(live, hi, p - 1, t.tab - 1, x);
    if t.buckets[h] != [] {
      TailBlock(w, live, t, h, p);
      BlocksApart(live, hi, p - 1, Tail(t.buckets[h]) - 1, x);
    }
  }

  lemma TableWord(w: seq<int>, live: map<nat, nat>, hi: nat, t: Table, h: nat, p: nat, d: seq<byte>, x: nat)
    requires LiveOk(live, hi) && BeforeLink(w, live, t, h, p, d) && t.tab <= x < t.tab + 1 + |t.buckets|
    ensures x != p && x != Tail(t.buckets[h])
  {
    hide LiveOk, Heads, Records, NoClash, IsRec;
    BlocksApart(live, hi, t.tab - 1, p - 1, x);
    if t.buckets[h] != [] {
      TailBlock(w, live, t, h, p);
      BlocksApart(live, hi, t.tab - 1, Tail(t.buckets[h]) - 1, x);
    }
  }

  lemma OldWord(w: seq<int>, live: map<nat, nat>, hi: nat, t: Table, h: nat, p: nat, d: seq<byte>, i: nat, o: nat,
                x: nat)
    requires LiveOk(live, hi) && BeforeLink(w, live, t, h, p, d) && i < |t.buckets| && o < |t.buckets[i]|
    requires |t.content[i]| == |t.buckets[i]|
    requires t.buckets[i][o] <= x < t.buckets[i][o] + 2 + Words(|t.content[i][o]|)
    requires !(i == h && o + 1 == |t.buckets[h]| && x == t.buckets[i][o])
    ensures x != p && !LinkWord(t, h, x)
  {
    hide LiveOk, Heads, Records, NoClash;
    var r := t.buckets[i][o];
    RecAt(w, live, t, i, o);
    RecApart(t, i, o, i, o);
    assert IsRec(t, r);
    hide IsRec;
    BlocksApart(live, hi, r - 1, p - 1, x);
    BlocksApart(live, hi, r - 1, t.tab - 1, x);
    if t.buckets[h] != [] {
      TailBlock(w, live, t, h, p);
      RecApart(t, i, o, h, |t.buckets[h]| - 1);
      if Tail(t.buckets[h]) != r {
        BlocksApart(live, hi, r - 1, Tail(t.buckets[h]) - 1, x);
      }
    }
  }

  /** The new record's size and data survive the linking. */
  lemma LinkedData(w: seq<int>, u: seq<int>, live: map<nat, nat>, hi: nat, t: Table, h: nat, p: nat, d: seq<byte>,
                   front: bool)
    requires LiveOk(live, hi) && BeforeLink(w, live, t, h, p, d) && Linked(w, u, t, h, p, front)
    ensures Rec(u, live, p, if t.buckets[h] == [] then p else t.buckets[h][0], d)
  {
    hide LiveOk, Heads, Records, NoClash, TableAt, IsRec;
    forall x | p < x < p + 2 + Words(|d|)
      ensures u[x] == w[x]
    {
      NewWord(w, live, hi, t, h, p, d, x);
    }
    assert u[p + 2..p + 2 + Words(|d|)] == w[p + 2..p + 2 + Words(|d|)];
  }

  /** An old record keeps its link, unless it was the tail that now leads to the new one. */
  lemma LinkedOld(w: seq<int>, u: seq<int>, live: map<nat, nat>, hi: nat, t: Table, h: nat, p: nat, d: seq<byte>,
                  front: bool, i: nat, o: nat)
    requires LiveOk(live, hi) && BeforeLink(w, live, t, h, p, d) && Linked(w, u, t, h, p, front)
    requires i < |t.buckets| == |t.content| && o < |t.buckets[i]| == |t.content[i]|
    ensures Rec(u, live, t.buckets[i][o],
                if i == h && o + 1 == |t.buckets[h]| then p else NextRec(t.buckets[i], o), t.content[i][o])
  {
    hide LiveOk, Heads, Records, NoClash, TableAt, IsRec;
    var r, next, e := t.buckets[i][o], NextRec(t.buckets[i], o), t.content[i][o];
    var last := i == h && o + 1 == |t.buckets[h]|;
    RecAt(w, live, t, i, o);
    forall x | r <= x < r + 2 + Words(|e|) && !(last && x == r)
      ensures u[x] == w[x]
    {
      OldWord(w, live, hi, t, h, p, d, i, o, x);
    }
    if last {
      RecRelink(w, u, live, live, r, next, p, e);
    } else {
      RecFrame(w, u, live, live, r, next, e);
    }
  }

  /** One record of the new structure. */
  lemma InsertedRec(w: seq<int>, u: seq<int>, live: map<nat, nat>, hi: nat, t: Table, h: nat, p: nat, d: seq<byte>,
                    front: bool, i: nat, j: nat)
    requires LiveOk(live, hi) && BeforeLink(w, live, t, h, p, d) && Linked(w, u, t, h, p, front) && Shaped(t)
    requires var n := Inserted(t, h, p, d, front);
      i < |n.buckets| && j < |n.buckets[i]| && j < |n.content[i]|
    ensures var n := Inserted(t, h, p, d, front);
      Rec(u, live, n.buckets[i][j], NextRec(n.buckets[i], j), n.content[i][j])
  {
    InsertedAt(t, h, p, d, front, i, j);
    hide LiveOk, Heads, Records, NoClash, TableAt, IsRec, Linked, Rec, NextRec;
    if i == h && j == if front then 0 else |t.buckets[h]| {
      LinkedData(w, u, live, hi, t, h, p, d, front);
    } else {
      LinkedOld(w, u, live, hi, t, h, p, d, front, i, if i == h && front then j - 1 else j);
    }
  }

  lemma InsertedHeads(w: seq<int>, u: seq<int>, live: map<nat, nat>, hi: nat, t: Table, h: nat, p: nat, d: seq<byte>,
                      front: bool)
    requires LiveOk(live, hi) && BeforeLink(w, live, t, h, p, d) && Linked(w, u, t, h, p, front) && Shaped(t)
    ensures Heads(u, Inserted(t, h, p, d, front)) && TableAt(u, live, Inserted(t, h, p, d, front))
  {
    hide LiveOk, Records, NoClash, IsRec;
    var n := Inserted(t, h, p, d, front);
    forall x | t.tab <= x < t.tab + 1 + |t.buckets| && x != t.Root(h)
      ensures u[x] == w[x]
    {
      TableWord(w, live, hi, t, h, p, d, x);
    }
    forall i | 0 <= i < |n.buckets|
      ensures u[n.Root(i)] == Tail(n.buckets[i])
    {
      if i != h {
        assert n.Root(i) == t.Root(i) && u[t.Root(i)] == w[t.Root(i)];
      }
    }
  }

  /** Where an entry of the new structure was before. */
  function OldIndex(t: Table, h: nat, front: bool, i: nat, j: nat): int {
    if i == h && front then j - 1 else j
  }

  lemma InsertedIsRec(t: Table, h: nat, p: nat, d: seq<byte>, front: bool, r: nat)
    requires Shaped(t) && h < |t.buckets|
    ensures IsRec(Inserted(t, h, p, d, front), r) <==> r == p || IsRec(t, r)
  {
    var n := Inserted(t, h, p, d, front);
    assert n.buckets[h][if front then 0 else |t.buckets[h]|] == p;
    if IsRec(t, r) {
      var i, k :| 0 <= i < |t.buckets| && 0 <= k < |t.buckets[i]| && t.buckets[i][k] == r;
      assert n.buckets[i][if i == h && front then k + 1 else k] == r;
    }
    if IsRec(n, r) {
      var i, j :| 0 <= i < |n.buckets| && 0 <= j < |n.buckets[i]| && n.buckets[i][j] == r;
      InsertedAt(t, h, p, d, front, i, j);
    }
  }

  lemma InsertedApart(t: Table, h: nat, p: nat, d: seq<byte>, front: bool)
    requires Shaped(t) && NoClash(t) && h < |t.buckets| && !IsRec(t, p) && p != t.tab
    ensures NoClash(Inserted(t, h, p, d, front))
  {
    var n := Inserted(t, h, p, d, front);
    forall a, k, i, j |
      0 <= a < |n.buckets| && 0 <= k < |n.buckets[a]| && 0 <= i < |n.buckets| && 0 <= j < |n.buckets[i]|
      ensures n.buckets[a][k] != n.tab
      ensures n.buckets[a][k] == n.buckets[i][j] ==> a == i && k == j
    {
      InsertedPair(t, h, p, d, front, a, k, i, j);
    }
  }

  lemma InsertedPair(t: Table, h: nat, p: nat, d: seq<byte>, front: bool, a: nat, k: nat, i: nat, j: nat)
    requires Shaped(t) && NoClash(t) && h < |t.buckets| && !IsRec(t, p) && p != t.tab
    requires var n := Inserted(t, h, p, d, front);
      a < |n.buckets| && k < |n.buckets[a]| && i < |n.buckets| && j < |n.buckets[i]|
    ensures var n := Inserted(t, h, p, d, front);
      n.buckets[a][k] != n.tab && (n.buckets[a][k] == n.buckets[i][j] ==> a == i && k == j)
  {
    hide NoClash, NextRec;
    var n, at := Inserted(t, h, p, d, front), if front then 0 else |t.buckets[h]|;
    InsertedAt(t, h, p, d, front, a, k);
    InsertedAt(t, h, p, d, front, i, j);
    if !(a == h && k == at) {
      RecApart(t, a, OldIndex(t, h, front, a, k), a, OldIndex(t, h, front, a, k));
    }
    if !(a == h && k == at) && !(i == h && j == at) {
      RecApart(t, a, OldIndex(t, h, front, a, k), i, OldIndex(t, h, front, i, j));
    }
  }

  lemma InsertRep(w: seq<int>, u: seq<int>, live: map<nat, nat>, hi: nat, t: Table, h: nat, p: nat, d: seq<byte>,
                  front: bool)
    requires LiveOk(live, hi) && BeforeLink(w, live, t, h, p, d) && Linked(w, u, t, h, p, front)
    requires forall b :: b in live ==> b + 1 == t.tab || b + 1 == p || IsRec(t, b + 1)
    ensures HashRep(u, live, Inserted(t, h, p, d, front))
  {
    hide LiveOk, Rec, Linked, NoClash, TableAt, Heads, IsRec, NextRec;
    InsertedHeads(w, u, live, hi, t, h, p, d, front);
    InsertedApart(t, h, p, d, front);
    var n := Inserted(t, h, p, d, front);
    forall i, j | 0 <= i < |n.buckets| && 0 <= j < |n.buckets[i]|
      ensures Rec(u, live, n.buckets[i][j], NextRec(n.buckets[i], j), n.content[i][j])
    {
      InsertedRec(w, u, live, hi, t, h, p, d, front, i, j);
    }
    forall b | b in live
      ensures b + 1 == t.tab || IsRec(n, b + 1)
    {
      InsertedIsRec(t, h, p, d, front, b + 1);
    }
  }

  // ----- removing the head of a list -----

  function Removed(t: Table, h: nat): Table
    requires h < |t.buckets| == |t.content| && |t.buckets[h]| == |t.content[h]| > 0
  {
    Table(t.tab, t.buckets[h := t.buckets[h][1..]], t.content[h := t.content[h][1..]])
  }

  /** The one word that sremove writes before it frees the record. */
  ghost predicate Cut(w: seq<int>, u: seq<int>, t: Table, h: nat)
    requires h < |t.buckets| && t.buckets[h] != []
  {
    var recs := t.buckets[h];
    var x, v := if |recs| == 1 then t.Root(h) else Tail(recs), if |recs| == 1 then 0 else recs[1];
    x < |w| && u == w[x := v]
  }

  lemma RemovedAt(t: Table, h: nat, i: nat, j: nat)
    requires Shaped(t) && h < |t.buckets| && t.buckets[h] != []
    requires i < |t.buckets| && j < |Removed(t, h).buckets[i]|
    ensures var n, o := Removed(t, h), if i == h then j + 1 else j;
      && |n.content[i]| == |n.buckets[i]| && o < |t.buckets[i]|
      && n.buckets[i][j] == t.buckets[i][o] && n.content[i][j] == t.content[i][o]
      && NextRec(n.buckets[i], j) ==
           if i == h && o + 1 == |t.buckets[h]| then t.buckets[h][1] else NextRec(t.buckets[i], o)
  {
  }

  /** What holds of the structure in the two operations below. */
  ghost predicate Structure(w: seq<int>, live: map<nat, nat>, hi: nat, t: Table) {
    LiveOk(live, hi) && TableAt(w, live, t) && Heads(w, t) && Records(w, live, t) && NoClash(t)
  }

  /** A word of record (i, o) is not in the table, and is the offset of record (a, b) only if
      they are the same and the word is the link. */
  lemma RecordWord(w: seq<int>, live: map<nat, nat>, hi: nat, t: Table, i: nat, o: nat, x: nat, a: nat, b: nat)
    requires Structure(w, live, hi, t) && i < |t.buckets| == |t.content| && o < |t.buckets[i]| == |t.content[i]|
    requires t.buckets[i][o] <= x < t.buckets[i][o] + 2 + Words(|t.content[i][o]|)
    requires a < |t.buckets| && b < |t.buckets[a]|
    ensures !(t.tab <= x <= t.tab + |t.buckets|)
    ensures t.buckets[a][b] == x ==> a == i && b == o && x == t.buckets[i][o]
  {
    hide LiveOk, Heads, Records, NoClash, NextRec;
    var r := t.buckets[i][o];
    RecAt(w, live, t, i, o);
    RecAt(w, live, t, a, b);
    RecApart(t, i, o, i, o);
    RecApart(t, a, b, i, o);
    BlocksApart(live, hi, r - 1, t.tab - 1, x);
    if t.buckets[a][b] != r {
      BlocksApart(live, hi, r - 1, t.buckets[a][b] - 1, x);
    }
  }

  lemma CutWord(w: seq<int>, u: seq<int>, live: map<nat, nat>, hi: nat, t: Table, h: nat, i: nat, o: nat, x: nat)
    requires Structure(w, live, hi, t) && h < |t.buckets| && t.buckets[h] != [] && Cut(w, u, t, h)
    requires i < |t.buckets| == |t.content| && o < |t.buckets[i]| == |t.content[i]|
    requires t.buckets[i][o] <= x < t.buckets[i][o] + 2 + Words(|t.content[i][o]|)
    requires !(i == h && o == |t.buckets[h]| - 1 && x == t.buckets[i][o])
    ensures x < |w| && u[x] == w[x]
  {
    hide LiveOk, Heads, Records, NoClash, NextRec;
    RecAt(w, live, t, i, o);
    RecordWord(w, live, hi, t, i, o, x, h, |t.buckets[h]| - 1);
  }

  lemma CutRec(w: seq<int>, u: seq<int>, live: map<nat, nat>, hi: nat, t: Table, h: nat, i: nat, o: nat)
    requires Structure(w, live, hi, t) && h < |t.buckets| && t.buckets[h] != [] && Cut(w, u, t, h)
    requires i < |t.buckets| == |t.content| && o < |t.buckets[i]| == |t.content[i]| && (i == h ==> 0 < o)
    ensures Rec(u, live, t.buckets[i][o],
                if i == h && o == |t.buckets[h]| - 1 then t.buckets[h][1] else NextRec(t.buckets[i], o),
                t.content[i][o])
  {
    hide Structure, NextRec, Tail;
    var r, next, d := t.buckets[i][o], NextRec(t.buckets[i], o), t.content[i][o];
    var last := i == h && o == |t.buckets[h]| - 1;
    StructureRec(w, live, hi, t, i, o);
    forall x | r <= x < r + 2 + Words(|d|) && !(last && x == r)
      ensures u[x] == w[x]
    {
      CutWord(w, u, live, hi, t, h, i, o, x);
    }
    if last {
      CutTail(w, u, t, h);
      RecRelink(w, u, live, live, r, next, t.buckets[h][1], d);
    } else {
      RecFrame(w, u, live, live, r, next, d);
    }
  }

  lemma CutTail(w: seq<int>, u: seq<int>, t: Table, h: nat)
    requires h < |t.buckets| && |t.buckets[h]| > 1 && Cut(w, u, t, h)
    ensures var k := |t.buckets[h]| - 1;
      |u| == |w| && t.buckets[h][k] < |u| && u[t.buckets[h][k]] == t.buckets[h][1]
  {
  }

  lemma StructureRec(w: seq<int>, live: map<nat, nat>, hi: nat, t: Table, h: nat, k: nat)
    requires Structure(w, live, hi, t) && h < |t.buckets| && k < |t.buckets[h]|
    ensures |t.content| == |t.buckets| && |t.content[h]| == |t.buckets[h]|
    ensures Rec(w, live, t.buckets[h][k], NextRec(t.buckets[h], k), t.content[h][k])
  {
    hide Rec, LiveOk, TableAt, Heads, NoClash;
  }

  lemma RemovedApart(t: Table, h: nat)
    requires Shaped(t) && NoClash(t) && h < |t.buckets| && t.buckets[h] != []
    ensures NoClash(Removed(t, h))
    ensures forall r :: IsRec(Removed(t, h), r) <==> IsRec(t, r) && r != t.buckets[h][0]
  {
    hide NextRec;
    var n := Removed(t, h);
    forall a, k, i, j |
      0 <= a < |n.buckets| && 0 <= k < |n.buckets[a]| && 0 <= i < |n.buckets| && 0 <= j < |n.buckets[i]|
      ensures n.buckets[a][k] != n.tab
      ensures n.buckets[a][k] == n.buckets[i][j] ==> a == i && k == j
    {
      RemovedPair(t, h, a, k, i, j);
    }
    forall r
      ensures IsRec(n, r) <==> IsRec(t, r) && r != t.buckets[h][0]
    {
      RemovedIsRec(t, h, r);
    }
  }

  lemma RemovedPair(t: Table, h: nat, a: nat, k: nat, i: nat, j: nat)
    requires Shaped(t) && NoClash(t) && h < |t.buckets| && t.buckets[h] != []
    requires var n := Removed(t, h); a < |n.buckets| && k < |n.buckets[a]| && i < |n.buckets| && j < |n.buckets[i]|
    ensures var n := Removed(t, h);
      n.buckets[a][k] != n.tab && (n.buckets[a][k] == n.buckets[i][j] ==> a == i && k == j)
  {
    hide NoClash, NextRec;
    RemovedAt(t, h, a, k);
    RemovedAt(t, h, i, j);
    RecApart(t, a, if a == h then k + 1 else k, i, if i == h then j + 1 else j);
  }

  lemma RemovedIsRec(t: Table, h: nat, r: nat)
    requires Shaped(t) && NoClash(t) && h < |t.buckets| && t.buckets[h] != []
    ensures IsRec(Removed(t, h), r) <==> IsRec(t, r) && r != t.buckets[h][0]
  {
    hide NoClash, NextRec;
    var n := Removed(t, h);
    if IsRec(n, r) {
      var i, j :| 0 <= i < |n.buckets| && 0 <= j < |n.buckets[i]| && n.buckets[i][j] == r;
      RemovedAt(t, h, i, j);
      RecApart(t, i, if i == h then j + 1 else j, h, 0);
    }
    if IsRec(t, r) && r != t.buckets[h][0] {
      var i, k :| 0 <= i < |t.buckets| && 0 <= k < |t.buckets[i]| && t.buckets[i][k] == r;
      assert n.buckets[i][if i == h then k - 1 else k] == r;
    }
  }

  lemma CutHeads(w: seq<int>, u: seq<int>, live: map<nat, nat>, hi: nat, t: Table, h: nat)
    requires Structure(w, live, hi, t) && Shaped(t) && h < |t.buckets| && t.buckets[h] != [] && Cut(w, u, t, h)
    ensures Heads(u, Removed(t, h)) && TableAt(u, live, Removed(t, h))
  {
    hide LiveOk, Records, NoClash, NextRec;
    var n, k := Removed(t, h), |t.buckets[h]| - 1;
    assert t.buckets[h][k] == Tail(t.buckets[h]);
    RecAt(w, live, t, h, k);
    RecordWord(w, live, hi, t, h, k, Tail(t.buckets[h]), h, k);
    forall i | 0 <= i < |n.buckets|
      ensures u[n.Root(i)] == Tail(n.buckets[i])
    {
      assert n.Root(i) == t.Root(i) && w[t.Root(i)] == Tail(t.buckets[i]);
    }
  }

  /** After the cut the structure is the one without the head, which is still allocated. */
  lemma CutRep(w: seq<int>, u: seq<int>, live: map<nat, nat>, hi: nat, t: Table, h: nat)
    requires Structure(w, live, hi, t) && Shaped(t) && h < |t.buckets| && t.buckets[h] != [] && Cut(w, u, t, h)
    ensures Structure(u, live, hi, Removed(t, h)) && Shaped(Removed(t, h))
  {
    hide LiveOk, Rec, Cut, NoClash, TableAt, Heads, NextRec;
    CutHeads(w, u, live, hi, t, h);
    RemovedApart(t, h);
    var n := Removed(t, h);
    forall i, j | 0 <= i < |n.buckets| && 0 <= j < |n.buckets[i]|
      ensures Rec(u, live, n.buckets[i][j], NextRec(n.buckets[i], j), n.content[i][j])
    {
      RemovedAt(t, h, i, j);
      CutRec(w, u, live, hi, t, h, i, if i == h then j + 1 else j);
    }
  }

  /** Giving back a block that is neither the table nor a record. */
  lemma FreedRep(w: seq<int>, u: seq<int>, live: map<nat, nat>, hi: nat, t: Table, b: nat)
    requires Structure(w, live, hi, t) && !IsRec(t, b + 1) && b + 1 != t.tab
    requires Kept(w, u, live - {b}) && |w| <= |u|
    ensures TableAt(u, live - {b}, t) && Heads(u, t) && Records(u, live - {b}, t)
  {
    hide LiveOk, Kept, Records, TableAt, Heads, NoClash, IsRec, Rec, NextRec;
    var l := live - {b};
    RecordsShaped(w, live, t);
    forall h, k | 0 <= h < |t.buckets| && 0 <= k < |t.buckets[h]|
      ensures Rec(w, l, t.buckets[h][k], NextRec(t.buckets[h], k), t.content[h][k])
    {
      RecAt(w, live, t, h, k);
      RecHere(t, h, k);
      RecLess(w, live, t.buckets[h][k], NextRec(t.buckets[h], k), t.content[h][k], b);
    }
    StillThere(w, live, t, b);
    KeptRep(w, u, l, l, t);
  }

  lemma RecordsShaped(w: seq<int>, live: map<nat, nat>, t: Table)
    requires Records(w, live, t)
    ensures Shaped(t)
  {
    hide Rec, NextRec;
  }

  lemma RecHere(t: Table, h: nat, k: nat)
    requires h < |t.buckets| && k < |t.buckets[h]|
    ensures IsRec(t, t.buckets[h][k])
  {
  }

  lemma RecLess(w: seq<int>, live: map<nat, nat>, r: nat, next: nat, d: seq<byte>, b: nat)
    requires Rec(w, live, r, next, d) && r != b + 1
    ensures Rec(w, live - {b}, r, next, d)
  {
  }

  lemma StillThere(w: seq<int>, live: map<nat, nat>, t: Table, b: nat)
    requires TableAt(w, live, t) && Heads(w, t) && Records(w, live, t) && b + 1 != t.tab
    requires Shaped(t)
    requires forall h, k :: 0 <= h < |t.buckets| && 0 <= k < |t.buckets[h]| ==>
      Rec(w, live - {b}, t.buckets[h][k], NextRec(t.buckets[h], k), t.content[h][k])
    ensures TableAt(w, live - {b}, t) && Records(w, live - {b}, t)
  {
    hide Rec, NextRec, Heads;
  }

  // ----- changing a record's data in place -----

  function Updated(t: Table, h: nat, k: nat, d: seq<byte>): Table
    requires h < |t.content| && k < |t.content[h]|
  {
    t.(content := t.content[h := t.content[h][k := d]])
  }

  /** memcpy over the data of a record. */
  ghost predicate Overwritten(w: seq<int>, u: seq<int>, r: nat, d: seq<byte>) {
    && |u| == |w| && r + 2 + Words(|d|) <= |w|
    && (forall x :: 0 <= x < |w| && !(r + 2 <= x < r + 2 + Words(|d|)) ==> u[x] == w[x])
    && u[r + 2..r + 2 + Words(|d|)] == Pack(d)
  }

  lemma UpdatedRep(w: seq<int>, u: seq<int>, v: View, t: Table, h: nat, k: nat, d: seq<byte>)
    requires Inv(v) && HashRep(w, v.live, t) && h < |t.buckets| && k < |t.buckets[h]|
    requires h < |t.content| && k < |t.content[h]| && Overwritten(w, u, t.buckets[h][k], d) && |d| == |t.content[h][k]|
    ensures HashRep(u, v.live, Updated(t, h, k, d))
  {
    hide Inv, LiveOk, Rec, NoClash, Heads, NextRec, IsRec, Overwritten, TableAt, FreeOk;
    InvParts(v);
    var live, hi := v.live, v.size;
    var n := Updated(t, h, k, d);
    UpdatedHeads(w, u, live, hi, t, h, k, d);
    UpdatedSame(live, t, h, k, d);
    forall i, j | 0 <= i < |n.buckets| && 0 <= j < |n.buckets[i]|
      ensures Rec(u, live, n.buckets[i][j], NextRec(n.buckets[i], j), n.content[i][j])
    {
      UpdatedRec(w, u, live, hi, t, h, k, d, i, j);
    }
  }

  lemma UpdatedSame(live: map<nat, nat>, t: Table, h: nat, k: nat, d: seq<byte>)
    requires NoClash(t) && Exact(live, t) && h < |t.content| && k < |t.content[h]|
    ensures NoClash(Updated(t, h, k, d)) && Exact(live, Updated(t, h, k, d))
  {
    forall b | b in live
      ensures b + 1 == t.tab || IsRec(Updated(t, h, k, d), b + 1)
    {
    }
  }

  lemma UpdatedHeads(w: seq<int>, u: seq<int>, live: map<nat, nat>, hi: nat, t: Table, h: nat, k: nat, d: seq<byte>)
    requires LiveOk(live, hi) && HashRep(w, live, t) && h < |t.buckets| && k < |t.buckets[h]|
    requires Overwritten(w, u, t.buckets[h][k], d) && |d| == |t.content[h][k]|
    ensures Heads(u, Updated(t, h, k, d)) && TableAt(u, live, Updated(t, h, k, d))
  {
    hide LiveOk, NoClash, NextRec, Records, Exact;
    forall x | t.tab <= x < t.tab + 1 + |t.buckets|
      ensures u[x] == w[x]
    {
      UpdatedWord(w, live, hi, t, h, k, x);
    }
    forall i | 0 <= i < |t.buckets|
      ensures u[t.Root(i)] == Tail(t.buckets[i])
    {
      assert u[t.Root(i)] == w[t.Root(i)];
    }
  }

  lemma UpdatedWord(w: seq<int>, live: map<nat, nat>, hi: nat, t: Table, h: nat, k: nat, x: nat)
    requires LiveOk(live, hi) && HashRep(w, live, t) && h < |t.buckets| && k < |t.buckets[h]|
    requires t.tab <= x < t.tab + 1 + |t.buckets|
    ensures var r := t.buckets[h][k]; !(r + 2 <= x < r + 2 + Words(|t.content[h][k]|))
  {
    hide LiveOk, NoClash, NextRec, Records, Heads, Exact;
    RecAt(w, live, t, h, k);
    RecApart(t, h, k, h, k);
    BlocksApart(live, hi, t.tab - 1, t.buckets[h][k] - 1, x);
  }

  lemma UpdatedRec(w: seq<int>, u: seq<int>, live: map<nat, nat>, hi: nat, t: Table, h: nat, k: nat, d: seq<byte>,
                   i: nat, j: nat)
    requires Structure(w, live, hi, t) && h < |t.buckets| == |t.content| && k < |t.buckets[h]| == |t.content[h]|
    requires Overwritten(w, u, t.buckets[h][k], d) && |d| == |t.content[h][k]|
    requires i < |t.buckets| && j < |t.buckets[i]| == |t.content[i]|
    ensures Rec(u, live, t.buckets[i][j], NextRec(t.buckets[i], j), if i == h && j == k then d else t.content[i][j])
  {
    hide LiveOk, NoClash, NextRec, Records, Heads, TableAt;
    RecAt(w, live, t, h, k);
    RecAt(w, live, t, i, j);
    RecApart(t, h, k, i, j);
    var r, e := t.buckets[i][j], t.content[i][j];
    if !(i == h && j == k) {
      forall x | r <= x < r + 2 + Words(|e|)
        ensures u[x] == w[x]
      {
        BlocksApart(live, hi, r - 1, t.buckets[h][k] - 1, x);
      }
      RecFrame(w, u, live, live, r, NextRec(t.buckets[i], j), e);
    }
  }

  // ----- the operations -----

  lemma NewBlock(w: seq<int>, u: seq<int>, live: map<nat, nat>, t: Table, b: nat, n: nat)
    requires HashRep(w, live, t) && Kept(w, u, live) && |w| <= |u| && b !in live
    ensures TableAt(u, live[b := n], t) && Heads(u, t) && Records(u, live[b := n], t)
    ensures !IsRec(t, b + 1) && b + 1 != t.tab
  {
    hide Kept, Rec, Exact, NoClash, Records, Heads;
    HashParts(w, live, t);
    KeptRep(w, u, live, live[b := n], t);
    if IsRec(t, b + 1) {
      var h, k :| 0 <= h < |t.buckets| && 0 <= k < |t.buckets[h]| && t.buckets[h][k] == b + 1;
      RecAt(w, live, t, h, k);
      RecIn(w, live, t.buckets[h][k], NextRec(t.buckets[h], k), t.content[h][k]);
    }
  }

  lemma RecIn(w: seq<int>, live: map<nat, nat>, r: nat, next: nat, d: seq<byte>)
    requires Rec(w, live, r, next, d)
    ensures r >= 1 && r - 1 in live && 3 + Words(|d|) <= live[r - 1] && r + 2 + Words(|d|) <= |w|
    ensures w[r] == next && w[r + 1] == |d| && w[r + 2..r + 2 + Words(|d|)] == Pack(d)
  {
  }

  /** Words written inside the new block change nothing of the structure. */
  lemma NewBlockWords(w: seq<int>, u: seq<int>, live: map<nat, nat>, hi: nat, t: Table, b: nat)
    requires TableAt(w, live, t) && Heads(w, t) && Records(w, live, t) && LiveOk(live, hi) && b in live
    requires |u| == |w| && forall x :: 0 <= x < |w| && !(b < x < b + live[b]) ==> u[x] == w[x]
    requires !IsRec(t, b + 1) && b + 1 != t.tab
    ensures TableAt(u, live, t) && Heads(u, t) && Records(u, live, t)
  {
    hide LiveOk, Rec, IsRec;
    forall x | t.tab <= x < t.tab + 1 + |t.buckets|
      ensures u[x] == w[x]
    {
      BlocksApart(live, hi, t.tab - 1, b, x);
    }
    forall h | 0 <= h < |t.buckets|
      ensures u[t.Root(h)] == Tail(t.buckets[h])
    {
      assert u[t.Root(h)] == w[t.Root(h)];
    }
    forall h, k | 0 <= h < |t.buckets| && 0 <= k < |t.buckets[h]|
      ensures Rec(u, live, t.buckets[h][k], NextRec(t.buckets[h], k), t.content[h][k])
    {
      NewBlockRec(w, u, live, hi, t, b, h, k);
    }
  }

  lemma NewBlockRec(w: seq<int>, u: seq<int>, live: map<nat, nat>, hi: nat, t: Table, b: nat, h: nat, k: nat)
    requires Records(w, live, t) && LiveOk(live, hi) && b in live && h < |t.buckets| && k < |t.buckets[h]|
    requires |u| == |w| && forall x :: 0 <= x < |w| && !(b < x < b + live[b]) ==> u[x] == w[x]
    requires !IsRec(t, b + 1) && |t.content| == |t.buckets| && |t.content[h]| == |t.buckets[h]|
    ensures Rec(u, live, t.buckets[h][k], NextRec(t.buckets[h], k), t.content[h][k])
  {
    hide LiveOk, Records, NextRec;
    RecAt(w, live, t, h, k);
    var r, d := t.buckets[h][k], t.content[h][k];
    assert IsRec(t, r);
    forall x | r <= x < r + 2 + Words(|d|)
      ensures u[x] == w[x]
    {
      BlocksApart(live, hi, r - 1, b, x);
    }
    RecFrame(w, u, live, live, r, NextRec(t.buckets[h], k), d);
  }

  /** A new block of the right size beside the old structure. */
  ghost predicate NewRecord(w: seq<int>, live: map<nat, nat>, t: Table, h: nat, p: nat, d: seq<byte>) {
    && h < |t.buckets| && TableAt(w, live, t) && Heads(w, t) && Records(w, live, t) && NoClash(t)
    && p >= 1 && p - 1 in live && 3 + Words(|d|) <= live[p - 1] && p + 2 + Words(|d|) <= |w|
    && !IsRec(t, p) && p != t.tab
    && forall b :: b in live ==> b + 1 == t.tab || b + 1 == p || IsRec(t, b + 1)
  }

  lemma NewRecordAt(v: View, w: seq<int>, x: View, u: seq<int>, t: Table, h: nat, p: nat, d: seq<byte>)
    requires Inv(v) && Rep(w, v) && HashRep(w, v.live, t) && h < |t.buckets|
    requires Inv(x) && Rep(u, x) && Kept(w, u, v.live) && v.size <= x.size
    requires p >= 1 && p - 1 !in v.live && p - 1 in x.live && x.live == v.live[p - 1 := x.live[p - 1]]
    requires RoundUp(|d| + 16) <= x.live[p - 1]
    ensures NewRecord(u, x.live, t, h, p, d)
  {
    hide Inv, Rep, HashRep, TableAt, Heads, Records, IsRec, NoClash, Kept;
    HashParts(w, v.live, t);
    InParts(x, u, p - 1);
    TailHeader(v, w);
    TailHeader(x, u);
    NewBlock(w, u, v.live, t, p - 1, x.live[p - 1]);
  }

  /** What adding a record to bucket h leaves alone: every word of the blocks that were live, but
      for the bucket's root and the link of its last record. */
  ghost predicate Untouched(w: seq<int>, u: seq<int>, live: map<nat, nat>, t: Table, h: nat) {
    h < |t.buckets| &&
    forall x :: 0 <= x < |w| && x < |u| && InLive(live, x) && !LinkWord(t, h, x) ==> u[x] == w[x]
  }

  lemma SizesGrow(v: View, w: seq<int>, x: View, u: seq<int>)
    requires Inv(v) && Rep(w, v) && Inv(x) && Rep(u, x) && v.size <= x.size
    ensures |w| <= |u|
  {
    hide Inv;
    TailHeader(v, w);
    TailHeader(x, u);
  }

  /** From the words before (w) over those with the new block (y) and its data (x) to the linked
      ones (u). */
  lemma LinkedKeeps(w: seq<int>, y: seq<int>, x: seq<int>, u: seq<int>, before: map<nat, nat>, live: map<nat, nat>,
                    hi: nat, t: Table, h: nat, p: nat, d: seq<byte>, front: bool)
    requires LiveOk(live, hi) && BeforeLink(x, live, t, h, p, d) && Linked(x, u, t, h, p, front)
    requires p >= 1 && p - 1 !in before && p - 1 in live && live == before[p - 1 := live[p - 1]]
    requires Kept(w, y, before) && |w| <= |y| == |x| && MTIME < HLEN < |w|
    requires forall i :: 0 <= i < |x| && !(p - 1 <= i < p - 1 + live[p - 1]) ==> x[i] == y[i]
    ensures Untouched(w, u, before, t, h) && u[MTIME] == x[MTIME] == y[MTIME]
  {
    hide LiveOk, TableAt, Heads, Records, NoClash, IsRec;
    LinkHeader(x, live, hi, t, h, p, d);
    forall i | 0 <= i < |w| && i < |u| && InLive(before, i) && !LinkWord(t, h, i)
      ensures u[i] == w[i]
    {
      var b :| b in before && b <= i < b + before[b];
      BlocksApart(live, hi, b, p - 1, i);
    }
  }

  /** Nothing of this lies in the header. */
  lemma LinkHeader(w: seq<int>, live: map<nat, nat>, hi: nat, t: Table, h: nat, p: nat, d: seq<byte>)
    requires LiveOk(live, hi) && BeforeLink(w, live, t, h, p, d)
    ensures HLEN <= p - 1 && !LinkWord(t, h, MTIME)
  {
    hide Heads, Records, NoClash, IsRec, Even;
    assert Fits(Block(p - 1, live[p - 1]), hi) && Fits(Block(t.tab - 1, live[t.tab - 1]), hi);
    if t.buckets[h] != [] {
      TailBlock(w, live, t, h, p);
      var r := Tail(t.buckets[h]) - 1;
      assert Fits(Block(r, live[r]), hi);
    }
  }

  lemma InsertedIs(t: Table, h: nat, p: nat, d: seq<byte>, front: bool)
    requires h < |t.buckets| == |t.content|
    ensures var n := Inserted(t, h, p, d, front);
      && n.tab == t.tab && |n.buckets| == |t.buckets|
      && n.content == t.content[h := if front then [d] + t.content[h] else t.content[h] + [d]]
  {
  }

  function EmptyTable(tab: nat, n: nat): Table {
    Table(tab, seq(n, _ => []), seq(n, _ => []))
  }

  lemma EmptyRep(w: seq<int>, live: map<nat, nat>, tab: nat, n: nat)
    requires tab >= 1 && live.Keys == {tab - 1} && n + 2 <= live[tab - 1] && tab + 1 + n <= |w|
    requires w[tab] == n && forall x :: tab < x <= tab + n ==> w[x] == 0
    ensures HashRep(w, live, EmptyTable(tab, n))
  {
  }

  class NVHash {
    const c: NVcontainer
    ghost var t: Table

    /** Offset of the first bucket, and their number. */
    var hashtab: nat
    var hashsz: nat

    ghost predicate Valid()
      reads this, c, c.mem
    {
      c.Valid() && HashRep(c.mem[..], c.view.live, t) && hashtab == t.Root(0) && hashsz == |t.buckets|
    }

    /** open() on a new file: allocates the table and clears its buckets. */
    constructor (nhashsz: nat)
      ensures Valid() && fresh(c) && fresh(c.mem) && hashsz == nhashsz
      ensures t.content == EmptyTable(0, nhashsz).content
    {
      c := new NVcontainer();
      t := EmptyTable(0, nhashsz);
      hashtab, hashsz := 0, nhashsz;
      new;
      hide Inv, Rep, HashRep;
      CreateTable(nhashsz);
    }

    method CreateTable(nhashsz: nat)
      requires c.Valid() && c.view == FRESH && hashsz == nhashsz
      modifies this, c, c.mem
      ensures Valid() && (c.mem == old(c.mem) || fresh(c.mem)) && hashsz == nhashsz
      ensures t.content == EmptyTable(0, nhashsz).content
    {
      hide Inv, Rep, Alloc, HashRep;
      AllocInv(FRESH, 8 + 8 * nhashsz);
      var ht := c.Nvalloc(8 + 8 * nhashsz);
      c.SetData(ht);
      ghost var w, live := c.mem[..], c.view.live;
      InParts(c.view, w, ht - 1);
      hashtab := ht + 1;
      assert live.Keys == {ht - 1};
      ClearTable(ht, nhashsz);
      t := EmptyTable(ht, nhashsz);
      EmptyRep(c.mem[..], live, ht, nhashsz);
    }

    method ClearTable(ht: nat, n: nat)
      requires c.Valid() && ht >= 1 && ht - 1 in c.view.live && n + 2 <= c.view.live[ht - 1]
      requires hashtab == ht + 1 && ht + 1 + n <= c.mem.Length
      modifies c.mem
      ensures c.Valid() && c.mem[ht] == n && forall x :: ht < x <= ht + n ==> c.mem[x] == 0
    {
      hide Inv, Rep;
      c.Store(ht - 1, ht, n);
      var i := 0;
      while i < n
        invariant 0 <= i <= n && c.Valid() && c.mem[ht] == n
        invariant forall x :: ht < x <= ht + i ==> c.mem[x] == 0
      {
        c.Store(ht - 1, hashtab + i, 0);
        i := i + 1;
      }
    }

    /** sprepend on the list of bucket h: NVlist::sprepend, called from sadd. */
    method Sadd(h: nat, data: seq<byte>) returns (ghost p: nat)
      requires Valid() && h < hashsz
      modifies this`t, c, c.mem
      ensures Valid() && (c.mem == old(c.mem) || fresh(c.mem))
      ensures hashtab == old(hashtab) && hashsz == old(hashsz) == |old(t).buckets| == |old(t).content|
      ensures t == Inserted(old(t), h, p, data, true)
      ensures t.content == old(t.content)[h := [data] + old(t.content)[h]]
      ensures p >= 1 && p - 1 !in old(c.view).live && c.view.live.Keys == old(c.view).live.Keys + {p - 1}
      ensures Untouched(old(c.mem[..]), c.mem[..], old(c.view).live, old(t), h) && Mtime() == old(Mtime())
    {
      hide *;
      Parts();
      ghost var w := c.mem[..];
      ghost var live, first := c.view.live, t;
      TimeAt();
      var nr := AllocRecord(h, data);
      p := nr;
      TimeAt();
      ghost var y := c.mem[..];
      FillRecord(h, nr, data);
      ghost var x := c.mem[..];
      Layout(c);
      LinkFront(h, nr, data);
      InsertRep(x, c.mem[..], c.view.live, c.view.size, t, h, p, data, true);
      LinkedKeeps(w, y, x, c.mem[..], live, c.view.live, c.view.size, t, h, p, data, true);
      InsertedIs(t, h, p, data, true);
      t := Inserted(t, h, p, data, true);
      Whole();
      TimeAt();
    }

    method AllocRecord(ghost h: nat, data: seq<byte>) returns (p: nat)
      requires Valid() && h < hashsz
      modifies c, c.mem
      ensures c.Valid() && (c.mem == old(c.mem) || fresh(c.mem))
      ensures NewRecord(c.mem[..], c.view.live, t, h, p, data)
      ensures p >= 1 && p - 1 !in old(c.view).live && p - 1 in c.view.live
      ensures c.view.live == old(c.view).live[p - 1 := c.view.live[p - 1]]
      ensures Kept(old(c.mem[..]), c.mem[..], old(c.view).live) && old(c.mem.Length) <= c.mem.Length
      ensures Mtime() == old(Mtime())
    {
      hide Inv, Rep, HashRep, Alloc, TableAt, Heads, Records, IsRec, Pack, NewRecord, NoClash;
      ghost var v, w := c.view, c.mem[..];
      HashParts(w, v.live, t);
      TimeAt();
      p := c.Nvalloc(|data| + 16);
      AllocInv(v, |data| + 16);
      NewRecordAt(v, w, c.view, c.mem[..], t, h, p, data);
      SizesGrow(v, w, c.view, c.mem[..]);
      TimeAt();
    }

    method FillRecord(ghost h: nat, p: nat, data: seq<byte>)
      requires c.Valid() && NewRecord(c.mem[..], c.view.live, t, h, p, data)
      modifies c.mem
      ensures c.Valid() && BeforeLink(c.mem[..], c.view.live, t, h, p, data)
      ensures forall b :: b in c.view.live ==> b + 1 == t.tab || b + 1 == p || IsRec(t, b + 1)
      ensures p >= 1 && p - 1 in c.view.live
      ensures forall x :: 0 <= x < c.mem.Length && !(p - 1 <= x < p - 1 + c.view.live[p - 1]) ==>
                c.mem[x] == old(c.mem[x])
    {
      hide Inv, Rep, TableAt, Heads, Records, IsRec, Pack, NoClash;
      ghost var x, live := c.mem[..], c.view.live;
      InvParts(c.view);
      c.Store(p - 1, p + 1, |data|);
      StoreBytes(c, p - 1, p + 2, data);
      NewBlockWords(x, c.mem[..], live, c.view.size, t, p - 1);
    }

    /** Links the record in as the head of its list. */
    method LinkFront(h: nat, p: nat, ghost data: seq<byte>)
      requires c.Valid() && hashtab == t.tab + 1 && hashsz == |t.buckets| && h < hashsz
      requires BeforeLink(c.mem[..], c.view.live, t, h, p, data)
      modifies c.mem
      ensures c.Valid() && Linked(old(c.mem[..]), c.mem[..], t, h, p, true)
    {
      hide Inv, Rep, BeforeLink, Linked;
      ghost var w := c.mem[..];
      LinkBlocks(w, c.view, t, h, p, data);
      LinkedFront(w, t, h, p);
      var root := hashtab + h;
      var tail := c.mem[root];
      if tail != 0 {
        c.Store(p - 1, p, c.mem[tail]);
        c.Store(tail - 1, tail, p);
      } else {
        c.Store(p - 1, p, p);
        c.Store(t.tab - 1, root, p);
      }
    }

    /** NVlist::sappend: the record becomes the tail of the list. */
    method Sappend(h: nat, data: seq<byte>) returns (ghost p: nat)
      requires Valid() && h < hashsz
      modifies this`t, c, c.mem
      ensures Valid() && (c.mem == old(c.mem) || fresh(c.mem))
      ensures hashtab == old(hashtab) && hashsz == old(hashsz) == |old(t).buckets| == |old(t).content|
      ensures t == Inserted(old(t), h, p, data, false)
      ensures t.content == old(t.content)[h := old(t.content)[h] + [data]]
      ensures p >= 1 && p - 1 !in old(c.view).live && c.view.live.Keys == old(c.view).live.Keys + {p - 1}
      ensures Untouched(old(c.mem[..]), c.mem[..], old(c.view).live, old(t), h) && Mtime() == old(Mtime())
    {
      hide *;
      Parts();
      ghost var w := c.mem[..];
      ghost var live, first := c.view.live, t;
      TimeAt();
      var nr := AllocRecord(h, data);
      p := nr;
      TimeAt();
      ghost var y := c.mem[..];
      FillRecord(h, nr, data);
      ghost var x := c.mem[..];
      Layout(c);
      LinkBack(h, nr, data);
      InsertRep(x, c.mem[..], c.view.live, c.view.size, t, h, p, data, false);
      LinkedKeeps(w, y, x, c.mem[..], live, c.view.live, c.view.size, t, h, p, data, false);
      InsertedIs(t, h, p, data, false);
      t := Inserted(t, h, p, data, false);
      Whole();
      TimeAt();
    }

    /** Links the record in as the tail of its list. */
    method LinkBack(h: nat, p: nat, ghost data: seq<byte>)
      requires c.Valid() && hashtab == t.tab + 1 && hashsz == |t.buckets| && h < hashsz
      requires BeforeLink(c.mem[..], c.view.live, t, h, p, data)
      modifies c.mem
      ensures c.Valid() && Linked(old(c.mem[..]), c.mem[..], t, h, p, false)
    {
      hide Inv, Rep, BeforeLink, Linked;
      ghost var w := c.mem[..];
      LinkBlocks(w, c.view, t, h, p, data);
      LinkedBack(w, t, h, p);
      var root := hashtab + h;
      var tail := c.mem[root];
      if tail != 0 {
        c.Store(p - 1, p, c.mem[tail]);
        c.Store(tail - 1, tail, p);
        c.Store(t.tab - 1, root, p);
      } else {
        c.Store(p - 1, p, p);
        c.Store(t.tab - 1, root, p);
      }
    }

    /** The modification time in the header. */
    ghost function Mtime(): int
      reads c, c.mem
    {
      if MTIME < c.mem.Length then c.mem[MTIME] else 0
    }

    lemma TimeAt()
      requires c.Valid()
      ensures MTIME < HLEN < c.mem.Length && Mtime() == c.mem[MTIME]
    {
      hide Inv, Rep;
      Layout(c);
    }

    /** What the lemmas need of a valid table. */
    lemma Parts()
      requires Valid()
      ensures c.Valid() && Inv(c.view) && Rep(c.mem[..], c.view) && HashRep(c.mem[..], c.view.live, t)
      ensures hashtab == t.tab + 1 && hashsz == |t.buckets| == |t.content|
    {
      hide Inv, Rep, Heads, NoClash, TableAt, Exact, Rec, IsRec, NextRec;
    }

    lemma Whole()
      requires c.Valid() && HashRep(c.mem[..], c.view.live, t) && hashtab == t.tab + 1 && hashsz == |t.buckets|
      ensures Valid()
    {
      hide Inv, Rep, HashRep;
    }

    /** The word a bucket's list hangs on: 0 exactly for an empty one. */
    lemma Root(h: nat)
      requires Valid() && h < hashsz
      ensures hashsz == |t.buckets| == |t.content| && |t.content[h]| == |t.buckets[h]|
      ensures hashtab + h < c.mem.Length && (c.mem[hashtab + h] == 0 <==> t.content[h] == [])
    {
      hide Inv, Rep, HashRep;
      RootWord(c.mem[..], c.view.live, t, h);
    }

    /** NVlist::sremove: unlinks and frees the head of a list that is not empty. */
    method Sremove(h: nat)
      requires Valid() && h < hashsz == |t.content| && t.content[h] != []
      modifies this`t, c, c.mem
      ensures Valid() && c.mem == old(c.mem)
      ensures hashtab == old(hashtab) && hashsz == old(hashsz)
      ensures t.content == old(t.content)[h := old(t.content)[h][1..]] && Mtime() == old(Mtime())
    {
      hide *;
      Parts();
      Root(h);
      ghost var w, v := c.mem[..], c.view;
      var nr := CutHead(h);
      TimeAt();
      ghost var u := c.mem[..];
      c.Nvfree(nr);
      RemoveRep(v, w, u, c.view, c.mem[..], t, h);
      RemovedContent(t, h);
      t := Removed(t, h);
      Whole();
      TimeAt();
    }

    /** Unlinks the head. */
    method CutHead(h: nat) returns (nr: nat)
      requires Valid() && h < hashsz == |t.buckets| && t.buckets[h] != []
      modifies c.mem
      ensures c.Valid() && Cut(old(c.mem[..]), c.mem[..], t, h)
      ensures nr == t.buckets[h][0] && nr >= 1 && nr - 1 in c.view.live && Mtime() == old(Mtime())
    {
      hide *;
      Parts();
      TimeAt();
      ghost var w := c.mem[..];
      HeadBlocks(w, c.view.live, t, h);
      CutIs(w, c.view.live, t, h);
      var root := hashtab + h;
      var tail := c.mem[root];
      nr := c.mem[tail];
      InParts(c.view, w, t.tab - 1);
      InParts(c.view, w, tail - 1);
      if tail == nr {
        c.Store(t.tab - 1, root, 0);
      } else {
        c.Store(tail - 1, tail, c.mem[nr]);
      }
      TimeAt();
    }

    /** NVlist::sclear on one bucket. */
    method SclearBucket(h: nat)
      requires Valid() && h < hashsz == |t.content|
      modifies this`t, c, c.mem
      ensures Valid() && c.mem == old(c.mem)
      ensures hashtab == old(hashtab) && hashsz == old(hashsz)
      ensures t.content == old(t.content)[h := []] && Mtime() == old(Mtime())
    {
      hide *;
      Root(h);
      ghost var content := t.content;
      while c.mem[hashtab + h] != 0
        invariant Valid() && c.mem == old(c.mem) && hashtab == old(hashtab) && hashsz == old(hashsz)
        invariant |t.content| == |content| == hashsz && t.content == content[h := t.content[h]]
        invariant Mtime() == old(Mtime())
        invariant hashtab + h < c.mem.Length && (c.mem[hashtab + h] == 0 <==> t.content[h] == [])
        decreases |t.content[h]|
      {
        Sremove(h);
        Root(h);
      }
    }

    /** NVHash::sclear: afterwards no list has a record, and no block but the table is live. */
    method Sclear()
      requires Valid()
      modifies this`t, c, c.mem
      ensures Valid() && c.mem == old(c.mem)
      ensures hashtab == old(hashtab) && hashsz == old(hashsz)
      ensures |t.content| == hashsz && forall h :: 0 <= h < hashsz ==> t.content[h] == []
      ensures c.view.live.Keys == {hashtab - 2} && Mtime() == old(Mtime())
    {
      hide *;
      Parts();
      var i := 0;
      while i < hashsz
        invariant 0 <= i <= hashsz && Valid() && c.mem == old(c.mem)
        invariant hashtab == old(hashtab) && hashsz == old(hashsz) && |t.content| == hashsz
        invariant Mtime() == old(Mtime())
        invariant forall h :: 0 <= h < i ==> t.content[h] == []
      {
        SclearBucket(i);
        i := i + 1;
      }
      Parts();
      OnlyTable(c.mem[..], c.view.live, t);
    }

    method SisEmpty() returns (empty: bool)
      requires Valid()
      ensures empty <==> forall h :: 0 <= h < |t.content| ==> t.content[h] == []
    {
      hide *;
      Parts();
      var i := 0;
      while i < hashsz
        invariant 0 <= i <= hashsz
        invariant forall h :: 0 <= h < i ==> t.content[h] == []
      {
        Root(i);
        if c.mem[hashtab + i] != 0 {
          return false;
        }
        i := i + 1;
      }
      return true;
    }

    /** NVcontainer::setmtime: the time only moves forward unless forced. */
    method SetMtime(tm: int, force: bool)
      requires Valid()
      modifies c.mem
      ensures Valid() && MTIME < c.mem.Length && Mtime() == c.mem[MTIME]
      ensures c.mem[..] == old(c.mem[..])[MTIME := if force || tm > old(Mtime()) then tm else old(Mtime())]
    {
      hide *;
      Parts();
      TimeAt();
      TimeWordRep(c.view, c.mem[..], t, tm);
      c.SetMtime(tm, force);
      Whole();
      TimeAt();
    }

    /** memcpy of new data of the same size over a record. */
    method Overwrite(ghost h: nat, ghost k: nat, r: nat, data: seq<byte>)
      requires Valid() && h < |t.content| && k < |t.content[h]| && |data| == |t.content[h][k]|
      requires h < |t.buckets| && k < |t.buckets[h]| && r == t.buckets[h][k]
      modifies this`t, c.mem
      ensures Valid()
      ensures hashtab == old(hashtab) && hashsz == old(hashsz)
      ensures t == Updated(old(t), h, k, data) && Mtime() == old(Mtime())
    {
      hide *;
      Parts();
      TimeAt();
      ghost var w, v := c.mem[..], c.view;
      RecordAt(w, v.live, t, h, k);
      RecIn(w, v.live, t.buckets[h][k], NextRec(t.buckets[h], k), t.content[h][k]);
      InParts(v, w, r - 1);
      StoreBytes(c, r - 1, r + 2, data);
      TimeAt();
      OverwrittenIs(w, c.mem[..], r, data);
      UpdatedRep(w, c.mem[..], v, t, h, k, data);
      UpdatedTab(t, h, k, data);
      t := Updated(t, h, k, data);
      Whole();
    }
  }

  /** The time in the header is no part of the table. */
  lemma TimeWordRep(v: View, w: seq<int>, t: Table, tm: int)
    requires Inv(v) && Rep(w, v) && HashRep(w, v.live, t)
    ensures MTIME < |w| && w[MTIME := w[MTIME]] == w && HashRep(w[MTIME := tm], v.live, t)
  {
    hide Inv, Rep, HashRep, Kept, TableAt, Heads, Records, NoClash, Exact;
    TailHeader(v, w);
    HashParts(w, v.live, t);
    HeaderWordKept(v, w, MTIME, tm);
    KeptRep(w, w[MTIME := tm], v.live, v.live, t);
    HashWhole(w[MTIME := tm], v.live, t);
  }

  lemma HeaderWordKept(v: View, w: seq<int>, i: nat, x: int)
    requires Inv(v) && i < HLEN && i < |w|
    ensures Kept(w, w[i := x], v.live)
  {
    hide Inv, InLive;
    FreeWordsKept(v, i);
  }

  lemma OverwrittenIs(w: seq<int>, u: seq<int>, r: nat, d: seq<byte>)
    requires |u| == |w| && r + 2 + Words(|d|) <= |w|
    requires forall x :: 0 <= x < |w| && !(r + 2 <= x < r + 2 + Words(|d|)) ==> u[x] == w[x]
    requires u[r + 2..r + 2 + Words(|d|)] == Pack(d)
    ensures Overwritten(w, u, r, d)
  {
  }

  lemma RecordAt(w: seq<int>, live: map<nat, nat>, t: Table, h: nat, k: nat)
    requires h < |t.buckets| && k < |t.buckets[h]| && HashRep(w, live, t)
    ensures |t.content| == |t.buckets| && |t.content[h]| == |t.buckets[h]|
    ensures Rec(w, live, t.buckets[h][k], NextRec(t.buckets[h], k), t.content[h][k])
  {
    hide Rec, NextRec, Heads, NoClash, TableAt, Exact, IsRec;
  }

  lemma UpdatedTab(t: Table, h: nat, k: nat, d: seq<byte>)
    requires h < |t.content| && k < |t.content[h]|
    ensures var n := Updated(t, h, k, d);
      n.tab == t.tab && n.buckets == t.buckets && n.content == t.content[h := t.content[h][k := d]]
  {
  }

  lemma RemovedContent(t: Table, h: nat)
    requires h < |t.buckets| == |t.content| && |t.buckets[h]| == |t.content[h]| > 0
    ensures var n := Removed(t, h);
      n.tab == t.tab && |n.buckets| == |t.buckets| && n.content == t.content[h := t.content[h][1..]]
  {
  }

  /** Cut, in the two cases sremove distinguishes, with what is known of the words it reads. */
  lemma CutIs(w: seq<int>, live: map<nat, nat>, t: Table, h: nat)
    requires h < |t.buckets| && t.buckets[h] != [] && HeadKnown(w, live, t, h)
    ensures var recs, root, r := t.buckets[h], t.tab + 1 + h, Tail(t.buckets[h]);
      && root < |w| && w[root] == r && r < |w| && w[r] == recs[0] && recs[0] < |w|
      && t.tab >= 1 && t.tab - 1 in live && t.tab - 1 < root < t.tab - 1 + live[t.tab - 1]
      && r >= 1 && r - 1 in live && r - 1 < r < r - 1 + live[r - 1] && recs[0] >= 1 && recs[0] - 1 in live
      && (if recs[0] == r then Cut(w, w[root := 0], t, h) else Cut(w, w[r := w[recs[0]]], t, h))
  {
  }

  lemma HashStructure(v: View, w: seq<int>, t: Table)
    requires Inv(v) && HashRep(w, v.live, t)
    ensures Structure(w, v.live, v.size, t)
  {
    hide LiveOk, TableAt, Heads, Records, NoClash, Even, FreeOk, Tiled;
  }

  /** The word a bucket's list hangs on: 0 exactly for an empty one. */
  lemma RootWord(w: seq<int>, live: map<nat, nat>, t: Table, h: nat)
    requires HashRep(w, live, t) && h < |t.buckets|
    ensures t.Root(h) < |w| && |t.content| == |t.buckets| && |t.content[h]| == |t.buckets[h]|
    ensures w[t.Root(h)] == Tail(t.buckets[h]) && (w[t.Root(h)] == 0 <==> t.content[h] == [])
  {
    hide NoClash, Exact;
    if t.buckets[h] != [] {
      RecAt(w, live, t, h, |t.buckets[h]| - 1);
    }
  }

  lemma OnlyTable(w: seq<int>, live: map<nat, nat>, t: Table)
    requires HashRep(w, live, t) && forall h :: 0 <= h < |t.content| ==> t.content[h] == []
    ensures live.Keys == {t.tab - 1}
  {
    hide NoClash, Heads;
  }

  /** Everything CutHead needs to know about the head and the tail. */
  ghost predicate HeadKnown(w: seq<int>, live: map<nat, nat>, t: Table, h: nat)
    requires h < |t.buckets| && t.buckets[h] != []
  {
    var recs, root := t.buckets[h], t.tab + 1 + h;
    var r := Tail(recs);
    && root < |w| && w[root] == r && t.tab >= 1 && t.tab - 1 in live && t.tab - 1 < root < t.tab - 1 + live[t.tab - 1]
    && r >= 1 && r - 1 in live && r - 1 < r < r - 1 + live[r - 1] && r < |w| && w[r] == recs[0]
    && recs[0] >= 1 && recs[0] - 1 in live && recs[0] < |w|
    && (recs[0] == r <==> |recs| == 1) && (|recs| > 1 ==> w[recs[0]] == recs[1])
  }

  lemma HeadBlocks(w: seq<int>, live: map<nat, nat>, t: Table, h: nat)
    requires h < |t.buckets| && t.buckets[h] != [] && HashRep(w, live, t)
    ensures HeadKnown(w, live, t, h)
  {
    hide HashRep, Records, NoClash, IsRec, Exact, Heads;
    var recs := t.buckets[h];
    var k := |recs| - 1;
    HashParts(w, live, t);
    RootWord(w, live, t, h);
    RecordAt(w, live, t, h, k);
    RecordAt(w, live, t, h, 0);
    RecApart(t, h, 0, h, k);
  }

  lemma RemoveRep(v: View, w: seq<int>, u: seq<int>, x: View, z: seq<int>, t: Table, h: nat)
    requires h < |t.buckets| == |t.content| && |t.buckets[h]| == |t.content[h]| > 0 && Cut(w, u, t, h) && |u| <= |z|
    requires var nr := t.buckets[h][0];
      nr >= 1 && nr - 1 in v.live && x == Free(v, nr - 1) && Kept(u, z, x.live)
    requires Inv(v) && HashRep(w, v.live, t)
    ensures HashRep(z, x.live, Removed(t, h))
  {
    hide Inv, HashRep, TableAt, Heads, Records, LiveOk, Kept, Removed, NoClash, Cut, IsRec, Release, Structure, Shaped;
    var nr, n := t.buckets[h][0], Removed(t, h);
    HashParts(w, v.live, t);
    HashStructure(v, w, t);
    CutRep(w, u, v.live, v.size, t, h);
    RemovedApart(t, h);
    RecApart(t, h, 0, h, 0);
    RemovedTab(t, h);
    FreedRep(u, z, v.live, v.size, n, nr - 1);
    RemovedExact(v.live, t, h);
    HashWhole(z, x.live, n);
  }

  lemma RemovedExact(live: map<nat, nat>, t: Table, h: nat)
    requires Shaped(t) && Exact(live, t) && h < |t.buckets| && t.buckets[h] != [] && t.buckets[h][0] >= 1
    requires forall r :: IsRec(Removed(t, h), r) <==> IsRec(t, r) && r != t.buckets[h][0]
    ensures Exact(live - {t.buckets[h][0] - 1}, Removed(t, h))
  {
    hide IsRec;
  }

  lemma HashWhole(w: seq<int>, live: map<nat, nat>, t: Table)
    requires TableAt(w, live, t) && Heads(w, t) && Records(w, live, t) && NoClash(t) && Exact(live, t)
    ensures HashRep(w, live, t)
  {
  }

  lemma RemovedTab(t: Table, h: nat)
    requires Shaped(t) && h < |t.buckets| && t.buckets[h] != []
    ensures Removed(t, h).tab == t.tab
  {
  }

  lemma LinkedFront(w: seq<int>, t: Table, h: nat, p: nat)
    requires h < |t.buckets| && p < |w| && t.Root(h) < |w| && p != t.Root(h) && w[t.Root(h)] == Tail(t.buckets[h])
    ensures var recs := t.buckets[h];
      if recs == [] then Linked(w, w[p := p][t.Root(h) := p], t, h, p, true)
      else Tail(recs) < |w| && Tail(recs) != p && Tail(recs) != t.Root(h) ==>
             Linked(w, w[p := recs[0]][Tail(recs) := p], t, h, p, true)
  {
  }

  lemma LinkedBack(w: seq<int>, t: Table, h: nat, p: nat)
    requires h < |t.buckets| && p < |w| && t.Root(h) < |w| && p != t.Root(h) && w[t.Root(h)] == Tail(t.buckets[h])
    ensures var recs := t.buckets[h];
      if recs == [] then Linked(w, w[p := p][t.Root(h) := p], t, h, p, false)
      else Tail(recs) < |w| && Tail(recs) != p && Tail(recs) != t.Root(h) ==>
             Linked(w, w[p := recs[0]][Tail(recs) := p][t.Root(h) := p], t, h, p, false)
  {
  }

  lemma HashParts(w: seq<int>, live: map<nat, nat>, t: Table)
    requires HashRep(w, live, t)
    ensures TableAt(w, live, t) && Heads(w, t) && Records(w, live, t) && NoClash(t) && Exact(live, t) && Shaped(t)
  {
  }

  /** Everything LinkFront needs to know about where it writes. */
  lemma LinkBlocks(w: seq<int>, v: View, t: Table, h: nat, p: nat, d: seq<byte>)
    requires Inv(v) && Rep(w, v) && BeforeLink(w, v.live, t, h, p, d)
    ensures var recs, root, live := t.buckets[h], t.Root(h), v.live;
      && root < |w| && w[root] == Tail(recs) && p >= 1 && p - 1 in live && p - 1 < p < p - 1 + live[p - 1]
      && p < |w| && t.tab >= 1 && t.tab - 1 in live && t.tab - 1 < root < t.tab - 1 + live[t.tab - 1] && root != p
      && (Tail(recs) == 0 <==> recs == [])
      && (recs != [] ==> (
            var r := Tail(recs);
            && r >= 1 && r - 1 in live && r - 1 < r < r - 1 + live[r - 1] && r < |w| && w[r] == recs[0]
            && r != p && r != root))
  {
    hide Inv, Rep, Records, NoClash, IsRec, LiveOk;
    InvParts(v);
    InParts(v, w, p - 1);
    TableWord(w, v.live, v.size, t, h, p, d, t.Root(h));
    if t.buckets[h] != [] {
      TailBlock(w, v.live, t, h, p);
      TailLink(w, v.live, t, h);
    }
  }

  lemma TailLink(w: seq<int>, live: map<nat, nat>, t: Table, h: nat)
    requires Records(w, live, t) && h < |t.buckets| && t.buckets[h] != []
    ensures var r := Tail(t.buckets[h]); r < |w| && w[r] == t.buckets[h][0]
  {
    hide Records;
    RecAt(w, live, t, h, |t.buckets[h]| - 1);
  }
}
