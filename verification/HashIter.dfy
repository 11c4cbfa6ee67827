/** The two iterators over the bucket table: NVHashIter (NVClasses-0.9.1/NVHash.h:82-150) and
    NVActiveDB_Iter (NServer-0.9.1/NVActiveDB.h:147-216). */
module HashIterators {
  import opened FreeList
  import opened Container
  import opened HashTable

  /** The records of all buckets, in the order an iterator is to visit them. */
  function Flat<T>(rows: seq<seq<T>>): seq<T> {
    if rows == [] then [] else Flat(rows[..|rows| - 1]) + rows[|rows| - 1]
  }

  lemma {:induction false} FlatAt<T>(rows: seq<seq<T>>, h: nat, k: nat)
    requires h < |rows| && k < |rows[h]|
    ensures |Flat(rows[..h])| + k < |Flat(rows)| && Flat(rows)[|Flat(rows[..h])| + k] == rows[h][k]
  {
    var front := rows[..|rows| - 1];
    if h < |rows| - 1 {
      assert front[..h] == rows[..h];
      FlatAt(front, h, k);
    }
  }

  lemma FlatNext<T>(rows: seq<seq<T>>, h: nat)
    requires h < |rows|
    ensures Flat(rows[..h + 1]) == Flat(rows[..h]) + rows[h]
  {
    assert rows[..h + 1][..h] == rows[..h];
  }

  lemma {:induction false} FlatFrom<T>(rows: seq<seq<T>>, x: nat) returns (h: nat, k: nat)
    requires x < |Flat(rows)|
    ensures h < |rows| && k < |rows[h]| && x == |Flat(rows[..h])| + k
  {
    var front := rows[..|rows| - 1];
    if x < |Flat(front)| {
      h, k := FlatFrom(front, x);
      assert front[..h] == rows[..h];
    } else {
      h, k := |rows| - 1, x - |Flat(front)|;
    }
  }

  /** Every record is in the list of all records, and none is there twice. */
  lemma FlatOnce(t: Table)
    requires NoClash(t)
    ensures forall r :: r in Flat(t.buckets) <==> IsRec(t, r)
    ensures forall x, y :: 0 <= x < y < |Flat(t.buckets)| ==> Flat(t.buckets)[x] != Flat(t.buckets)[y]
  {
    hide Flat, NoClash, IsRec;
    var all := Flat(t.buckets);
    forall r
      ensures r in all <==> IsRec(t, r)
    {
      FlatHas(t, r);
    }
    forall x, y | 0 <= x < y < |all|
      ensures all[x] != all[y]
    {
      FlatApart(t, x, y);
    }
  }

  lemma FlatHas(t: Table, r: nat)
    ensures r in Flat(t.buckets) <==> IsRec(t, r)
  {
    hide Flat;
    var all := Flat(t.buckets);
    if IsRec(t, r) {
      var h, k :| 0 <= h < |t.buckets| && 0 <= k < |t.buckets[h]| && t.buckets[h][k] == r;
      FlatAt(t.buckets, h, k);
    }
    if r in all {
      var x :| 0 <= x < |all| && all[x] == r;
      var h, k := FlatFrom(t.buckets, x);
      FlatAt(t.buckets, h, k);
    }
  }

  lemma FlatApart(t: Table, x: nat, y: nat)
    requires NoClash(t) && x < y < |Flat(t.buckets)|
    ensures Flat(t.buckets)[x] != Flat(t.buckets)[y]
  {
    hide Flat, NoClash;
    var h, k := FlatFrom(t.buckets, x);
    var i, j := FlatFrom(t.buckets, y);
    FlatAt(t.buckets, h, k);
    FlatAt(t.buckets, i, j);
    RecApart(t, h, k, i, j);
  }

  /** The iterator stands on the record that follows `done` visited ones, or is past the last. */
  ghost predicate Stands(t: Table, hv: nat, pos: nat, tail: nat, done: nat) {
    if pos == 0 then hv == |t.buckets| && done == |Flat(t.buckets)|
    else
      && hv < |t.buckets| && tail == Tail(t.buckets[hv])
      && exists k :: 0 <= k < |t.buckets[hv]| && pos == t.buckets[hv][k] && done == |Flat(t.buckets[..hv])| + k
  }

  lemma StandsAt(t: Table, hv: nat, pos: nat, tail: nat, done: nat)
    requires Stands(t, hv, pos, tail, done)
    ensures done <= |Flat(t.buckets)| && (pos == 0 <==> done == |Flat(t.buckets)|)
    ensures pos != 0 ==> pos == Flat(t.buckets)[done]
  {
    if pos != 0 {
      var k :| 0 <= k < |t.buckets[hv]| && pos == t.buckets[hv][k] && done == |Flat(t.buckets[..hv])| + k;
      FlatAt(t.buckets, hv, k);
    }
  }

  /** The loop both iterators share: on to the first bucket from hv on that is not empty. */
  method SkipNulls(ht: NVHash, from: nat) returns (hv: nat, pos: nat, tail: nat)
    requires ht.Valid() && from <= ht.hashsz == |ht.t.buckets|
    ensures Stands(ht.t, hv, pos, tail, |Flat(ht.t.buckets[..from])|)
  {
    hide *;
    hv, pos, tail := from, 0, 0;
    while hv < ht.hashsz
      invariant from <= hv <= ht.hashsz && pos == 0
      invariant |Flat(ht.t.buckets[..hv])| == |Flat(ht.t.buckets[..from])|
    {
      ht.Parts();
      ht.Root(hv);
      if ht.c.mem[ht.hashtab + hv] != 0 {
        HeadBlocks(ht.c.mem[..], ht.c.view.live, ht.t, hv);
        HeadOf(ht.c.mem[..], ht.c.view.live, ht.t, hv);
        tail := ht.c.mem[ht.hashtab + hv];
        pos := ht.c.mem[tail];
        return;
      }
      FlatNext(ht.t.buckets, hv);
      hv := hv + 1;
    }
    assert ht.t.buckets[..hv] == ht.t.buckets;
    StandsEnd(ht.t, tail);
  }

  lemma StandsEnd(t: Table, tail: nat)
    ensures Stands(t, |t.buckets|, 0, tail, |Flat(t.buckets)|)
  {
  }

  lemma HeadOf(w: seq<int>, live: map<nat, nat>, t: Table, h: nat)
    requires h < |t.buckets| && t.buckets[h] != [] && HeadKnown(w, live, t, h)
    ensures var root, tail := t.tab + 1 + h, Tail(t.buckets[h]);
      && root < |w| && w[root] == tail && tail < |w| && w[tail] >= 0
      && Stands(t, h, w[tail], tail, |Flat(t.buckets[..h])|)
  {
    assert w[Tail(t.buckets[h])] == t.buckets[h][0];
  }

  /** What a step within a bucket does. */
  lemma StepWithin(w: seq<int>, live: map<nat, nat>, t: Table, hv: nat, pos: nat, tail: nat, done: nat)
    requires HashRep(w, live, t) && Stands(t, hv, pos, tail, done) && pos != 0
    ensures hv < |t.buckets| && pos < |w| && w[pos] >= 0
    ensures pos == tail ==> done + 1 == |Flat(t.buckets[..hv + 1])|
    ensures pos != tail ==> Stands(t, hv, w[pos], tail, done + 1)
  {
    hide HashRep, NoClash, Heads, TableAt, Exact, Records;
    var k :| 0 <= k < |t.buckets[hv]| && pos == t.buckets[hv][k] && done == |Flat(t.buckets[..hv])| + k;
    HashParts(w, live, t);
    RecordAt(w, live, t, hv, k);
    RecApart(t, hv, k, hv, |t.buckets[hv]| - 1);
    FlatNext(t.buckets, hv);
    if pos != tail {
      assert w[pos] == t.buckets[hv][k + 1];
      RecordAt(w, live, t, hv, k + 1);
    }
  }

  class NVHashIter {
    const ht: NVHash
    /** Offset of the current record, 0 for none, and of the tail of its list. */
    var pos: nat
    var curtail: nat
    var curhashval: nat

    ghost predicate At(done: nat)
      reads this, ht
    {
      Stands(ht.t, curhashval, pos, curtail, done)
    }

    constructor (ht: NVHash)
      ensures this.ht == ht
    {
      this.ht := ht;
    }

    method First()
      requires ht.Valid()
      modifies this
      ensures At(0)
    {
      hide *;
      ht.Parts();
      curhashval, pos, curtail := SkipNulls(ht, 0);
      FlatNone(ht.t.buckets);
      AtIs(0);
    }

    predicate IsValid()
      reads this
    {
      pos != 0
    }

    method Next(ghost done: nat)
      requires ht.Valid() && At(done)
      modifies this
      ensures At(if old(pos) == 0 then done else done + 1)
    {
      hide *;
      AtIs(done);
      ht.Parts();
      if pos != 0 {
        StepWithin(ht.c.mem[..], ht.c.view.live, ht.t, curhashval, pos, curtail, done);
        if pos == curtail {
          curhashval, pos, curtail := SkipNulls(ht, curhashval + 1);
        } else {
          pos := ht.c.mem[pos];
        }
      }
      AtIs(done + 1);
    }

    lemma AtIs(done: nat)
      ensures At(done) <==> Stands(ht.t, curhashval, pos, curtail, done)
    {
    }
  }

  lemma FlatNone<T>(rows: seq<seq<T>>)
    ensures Flat(rows[..0]) == []
  {
  }

  /** for (i.first(); i.valid(); i.next()): every record once, then the end. */
  method Traverse(ht: NVHash) returns (visited: seq<nat>)
    requires ht.Valid()
    ensures visited == Flat(ht.t.buckets)
  {
    hide HashRep, Stands, Flat, Inv, Rep;
    var it := new NVHashIter(ht);
    it.First();
    visited := [];
    StandsAt(ht.t, it.curhashval, it.pos, it.curtail, 0);
    while it.IsValid()
      invariant it.ht == ht && it.At(|visited|) && |visited| <= |Flat(ht.t.buckets)|
      invariant visited == Flat(ht.t.buckets)[..|visited|]
      invariant it.pos == 0 <==> |visited| == |Flat(ht.t.buckets)|
      decreases |Flat(ht.t.buckets)| - |visited|
    {
      StandsAt(ht.t, it.curhashval, it.pos, it.curtail, |visited|);
      ghost var done := |visited|;
      visited := visited + [it.pos];
      it.Next(done);
      StandsAt(ht.t, it.curhashval, it.pos, it.curtail, |visited|);
    }
  }

  class NVActiveDB_Iter {
    const db: NVHash
    var hash_val: nat
    var pos: nat
    var tail: nat

    ghost predicate At(done: nat)
      reads this, db
    {
      Stands(db.t, hash_val, pos, tail, done)
    }

    /** begin() and end(). */
    constructor (db: NVHash, begin: bool)
      requires db.Valid()
      ensures this.db == db && At(if begin then 0 else |Flat(db.t.buckets)|)
    {
      hide *;
      this.db := db;
      new;
      db.Parts();
      hash_val, pos, tail := SkipNulls(db, if begin then 0 else db.hashsz);
      FlatNone(db.t.buckets);
      assert db.t.buckets[..db.hashsz] == db.t.buckets;
      AtIs(if begin then 0 else |Flat(db.t.buckets)|);
    }

    /** Both iterators stand on the same record, or both are past the last. */
    predicate Equals(other: NVActiveDB_Iter)
      reads this, other
    {
      other.db == db && other.pos == pos
    }

    /** The source asserts that the iterator is not past the end. */
    method Next(ghost done: nat)
      requires db.Valid() && At(done) && pos != 0
      modifies this
      ensures At(done + 1)
    {
      hide *;
      AtIs(done);
      db.Parts();
      StepWithin(db.c.mem[..], db.c.view.live, db.t, hash_val, pos, tail, done);
      if pos == tail {
        hash_val, pos, tail := SkipNulls(db, hash_val + 1);
      } else {
        pos := db.c.mem[pos];
      }
      AtIs(done + 1);
    }

    lemma AtIs(done: nat)
      ensures At(done) <==> Stands(db.t, hash_val, pos, tail, done)
    {
    }

    lemma EqualIffSameCount(other: NVActiveDB_Iter, mine: nat, theirs: nat)
      requires db.Valid() && other.db == db && At(mine) && other.At(theirs)
      ensures Equals(other) <==> mine == theirs
    {
      hide HashRep, Stands, Inv, Rep, NoClash;
      db.Parts();
      HashParts(db.c.mem[..], db.c.view.live, db.t);
      StandsAt(db.t, hash_val, pos, tail, mine);
      StandsAt(db.t, other.hash_val, other.pos, other.tail, theirs);
      FlatOnce(db.t);
    }
  }

  /** for (i = db.begin(); i != db.end(); i.next()): the same records in the same order. */
  method TraverseActive(db: NVHash) returns (visited: seq<nat>)
    requires db.Valid()
    ensures visited == Flat(db.t.buckets)
  {
    hide HashRep, Stands, Flat, Inv, Rep;
    var it := new NVActiveDB_Iter(db, true);
    var end := new NVActiveDB_Iter(db, false);
    ghost var all := Flat(db.t.buckets);
    visited := [];
    StandsAt(db.t, it.hash_val, it.pos, it.tail, 0);
    while !it.Equals(end)
      invariant it.db == db && end.db == db && it.At(|visited|) && end.At(|all|)
      invariant |visited| <= |all| && visited == all[..|visited|]
      decreases |all| - |visited|
    {
      it.EqualIffSameCount(end, |visited|, |all|);
      StandsAt(db.t, it.hash_val, it.pos, it.tail, |visited|);
      ghost var done := |visited|;
      visited := visited + [it.pos];
      it.Next(done);
      StandsAt(db.t, it.hash_val, it.pos, it.tail, |visited|);
    }
    it.EqualIffSameCount(end, |visited|, |all|);
  }
}
