/** The batching of overview requests: CNewsgroup::sUpdateOverview in NServer-0.9.1/CNewsgroup.cc. */
module Overview {

  /** Two wanted numbers less than this far apart share a request. */
  const GAP: nat := 8

  datatype Range = Range(f: nat, l: nat)

  ghost predicate Within(r: Range, n: nat) {
    r.f <= n <= r.l
  }

  /** From every wanted number before l the next one up to l is close. */
  ghost predicate Dense(w: set<nat>, f: nat, l: nat) {
    forall x: nat :: x in w && f <= x < l ==> Near(w, x, l)
  }

  ghost predicate Near(w: set<nat>, x: nat, l: nat) {
    exists y: nat :: y in w && x < y < x + GAP && y <= l
  }

  lemma NearAt(w: set<nat>, f: nat, l: nat, x: nat)
    requires Dense(w, f, l) && x in w && f <= x < l
    ensures Near(w, x, l)
  {
    hide Near;
  }

  ghost predicate Tight(r: Range, w: set<nat>) {
    r.f <= r.l && r.f in w && r.l in w && Dense(w, r.f, r.l)
  }

  ghost predicate Covered(rs: seq<Range>, n: nat) {
    exists k :: 0 <= k < |rs| && Within(rs[k], n)
  }

  ghost predicate Spread(rs: seq<Range>) {
    forall j, k :: 0 <= j < k < |rs| ==> rs[j].l + GAP <= rs[k].f
  }

  /** The clusters of the set w: each starts and ends at a member and has no wide gap, they are
      in order and far apart, and every member is in one. */
  ghost predicate Clusters(rs: seq<Range>, w: set<nat>) {
    && (forall k :: 0 <= k < |rs| ==> Tight(rs[k], w))
    && Spread(rs)
    && (forall n :: n in w ==> Covered(rs, n))
  }

  // ----- a set has only one clustering -----

  lemma FirstLeast(rs: seq<Range>, w: set<nat>, n: nat)
    requires Clusters(rs, w) && n in w
    ensures rs != [] && rs[0].f <= n && rs[0].f in w
    ensures n <= rs[0].l || n >= rs[0].l + GAP
  {
    hide Dense;
    var k :| 0 <= k < |rs| && Within(rs[k], n);
    assert Tight(rs[0], w);
  }

  lemma SameEnd(r: seq<Range>, s: seq<Range>, w: set<nat>)
    requires Clusters(r, w) && Clusters(s, w) && r != [] && s != [] && r[0].f == s[0].f
    ensures s[0].l <= r[0].l
  {
    hide Dense, Clusters;
    TightAt(r, w, 0);
    TightAt(s, w, 0);
    if r[0].l < s[0].l {
      NearAt(w, s[0].f, s[0].l, r[0].l);
      var y: nat :| y in w && r[0].l < y < r[0].l + GAP && y <= s[0].l;
      FirstLeast(r, w, y);
    }
  }

  lemma TightAt(rs: seq<Range>, w: set<nat>, k: nat)
    requires Clusters(rs, w) && k < |rs|
    ensures Tight(rs[k], w)
  {
    hide Tight;
  }

  lemma RestClusters(rs: seq<Range>, w: set<nat>)
    requires Clusters(rs, w) && rs != []
    ensures Clusters(rs[1..], set n | n in w && n > rs[0].l)
  {
    hide Clusters, Tight, Covered;
    var v := set n | n in w && n > rs[0].l;
    forall k | 0 <= k < |rs[1..]|
      ensures Tight(rs[1..][k], v)
    {
      SpreadAt(rs, w, 0, k + 1);
      TightAt(rs, w, k + 1);
      DenseUpto(w, v, rs[k + 1]);
    }
    forall n | n in v
      ensures Covered(rs[1..], n)
    {
      CoveredRest(rs, w, n);
    }
    SpreadRest(rs, w);
    ClustersAre(rs[1..], v);
  }

  lemma SpreadAt(rs: seq<Range>, w: set<nat>, j: nat, k: nat)
    requires Clusters(rs, w) && j < k < |rs|
    ensures rs[j].l + GAP <= rs[k].f
  {
    hide Tight, Covered;
  }

  lemma SpreadRest(rs: seq<Range>, w: set<nat>)
    requires Clusters(rs, w) && rs != []
    ensures Spread(rs[1..])
  {
    hide Tight, Covered;
  }

  lemma CoveredRest(rs: seq<Range>, w: set<nat>, n: nat)
    requires Clusters(rs, w) && rs != [] && n in w && n > rs[0].l
    ensures Covered(rs[1..], n)
  {
    hide Tight, Spread;
    var k :| 0 <= k < |rs| && Within(rs[k], n);
    assert Within(rs[1..][k - 1], n);
  }

  lemma ClustersAre(rs: seq<Range>, w: set<nat>)
    requires (forall k :: 0 <= k < |rs| ==> Tight(rs[k], w)) && Spread(rs) && forall n :: n in w ==> Covered(rs, n)
    ensures Clusters(rs, w)
  {
    hide Tight, Spread, Covered;
  }

  lemma {:induction false} OneClustering(r: seq<Range>, s: seq<Range>, w: set<nat>)
    requires Clusters(r, w) && Clusters(s, w)
    ensures r == s
    decreases |r|
  {
    hide Dense, Clusters;
    if r != [] {
      TightAt(r, w, 0);
      FirstLeast(s, w, r[0].f);
      FirstLeast(r, w, s[0].f);
      SameEnd(r, s, w);
      SameEnd(s, r, w);
      RestClusters(r, w);
      RestClusters(s, w);
      OneClustering(r[1..], s[1..], set n | n in w && n > r[0].l);
      assert r == [r[0]] + r[1..] && s == [s[0]] + s[1..];
    } else if s != [] {
      TightAt(s, w, 0);
      FirstLeast(r, w, s[0].f);
    }
  }

  // ----- the loop -----

  function Wanted(listed: set<nat>, has: set<nat>, f: nat, l: nat): set<nat> {
    set n | n in listed && n !in has && f <= n <= l
  }

  function Upto(w: set<nat>, p: nat): set<nat> {
    set n | n in w && n < p
  }

  /** A wanted number lies at most seven below n, or is n. */
  ghost predicate JustAbove(w: set<nat>, n: nat) {
    exists m: nat :: m in w && m <= n < m + GAP
  }

  /** A record withdrawn upstream escapes the purge when a request passes over it. */
  ghost predicate Passed(rs: seq<Range>, n: nat) {
    exists k :: 0 <= k < |rs| && rs[k].f <= n < rs[k].l + GAP
  }

  /** Which happens exactly to the numbers just above a wanted one. */
  lemma PassedIff(rs: seq<Range>, w: set<nat>, n: nat)
    requires Clusters(rs, w)
    ensures Passed(rs, n) <==> JustAbove(w, n)
  {
    hide Dense;
    if Passed(rs, n) {
      var k :| 0 <= k < |rs| && rs[k].f <= n < rs[k].l + GAP;
      assert Tight(rs[k], w);
      if n < rs[k].l {
        ReachUp(w, rs[k], rs[k].f, n);
      }
    }
    if JustAbove(w, n) {
      var m: nat :| m in w && m <= n < m + GAP;
      var k :| 0 <= k < |rs| && Within(rs[k], m);
    }
  }

  lemma {:induction false} ReachUp(w: set<nat>, r: Range, x: nat, n: nat)
    requires Tight(r, w) && x in w && r.f <= x <= n < r.l
    ensures JustAbove(w, n)
    decreases n - x
  {
    hide Dense;
    if x + GAP <= n {
      NearAt(w, r.f, r.l, x);
      var y: nat :| y in w && x < y < x + GAP && y <= r.l;
      ReachUp(w, r, y, n);
    }
  }

  ghost predicate Answered(rs: seq<Range>, reply: Range -> set<nat>, n: nat) {
    exists k :: 0 <= k < |rs| && n in reply(rs[k])
  }

  /** The server sends lines for numbers in the range asked for. */
  ghost predicate Proper(reply: Range -> set<nat>) {
    forall r: Range, n: nat :: n in reply(r) ==> Within(r, n)
  }

  class CNewsgroup {
    /** The numbers with a record. */
    var has: set<nat>
    /** The ranges asked for, in order. */
    var requests: seq<Range>

    constructor (has: set<nat>)
      ensures this.has == has && requests == []
    {
      this.has, requests := has, [];
    }

    /** The inner loop: how far the batch that starts at f reaches, and where to go on. */
    method Batch(f: nat, infol: nat, listed: set<nat>, ghost w: set<nat>) returns (l: nat, i: nat)
      requires f in w && f <= infol
      requires forall n: nat :: f <= n <= infol ==> (n in w <==> n in listed && n !in has)
      ensures f <= l <= infol && l in w && Dense(w, f, l)
      ensures i == (if l + GAP <= infol then l + GAP else infol + 1) && forall n: nat :: l < n < i ==> n !in w
    {
      l := f;
      i := l + 1;
      while i < l + GAP && i <= infol
        invariant f <= l <= infol && l in w && Dense(w, f, l)
        invariant l < i <= l + GAP && i <= infol + 1 && forall n: nat :: l < n < i ==> n !in w
        decreases infol + 1 - i
      {
        if i !in has && i in listed {
          DenseNext(w, f, l, i);
          l := i;
        }
        i := i + 1;
      }
    }

    /** Asks for what is listed and not here, and drops what is here and no longer listed. */
    method SUpdateOverview(infof: nat, infol: nat, listed: set<nat>, reply: Range -> set<nat>)
      requires requests == [] && Proper(reply)
      modifies this
      ensures Clusters(requests, set n | n in listed && n !in old(has) && infof <= n <= infol)
      ensures forall n: nat :: infof <= n <= infol ==>
        (n in has <==>
          (n in old(has) && (n in listed || JustAbove(Wanted(listed, old(has), infof, infol), n)))
          || Answered(requests, reply, n))
      ensures forall n: nat :: !(infof <= n <= infol) ==> (n in has <==> n in old(has))
    {
      hide Clusters, Passed, Answered, Dense, JustAbove;
      ghost var h, w := has, Wanted(listed, has, infof, infol);
      var f := infof;
      ClustersNone(Upto(w, f), reply);
      while f <= infol
        invariant infof <= f && (f <= infol + 1 || f == infof)
        invariant Scanned(requests, w, f, infol)
        invariant forall n: nat :: !(infof <= n < f) ==> (n in has <==> n in h)
        invariant forall n: nat :: infof <= n < f ==>
          (n in has <==> (n in h && (n in listed || Passed(requests, n))) || Answered(requests, reply, n))
        decreases infol + 1 - f
      {
        if (f in has && f in listed) || (f !in has && f !in listed) {
          ScanOver(requests, w, f, infol, reply);
          f := f + 1;
        } else if f in listed {
          var l, i := Batch(f, infol, listed, w);
          ghost var rs := requests;
          requests := requests + [Range(f, l)];
          has := has + reply(Range(f, l));
          ScanBatch(rs, w, f, l, i, infol, reply);
          f := i;
        } else {
          ScanOver(requests, w, f, infol, reply);
          has := has - {f};
          f := f + 1;
        }
      }
      assert Upto(w, f) == w;
      forall n: nat
        ensures Passed(requests, n) <==> JustAbove(w, n)
      {
        PassedIff(requests, w, n);
      }
    }
  }

  /** The server lists 1 alone, 3 is here: once the window 1..3 is up to date 3 is still here. */
  method WithdrawnStays() returns (left: set<nat>)
    ensures left == {1, 3}
  {
    hide Clusters, Answered;
    var reply := (r: Range) => if r.f <= 1 <= r.l then {1} else {};
    var g := new CNewsgroup({3});
    g.SUpdateOverview(1, 3, {1}, reply);
    ghost var w := Wanted({1}, {3}, 1, 3);
    assert 1 in w && JustAbove(w, 3);
    AllListed(g.requests, {1}, {3}, g.has, 1, 3, reply, 1);
    assert !Answered(g.requests, reply, 2) by { OnlyOne(g.requests, reply, 2); }
    left := g.has;
  }

  lemma OnlyOne(rs: seq<Range>, reply: Range -> set<nat>, n: nat)
    requires n != 1 && forall r :: reply(r) <= {1}
    ensures !Answered(rs, reply, n)
  {
  }

  /** The state of the scan at number p. */
  ghost predicate Scanned(rs: seq<Range>, w: set<nat>, p: nat, infol: nat) {
    Clusters(rs, Upto(w, p)) && (p <= infol ==> forall k :: 0 <= k < |rs| ==> rs[k].l + GAP <= p)
  }

  lemma DenseNext(w: set<nat>, f: nat, l: nat, i: nat)
    requires Dense(w, f, l) && f <= l < i < l + GAP && i in w && forall n: nat :: l < n < i ==> n !in w
    ensures Dense(w, f, i)
  {
    hide Dense;
    forall x: nat | x in w && f <= x < i
      ensures Near(w, x, i)
    {
      if x < l {
        NearAt(w, f, l, x);
      } else {
        assert x == l;
      }
    }
    DenseIs(w, f, i);
  }

  lemma DenseIs(w: set<nat>, f: nat, l: nat)
    requires forall x: nat :: x in w && f <= x < l ==> Near(w, x, l)
    ensures Dense(w, f, l)
  {
    hide Near;
  }

  lemma ClustersNone(w: set<nat>, reply: Range -> set<nat>)
    requires forall n :: n in w ==> false
    ensures Clusters([], w)
  {
  }

  lemma ScanOver(rs: seq<Range>, w: set<nat>, p: nat, infol: nat, reply: Range -> set<nat>)
    requires Scanned(rs, w, p, infol) && p !in w && p <= infol && Proper(reply)
    ensures Scanned(rs, w, p + 1, infol) && !Passed(rs, p) && !Answered(rs, reply, p)
  {
    assert Upto(w, p + 1) == Upto(w, p);
    forall k | 0 <= k < |rs|
      ensures !(p in reply(rs[k]))
    {
      assert p in reply(rs[k]) ==> Within(rs[k], p);
    }
  }

  lemma ScanBatch(rs: seq<Range>, w: set<nat>, p: nat, l: nat, i: nat, infol: nat, reply: Range -> set<nat>)
    requires Scanned(rs, w, p, infol) && p in w && p <= l <= infol && l in w && Dense(w, p, l) && Proper(reply)
    requires i == (if l + GAP <= infol then l + GAP else infol + 1) && forall n: nat :: l < n < i ==> n !in w
    ensures Scanned(rs + [Range(p, l)], w, i, infol)
    ensures forall n: nat :: n < p ==> (Passed(rs + [Range(p, l)], n) <==> Passed(rs, n))
    ensures forall n: nat :: n < p ==> (Answered(rs + [Range(p, l)], reply, n) <==> Answered(rs, reply, n))
    ensures forall n: nat :: p <= n < i ==> Passed(rs + [Range(p, l)], n)
    ensures forall n: nat :: p <= n < i ==> (Answered(rs + [Range(p, l)], reply, n) <==> n in reply(Range(p, l)))
  {
    var all, r := rs + [Range(p, l)], Range(p, l);
    assert all[|rs|] == r;
    BatchClusters(rs, w, p, l, i, infol);
    forall n: nat
      ensures n < p ==> (Passed(all, n) <==> Passed(rs, n)) && (Answered(all, reply, n) <==> Answered(rs, reply, n))
      ensures p <= n < i ==> Passed(all, n) && (Answered(all, reply, n) <==> n in reply(r))
    {
      BatchNumber(rs, w, p, l, i, infol, reply, n);
    }
  }

  lemma BatchNumber(rs: seq<Range>, w: set<nat>, p: nat, l: nat, i: nat, infol: nat, reply: Range -> set<nat>, n: nat)
    requires Scanned(rs, w, p, infol) && p <= l <= infol && Proper(reply)
    requires i == (if l + GAP <= infol then l + GAP else infol + 1)
    ensures var all := rs + [Range(p, l)];
      && (n < p ==> (Passed(all, n) <==> Passed(rs, n)) && (Answered(all, reply, n) <==> Answered(rs, reply, n)))
      && (p <= n < i ==> Passed(all, n) && (Answered(all, reply, n) <==> n in reply(Range(p, l))))
  {
    hide Clusters;
    var all, r := rs + [Range(p, l)], Range(p, l);
    assert all[|rs|] == r;
    assert forall k :: 0 <= k < |rs| ==> all[k] == rs[k];
    assert n in reply(r) ==> Within(r, n);
    forall k | 0 <= k < |rs|
      ensures n in reply(rs[k]) ==> n < p
    {
      assert n in reply(rs[k]) ==> Within(rs[k], n);
    }
  }

  lemma BatchClusters(rs: seq<Range>, w: set<nat>, p: nat, l: nat, i: nat, infol: nat)
    requires Scanned(rs, w, p, infol) && p in w && p <= l <= infol && l in w && Dense(w, p, l)
    requires i == (if l + GAP <= infol then l + GAP else infol + 1) && forall n: nat :: l < n < i ==> n !in w
    ensures Scanned(rs + [Range(p, l)], w, i, infol)
  {
    hide Clusters, Tight, Covered, Dense;
    var all, v := rs + [Range(p, l)], Upto(w, i);
    TightIs(w, p, l);
    forall k | 0 <= k < |all|
      ensures Tight(all[k], v)
    {
      if k < |rs| {
        TightAt(rs, Upto(w, p), k);
        TightIn(Upto(w, p), rs[k]);
        DenseUpto(Upto(w, p), v, rs[k]);
      } else {
        DenseUpto(w, v, Range(p, l));
      }
    }
    forall n | n in v
      ensures Covered(all, n)
    {
      CoveredMore(rs, Upto(w, p), Range(p, l), n);
    }
    SpreadMore(rs, Upto(w, p), Range(p, l));
    ClustersAre(all, v);
  }

  lemma TightIs(w: set<nat>, p: nat, l: nat)
    requires p <= l && p in w && l in w && Dense(w, p, l)
    ensures Tight(Range(p, l), w)
  {
    hide Dense;
  }

  lemma TightIn(w: set<nat>, r: Range)
    requires Tight(r, w)
    ensures r.f <= r.l && r.f in w && r.l in w
  {
    hide Dense;
  }

  lemma CoveredMore(rs: seq<Range>, u: set<nat>, r: Range, n: nat)
    requires Clusters(rs, u) && (n in u || Within(r, n))
    ensures Covered(rs + [r], n)
  {
    hide Tight, Spread;
    if n in u {
      var k :| 0 <= k < |rs| && Within(rs[k], n);
      assert Within((rs + [r])[k], n);
    } else {
      assert Within((rs + [r])[|rs|], n);
    }
  }

  lemma SpreadMore(rs: seq<Range>, u: set<nat>, r: Range)
    requires Clusters(rs, u) && forall k :: 0 <= k < |rs| ==> rs[k].l + GAP <= r.f
    ensures Spread(rs + [r])
  {
    hide Tight, Covered;
  }

  lemma DenseUpto(u: set<nat>, v: set<nat>, r: Range)
    requires Tight(r, u) && forall n :: r.f <= n <= r.l && n in u ==> n in v
    requires forall n :: r.f <= n <= r.l && n in v ==> n in u
    ensures Tight(r, v)
  {
    hide Dense;
    forall x: nat | x in v && r.f <= x < r.l
      ensures Near(v, x, r.l)
    {
      NearAt(u, r.f, r.l, x);
      var y: nat :| y in u && x < y < x + GAP && y <= r.l;
      assert y in v;
    }
    DenseIs(v, r.f, r.l);
  }

  /** With a server that answers its ranges, every listed number ends with a record. */
  lemma AllListed(rs: seq<Range>, listed: set<nat>, h: set<nat>, has: set<nat>, infof: nat, infol: nat,
                  reply: Range -> set<nat>, n: nat)
    requires Clusters(rs, Wanted(listed, h, infof, infol))
    requires forall n: nat :: infof <= n <= infol ==>
      (n in has <==>
        (n in h && (n in listed || JustAbove(Wanted(listed, h, infof, infol), n))) || Answered(rs, reply, n))
    requires forall r: Range, m: nat :: Within(r, m) && m in listed ==> m in reply(r)
    requires infof <= n <= infol && n in listed
    ensures n in has
  {
    if n !in h {
      assert n in Wanted(listed, h, infof, infol);
      var k :| 0 <= k < |rs| && Within(rs[k], n);
      assert n in reply(rs[k]);
    }
  }

  /** Every request lies in the window, and asks for at least what it starts and ends with. */
  lemma InWindow(rs: seq<Range>, listed: set<nat>, h: set<nat>, infof: nat, infol: nat, k: nat)
    requires Clusters(rs, Wanted(listed, h, infof, infol)) && k < |rs|
    ensures infof <= rs[k].f <= rs[k].l <= infol && rs[k].f in listed - h && rs[k].l in listed - h
  {
    assert Tight(rs[k], Wanted(listed, h, infof, infol));
  }
}
