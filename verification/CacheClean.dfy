/** Eviction from the spool directory: src/NewsCacheClean.cc. A walk collects the databases and
    the spilled articles with a time each, and the least recently used ones are unlinked. */
module CacheClean {
  import opened Wrappers

  /** A .db or .art file: its access and modification times and its size. */
  datatype File = File(atime: int, mtime: int, blocks: nat)

  /** A spilled article; nr is what sscanf finds after ".art". */
  datatype Art = Art(file: File, nr: Option<int>)

  /** A spool directory. fst and lst: the window of its database, empty if it cannot be opened. */
  datatype Dir = Dir(name: string, db: Option<File>, fst: int, lst: int, subs: seq<Dir>, arts: seq<Art>)

  datatype Entry = Entry(path: seq<string>, isDb: bool, atime: int, blocks: nat)

  function Max(a: int, b: int): int {
    if a > b then a else b
  }

  // ----- the walk -----

  /** dbatime as the articles see it: one less than the time of the .db, 0 without one. */
  function DbTime(d: Dir): int {
    match d.db
    case None => 0
    case Some(f) => Max(f.atime, f.mtime) - 1
  }

  function DbEntries(d: Dir, path: seq<string>): seq<Entry> {
    match d.db
    case None => []
    case Some(f) => [Entry(path, true, Max(f.atime, f.mtime), f.blocks)]
  }

  /** An article is never younger than its database, and an outdated one is the oldest of all. */
  function ArtEntry(d: Dir, path: seq<string>, a: Art): Entry {
    var at := Max(a.file.atime, a.file.mtime);
    var seen := if DbTime(d) <= at then DbTime(d) else at;
    Entry(path, false, if Outside(d, a) then 0 else seen, a.file.blocks)
  }

  function ArtEntries(d: Dir, path: seq<string>, arts: seq<Art>): seq<Entry> {
    if arts == [] || DbTime(d) == 0 then []
    else ArtEntries(d, path, arts[..|arts| - 1]) + [ArtEntry(d, path, arts[|arts| - 1])]
  }

  function Entries(d: Dir, path: seq<string>): seq<Entry>
    decreases d, 1
  {
    DbEntries(d, path) + SubEntries(d, path, |d.subs|) + ArtEntries(d, path, d.arts)
  }

  function SubEntries(d: Dir, path: seq<string>, n: nat): seq<Entry>
    requires n <= |d.subs|
    decreases d, 0, n
  {
    if n == 0 then [] else SubEntries(d, path, n - 1) + Entries(d.subs[n - 1], path + [d.subs[n - 1].name])
  }

  function Sum(es: seq<Entry>): nat {
    if es == [] then 0 else Sum(es[..|es| - 1]) + es[|es| - 1].blocks
  }

  lemma {:induction false} SumAppend(a: seq<Entry>, b: seq<Entry>)
    ensures Sum(a + b) == Sum(a) + Sum(b)
  {
    if b == [] {
      assert a + b == a;
    } else {
      assert (a + b)[..|a + b| - 1] == a + b[..|b| - 1];
      SumAppend(a, b[..|b| - 1]);
    }
  }

  /** A file system has no two directories of one name in a directory. */
  predicate Tree(d: Dir) {
    && (forall i, j :: 0 <= i < j < |d.subs| ==> d.subs[i].name != d.subs[j].name)
    && (forall s :: s in d.subs ==> Tree(s))
  }

  /** No file is from before the first second of time, and no database from that very second. */
  predicate Sound(d: Dir) {
    && (d.db.Some? ==> Max(d.db.value.atime, d.db.value.mtime) >= 1)
    && (forall a :: a in d.arts ==> Max(a.file.atime, a.file.mtime) >= 0)
    && (forall s :: s in d.subs ==> Sound(s))
  }

  predicate Outside(d: Dir, a: Art) {
    a.nr.Some? && (a.nr.value < d.fst || a.nr.value > d.lst)
  }

  /** Some directory has a database from the first second of time beside an article that is not
      outside its window. */
  predicate ZeroDb(d: Dir) {
    || (d.db.Some? && Max(d.db.value.atime, d.db.value.mtime) == 0 && exists a :: a in d.arts && !Outside(d, a))
    || exists s :: s in d.subs && ZeroDb(s)
  }

  /** Some directory has a database from the next second beside an article. */
  predicate OneDb(d: Dir) {
    || (d.db.Some? && Max(d.db.value.atime, d.db.value.mtime) == 1 && d.arts != [])
    || exists s :: s in d.subs && OneDb(s)
  }

  /** The directory at p has a database beside articles, none of which the walk lists. */
  predicate Unseen(d: Dir, path: seq<string>, p: seq<string>) {
    || (p == path && d.db.Some? && d.arts != [] && ArtEntries(d, path, d.arts) == [])
    || exists s :: s in d.subs && Unseen(s, path + [s.name], p)
  }

  predicate Under(e: Entry, path: seq<string>) {
    path <= e.path
  }

  lemma {:induction false} EntriesUnder(d: Dir, path: seq<string>)
    ensures forall e :: e in Entries(d, path) ==> Under(e, path)
    decreases d, 1
  {
    SubsUnder(d, path, |d.subs|);
    ArtsUnder(d, path, d.arts);
  }

  lemma {:induction false} SubsUnder(d: Dir, path: seq<string>, n: nat)
    requires n <= |d.subs|
    ensures forall e :: e in SubEntries(d, path, n) ==>
      && Under(e, path)
      && exists i :: 0 <= i < n && Under(e, path + [d.subs[i].name]) && e in Entries(d.subs[i], path + [d.subs[i].name])
    decreases d, 0, n
  {
    if n > 0 {
      SubsUnder(d, path, n - 1);
      EntriesUnder(d.subs[n - 1], path + [d.subs[n - 1].name]);
    }
  }

  lemma {:induction false} ArtsUnder(d: Dir, path: seq<string>, arts: seq<Art>)
    ensures forall e :: e in ArtEntries(d, path, arts) ==>
      e.path == path && !e.isDb && d.db.Some? && exists a :: a in arts && e == ArtEntry(d, path, a)
  {
    if arts != [] && DbTime(d) != 0 {
      ArtsUnder(d, path, arts[..|arts| - 1]);
      assert arts == arts[..|arts| - 1] + [arts[|arts| - 1]];
    }
  }

  /** An entry is the database here, below here, or an article here. */
  lemma EntryCases(d: Dir, path: seq<string>, e: Entry)
    requires e in Entries(d, path)
    ensures e in DbEntries(d, path) || e in SubEntries(d, path, |d.subs|) || e in ArtEntries(d, path, d.arts)
  {
  }

  lemma SubOf(d: Dir, path: seq<string>, e: Entry) returns (i: nat)
    requires e in SubEntries(d, path, |d.subs|)
    ensures i < |d.subs| && e in Entries(d.subs[i], path + [d.subs[i].name])
    ensures |path| < |e.path| && e.path[|path|] == d.subs[i].name
  {
    SubsUnder(d, path, |d.subs|);
    i :| 0 <= i < |d.subs| && Under(e, path + [d.subs[i].name]) && e in Entries(d.subs[i], path + [d.subs[i].name]);
    assert (path + [d.subs[i].name])[|path|] == d.subs[i].name;
  }

  /** In the whole spool, every article that is not outdated is strictly older than the database
      beside it, and only a database from the first second of time is outdated as well. */
  lemma {:induction false} ArtsOlder(d: Dir, path: seq<string>, art: Entry, db: Entry)
    requires Tree(d) && art in Entries(d, path) && db in Entries(d, path)
    requires !art.isDb && db.isDb && art.path == db.path
    ensures art.atime == 0 || art.atime < db.atime
    ensures art.atime != 0 && db.atime == 0 ==> ZeroDb(d)
    ensures Sound(d) ==> art.atime < db.atime
    decreases d
  {
    EntryCases(d, path, art);
    EntryCases(d, path, db);
    ArtsUnder(d, path, d.arts);
    if art in SubEntries(d, path, |d.subs|) {
      var i := SubOf(d, path, art);
      assert db !in DbEntries(d, path);
      var j := SubOf(d, path, db);
      assert i == j;
      assert d.subs[i] in d.subs;
      ArtsOlder(d.subs[i], path + [d.subs[i].name], art, db);
    } else {
      ArtHere(d, path, art, db);
    }
  }

  lemma ArtHere(d: Dir, path: seq<string>, art: Entry, db: Entry)
    requires art in ArtEntries(d, path, d.arts) && db in Entries(d, path)
    requires db.isDb && art.path == db.path
    ensures art.atime == 0 || art.atime < db.atime
    ensures art.atime != 0 && db.atime == 0 ==> ZeroDb(d)
    ensures Sound(d) ==> art.atime < db.atime
  {
    ArtsUnder(d, path, d.arts);
    EntryCases(d, path, db);
    if db in SubEntries(d, path, |d.subs|) {
      var j := SubOf(d, path, db);
    }
  }

  lemma {:induction false} TimesNotNegative(d: Dir, path: seq<string>)
    requires Sound(d)
    ensures forall e :: e in Entries(d, path) ==> e.atime >= 0
    decreases d
  {
    forall e | e in Entries(d, path)
      ensures e.atime >= 0
    {
      EntryCases(d, path, e);
      if e in SubEntries(d, path, |d.subs|) {
        var i := SubOf(d, path, e);
        assert d.subs[i] in d.subs;
        TimesNotNegative(d.subs[i], path + [d.subs[i].name]);
      }
      ArtsUnder(d, path, d.arts);
    }
  }

  // ----- what the walk is for: when each file was last used -----

  predicate LastUse(f: File, t: int) {
    f.atime <= t && f.mtime <= t && (t == f.atime || t == f.mtime)
  }

  /** x is the directory at p, in the tree d whose root is at path. */
  predicate DirAt(d: Dir, path: seq<string>, p: seq<string>, x: Dir) {
    || (p == path && x == d)
    || exists s :: s in d.subs && DirAt(s, path + [s.name], p, x)
  }

  /** The walk lists the articles of x. */
  predicate Lists(x: Dir) {
    x.db.Some? && !LastUse(x.db.value, 1)
  }

  predicate InWindow(x: Dir, a: Art) {
    a.nr.Some? ==> x.fst <= a.nr.value <= x.lst
  }

  /** An article of the window counts as last used when it was, but at least a second before its
      newsgroup; one that has left the window counts as never used. */
  ghost predicate UsedAt(x: Dir, a: Art, t: int)
    requires x.db.Some?
  {
    if !InWindow(x, a) then t == 0
    else
      exists own, db :: LastUse(a.file, own) && LastUse(x.db.value, db)
        && t <= own && t <= db - 1 && (t == own || t == db - 1)
  }

  /** e stands for the article a of the directory x. */
  ghost predicate ArtOf(e: Entry, x: Dir, a: Art)
    requires x.db.Some?
  {
    a in x.arts && !e.isDb && e.blocks == a.file.blocks && UsedAt(x, a, e.atime)
  }

  ghost predicate DbOf(e: Entry, x: Dir)
    requires x.db.Some?
  {
    e.isDb && e.blocks == x.db.value.blocks && LastUse(x.db.value, e.atime)
  }

  lemma ArtEntryIs(d: Dir, path: seq<string>, a: Art)
    requires Lists(d) && a in d.arts
    ensures ArtOf(ArtEntry(d, path, a), d, a)
  {
    var own, db := Max(a.file.atime, a.file.mtime), Max(d.db.value.atime, d.db.value.mtime);
    assert LastUse(a.file, own) && LastUse(d.db.value, db);
  }

  lemma ListsIs(d: Dir)
    ensures Lists(d) <==> DbTime(d) != 0
  {
  }

  /** Every database is listed with its last use. */
  lemma {:induction false} EveryDb(d: Dir, path: seq<string>, p: seq<string>, x: Dir) returns (e: Entry)
    requires DirAt(d, path, p, x) && x.db.Some?
    ensures e in Entries(d, path) && e.path == p && DbOf(e, x)
    decreases d
  {
    if p == path && x == d {
      e := DbEntries(d, path)[0];
    } else {
      var s :| s in d.subs && DirAt(s, path + [s.name], p, x);
      e := EveryDb(s, path + [s.name], p, x);
      var i :| 0 <= i < |d.subs| && d.subs[i] == s;
      SubIn(d, path, |d.subs|, i, e);
    }
  }

  /** Every article beside a database, of any time but 1, is listed with the time it counts for. */
  lemma {:induction false} EveryArticle(d: Dir, path: seq<string>, p: seq<string>, x: Dir, a: Art) returns (e: Entry)
    requires DirAt(d, path, p, x) && Lists(x) && a in x.arts
    ensures e in Entries(d, path) && e.path == p && ArtOf(e, x, a)
    decreases d
  {
    hide UsedAt;
    if p == path && x == d {
      ListsIs(d);
      ArtIn(d, path, d.arts, a);
      ArtEntryIs(d, path, a);
      e := ArtEntry(d, path, a);
    } else {
      var s :| s in d.subs && DirAt(s, path + [s.name], p, x);
      e := EveryArticle(s, path + [s.name], p, x, a);
      var i :| 0 <= i < |d.subs| && d.subs[i] == s;
      SubIn(d, path, |d.subs|, i, e);
    }
  }

  /** Nothing else is listed. */
  lemma {:induction false} EveryEntry(d: Dir, path: seq<string>, e: Entry) returns (x: Dir)
    requires e in Entries(d, path)
    ensures DirAt(d, path, e.path, x) && x.db.Some?
    ensures if e.isDb then DbOf(e, x) else Lists(x) && exists a :: ArtOf(e, x, a)
    decreases d
  {
    hide UsedAt;
    EntryCases(d, path, e);
    if e in SubEntries(d, path, |d.subs|) {
      var i := SubOf(d, path, e);
      x := EveryEntry(d.subs[i], path + [d.subs[i].name], e);
      assert d.subs[i] in d.subs;
    } else {
      x := d;
      if e in ArtEntries(d, path, d.arts) {
        ArtsUnder(d, path, d.arts);
        ListsIs(d);
        var a :| a in d.arts && e == ArtEntry(d, path, a);
        ArtEntryIs(d, path, a);
      }
    }
  }

  /** How many files there are to list. */
  function Files(d: Dir): nat
    decreases d, 1
  {
    (if d.db.Some? then 1 else 0) + SubFiles(d, |d.subs|) + if Lists(d) then |d.arts| else 0
  }

  function SubFiles(d: Dir, n: nat): nat
    requires n <= |d.subs|
    decreases d, 0, n
  {
    if n == 0 then 0 else SubFiles(d, n - 1) + Files(d.subs[n - 1])
  }

  /** And no file is listed twice. */
  lemma {:induction false} ListedOnce(d: Dir, path: seq<string>)
    ensures |Entries(d, path)| == Files(d)
    decreases d, 1
  {
    ListsIs(d);
    SubsOnce(d, path, |d.subs|);
    ArtsOnce(d, path, d.arts);
  }

  lemma {:induction false} SubsOnce(d: Dir, path: seq<string>, n: nat)
    requires n <= |d.subs|
    ensures |SubEntries(d, path, n)| == SubFiles(d, n)
    decreases d, 0, n
  {
    if n > 0 {
      SubsOnce(d, path, n - 1);
      ListedOnce(d.subs[n - 1], path + [d.subs[n - 1].name]);
    }
  }

  lemma {:induction false} ArtsOnce(d: Dir, path: seq<string>, arts: seq<Art>)
    ensures |ArtEntries(d, path, arts)| == if DbTime(d) == 0 then 0 else |arts|
  {
    if arts != [] && DbTime(d) != 0 {
      ArtsOnce(d, path, arts[..|arts| - 1]);
    }
  }

  /** Least recently used goes first: of two articles of one newsgroup the one used less recently
      never counts as used later. */
  lemma LessRecent(x: Dir, a: Art, b: Art, t: int, u: int)
    requires x.db.Some? && InWindow(x, a) && InWindow(x, b) && UsedAt(x, a, t) && UsedAt(x, b, u)
    requires exists own, other :: LastUse(a.file, own) && LastUse(b.file, other) && own <= other
    ensures t <= u
  {
  }

  // ----- what is removed -----

  predicate Sorted(v: seq<Entry>) {
    forall i, j :: 0 <= i < j < |v| ==> v[i].atime <= v[j].atime
  }

  /** How many entries of a sorted list go: the outdated ones, and then as many as it takes. */
  function Evicted(v: seq<Entry>, max: int): (k: nat)
    ensures k <= |v|
    decreases |v|
  {
    if v == [] || (v[0].atime != 0 && Sum(v) <= max) then 0 else 1 + Evicted(v[1..], max)
  }

  lemma SumFirst(v: seq<Entry>)
    requires v != []
    ensures Sum(v) == v[0].blocks + Sum(v[1..])
  {
    SumAppend([v[0]], v[1..]);
    assert v == [v[0]] + v[1..];
    assert Sum([v[0]]) == Sum([]) + v[0].blocks;
  }

  /** What is left of a list, sorted or not, when its files take up `total`. */
  function Survivors(v: seq<Entry>, total: int, max: int, unlink: Entry -> bool): seq<Entry> {
    if v == [] then []
    else if (v[0].atime != 0 && total <= max) || !unlink(v[0]) then [v[0]] + Survivors(v[1..], total, max, unlink)
    else Survivors(v[1..], total - v[0].blocks, max, unlink)
  }

  /** Whatever the order and the times, what can be unlinked and is outdated goes, and what is left
      fits unless it could not be unlinked. */
  lemma {:induction false} SurvivorsFit(v: seq<Entry>, max: int, unlink: Entry -> bool, kept: nat)
    ensures var left := Survivors(v, kept + Sum(v), max, unlink);
      && (forall e :: e in left ==> e in v && (e.atime != 0 || !unlink(e)))
      && (forall e :: e in v && !unlink(e) ==> e in left)
      && (kept + Sum(left) <= max || forall e :: e in left ==> !unlink(e))
    decreases |v|
  {
    hide Sum;
    if v != [] {
      SumFirst(v);
      var first, rest := v[0], v[1..];
      var total := kept + Sum(v);
      assert v == [first] + rest;
      if (first.atime != 0 && total <= max) || !unlink(first) {
        SurvivorsFit(rest, max, unlink, kept + first.blocks);
        var left := Survivors(rest, total, max, unlink);
        SumFirst([first] + left);
        assert ([first] + left)[1..] == left;
        SurvivorsLess(rest, total, max, unlink);
      } else {
        SurvivorsFit(rest, max, unlink, kept);
      }
    }
  }

  lemma {:induction false} SurvivorsLess(v: seq<Entry>, total: int, max: int, unlink: Entry -> bool)
    ensures Sum(Survivors(v, total, max, unlink)) <= Sum(v)
    decreases |v|
  {
    hide Sum;
    if v != [] {
      SumFirst(v);
      SurvivorsLess(v[1..], total, max, unlink);
      SurvivorsLess(v[1..], total - v[0].blocks, max, unlink);
      if (v[0].atime != 0 && total <= max) || !unlink(v[0]) {
        var left := Survivors(v[1..], total, max, unlink);
        SumFirst([v[0]] + left);
        assert ([v[0]] + left)[1..] == left;
      }
    }
  }

  /** Of a sorted list of files that can all be unlinked a beginning goes. */
  lemma {:induction false} SurvivorsSuffix(v: seq<Entry>, max: int, unlink: Entry -> bool)
    requires Sorted(v) && forall e :: e in v ==> e.atime >= 0 && unlink(e)
    ensures Survivors(v, Sum(v), max, unlink) == v[Evicted(v, max)..]
    decreases |v|
  {
    hide Sum, Sorted, Evicted, Survivors;
    EvictedStep(v, max);
    SurvivorsStep(v, Sum(v), max, unlink);
    if v != [] {
      SumFirst(v);
      SortedRest(v);
      if v[0].atime != 0 && Sum(v) <= max {
        AllStay(v, Sum(v), max, unlink);
      } else {
        var rest := v[1..];
        SurvivorsSuffix(rest, max, unlink);
        assert rest[Evicted(rest, max)..] == v[1 + Evicted(rest, max)..];
      }
    }
  }

  lemma EvictedStep(v: seq<Entry>, max: int)
    ensures Evicted(v, max) == if v == [] || (v[0].atime != 0 && Sum(v) <= max) then 0 else 1 + Evicted(v[1..], max)
  {
    hide Sum;
  }

  lemma SurvivorsStep(v: seq<Entry>, total: int, max: int, unlink: Entry -> bool)
    requires forall e :: e in v ==> unlink(e)
    ensures v == [] ==> Survivors(v, total, max, unlink) == []
    ensures v != [] && !(v[0].atime != 0 && total <= max) ==>
      Survivors(v, total, max, unlink) == Survivors(v[1..], total - v[0].blocks, max, unlink)
  {
  }

  /** Behind a file that is not outdated there is none. */
  lemma SortedRest(v: seq<Entry>)
    requires Sorted(v) && v != [] && forall e :: e in v ==> e.atime >= 0
    ensures Sorted(v[1..]) && forall e :: e in v[1..] ==> e in v
    ensures v[0].atime != 0 ==> forall i :: 0 <= i < |v| ==> v[i].atime != 0
  {
    assert v[0] in v;
  }

  lemma {:induction false} AllStay(v: seq<Entry>, total: int, max: int, unlink: Entry -> bool)
    requires total <= max && forall i :: 0 <= i < |v| ==> v[i].atime != 0
    ensures Survivors(v, total, max, unlink) == v
    decreases |v|
  {
    if v != [] {
      AllStay(v[1..], total, max, unlink);
      assert v == [v[0]] + v[1..];
    }
  }

  /** Exactly the least number: every outdated entry goes; what is left fits or is nothing; and
      one eviction less would leave too much or an outdated entry. */
  lemma {:induction false} EvictedLeast(v: seq<Entry>, max: int)
    requires Sorted(v) && forall e :: e in v ==> e.atime >= 0
    ensures var k := Evicted(v, max);
      && (forall i :: k <= i < |v| ==> v[i].atime != 0)
      && (k == |v| || Sum(v[k..]) <= max)
      && (forall j :: 0 <= j < k ==> v[j].atime == 0 || Sum(v[j..]) > max)
    decreases |v|
  {
    hide Sum;
    if v != [] {
      if v[0].atime != 0 && Sum(v) <= max {
        assert v[0..] == v;
        forall i | 0 <= i < |v|
          ensures v[i].atime != 0
        {
          assert v[0] in v && v[i] in v;
        }
      } else {
        var rest, k := v[1..], Evicted(v[1..], max);
        EvictedLeast(rest, max);
        assert rest[k..] == v[k + 1..];
        forall j | 0 <= j < k + 1
          ensures v[j].atime == 0 || Sum(v[j..]) > max
        {
          if j == 0 {
            assert v[0..] == v;
          } else {
            assert rest[j - 1..] == v[j..];
            assert rest[j - 1] == v[j];
          }
        }
        forall i | k + 1 <= i < |v|
          ensures v[i].atime != 0
        {
          assert rest[i - 1] == v[i];
        }
      }
    }
  }

  // ----- databases and the articles beside them -----

  function Removable(): Entry -> bool {
    (e: Entry) => true
  }

  /** No article is left without the database that was beside it, be it on the list or not: what is
      not listed stays. */
  ghost predicate NoOrphan(d: Dir, left: seq<Entry>, v: seq<Entry>) {
    && (forall art, db :: art in left && !art.isDb && db in v && db.isDb && db.path == art.path ==> db in left)
    && (forall db :: db in v && db.isDb && Unseen(d, [], db.path) ==> db in left)
  }

  /** Whatever the limit and the order of equal times. */
  ghost predicate NeverOrphans(d: Dir) {
    forall v: seq<Entry>, max: int :: Sorted(v) && multiset(v) == multiset(Entries(d, [])) ==>
      NoOrphan(d, Survivors(v, Sum(v), max, Removable()), v)
  }

  /** Once the rest fits, what is not outdated stays. */
  lemma {:induction false} FitsStays(v: seq<Entry>, total: int, max: int, e: Entry)
    requires total <= max && e in v && e.atime != 0
    ensures e in Survivors(v, total, max, Removable())
    decreases |v|
  {
    if e != v[0] {
      assert e in v[1..];
      FitsStays(v[1..], if v[0].atime != 0 then total else total - v[0].blocks, max, e);
    }
  }

  /** What is younger than a survivor survives, unless it is outdated. */
  lemma {:induction false} YoungerStays(v: seq<Entry>, total: int, max: int, a: Entry, b: Entry)
    requires Sorted(v) && a in Survivors(v, total, max, Removable())
    requires b in v && a.atime < b.atime && b.atime != 0
    ensures b in Survivors(v, total, max, Removable())
    decreases |v|
  {
    if v[0].atime != 0 && total <= max {
      FitsStays(v, total, max, b);
    } else {
      SurvivorsIn(v[1..], total - v[0].blocks, max, a);
      assert b != v[0];
      assert b in v[1..];
      YoungerStays(v[1..], total - v[0].blocks, max, a, b);
    }
  }

  lemma {:induction false} SurvivorsIn(v: seq<Entry>, total: int, max: int, e: Entry)
    requires e in Survivors(v, total, max, Removable())
    ensures e in v
    ensures e.atime != 0
    decreases |v|
  {
    if v[0].atime != 0 && total <= max {
      if e != v[0] {
        SurvivorsIn(v[1..], total, max, e);
      }
    } else {
      SurvivorsIn(v[1..], total - v[0].blocks, max, e);
    }
  }

  /** The cleaner never leaves an article without its database exactly when no database from the
      first second of time lies beside an article of its window, and none from the next second beside
      any article. */
  lemma DbOutlivesArts(d: Dir)
    requires Tree(d)
    ensures NeverOrphans(d) <==> !ZeroDb(d) && !OneDb(d)
  {
    hide Tree, ZeroDb, OneDb, Unseen, Entries, Survivors, Sorted, Sum;
    if OneDb(d) {
      var db := OneEntry(d, []);
      var v := SortedCopy(Entries(d, []));
      assert db in multiset(v);
      assert !NoOrphan(d, Survivors(v, Sum(v), -1, Removable()), v) by {
        SurvivorsFit(v, -1, Removable(), 0);
      }
    } else if ZeroDb(d) {
      var art, db := ZeroEntries(d, []);
      var v := SortedCopy(Entries(d, []));
      assert art in multiset(v) && db in multiset(v);
      FitsStays(v, Sum(v), Sum(v), art);
      assert !NoOrphan(d, Survivors(v, Sum(v), Sum(v), Removable()), v) by {
        if db in Survivors(v, Sum(v), Sum(v), Removable()) {
          SurvivorsIn(v, Sum(v), Sum(v), db);
        }
      }
    } else {
      forall v: seq<Entry>, max: int | Sorted(v) && multiset(v) == multiset(Entries(d, []))
        ensures NoOrphan(d, Survivors(v, Sum(v), max, Removable()), v)
      {
        KeepsDb(d, v, max);
      }
    }
  }

  lemma KeepsDb(d: Dir, v: seq<Entry>, max: int)
    requires Tree(d) && !ZeroDb(d) && !OneDb(d) && Sorted(v) && multiset(v) == multiset(Entries(d, []))
    ensures NoOrphan(d, Survivors(v, Sum(v), max, Removable()), v)
  {
    hide Tree, ZeroDb, OneDb, Unseen, Entries, Survivors, Sorted, Sum;
    var left := Survivors(v, Sum(v), max, Removable());
    forall art, db | art in left && !art.isDb && db in v && db.isDb && db.path == art.path
      ensures db in left
    {
      SurvivorsIn(v, Sum(v), max, art);
      assert art in multiset(v) && db in multiset(v);
      ArtsOlder(d, [], art, db);
      YoungerStays(v, Sum(v), max, art, db);
    }
    forall db | db in v && db.isDb
      ensures !Unseen(d, [], db.path)
    {
      UnseenIsOne(d, [], db.path);
    }
  }

  lemma {:induction false} UnseenIsOne(d: Dir, path: seq<string>, p: seq<string>)
    ensures Unseen(d, path, p) ==> OneDb(d)
    decreases d
  {
    if exists s :: s in d.subs && Unseen(s, path + [s.name], p) {
      var s :| s in d.subs && Unseen(s, path + [s.name], p);
      UnseenIsOne(s, path + [s.name], p);
    } else if d.arts != [] {
      NoneListed(d, path);
    }
  }

  /** The walk lists no article of a directory exactly for want of a time to give it. */
  lemma NoneListed(d: Dir, path: seq<string>)
    requires d.arts != []
    ensures ArtEntries(d, path, d.arts) == [] <==> DbTime(d) == 0
  {
  }

  lemma {:induction false} OneEntry(d: Dir, path: seq<string>) returns (db: Entry)
    requires OneDb(d)
    ensures db in Entries(d, path) && db.isDb && Unseen(d, path, db.path)
    decreases d
  {
    if d.db.Some? && Max(d.db.value.atime, d.db.value.mtime) == 1 && d.arts != [] {
      db := Entry(path, true, 1, d.db.value.blocks);
      assert DbEntries(d, path)[0] == db;
      NoneListed(d, path);
    } else {
      var s :| s in d.subs && OneDb(s);
      var i :| 0 <= i < |d.subs| && d.subs[i] == s;
      db := OneEntry(s, path + [s.name]);
      SubIn(d, path, |d.subs|, i, db);
    }
  }

  lemma {:induction false} ZeroEntries(d: Dir, path: seq<string>) returns (art: Entry, db: Entry)
    requires ZeroDb(d)
    ensures art in Entries(d, path) && db in Entries(d, path) && art.path == db.path
    ensures !art.isDb && db.isDb && art.atime != 0 && db.atime == 0
    decreases d
  {
    if d.db.Some? && Max(d.db.value.atime, d.db.value.mtime) == 0 && exists a :: a in d.arts && !Outside(d, a) {
      var a :| a in d.arts && !Outside(d, a);
      art, db := ArtEntry(d, path, a), Entry(path, true, 0, d.db.value.blocks);
      ArtIn(d, path, d.arts, a);
      assert DbEntries(d, path)[0] == db;
    } else {
      var s :| s in d.subs && ZeroDb(s);
      var i :| 0 <= i < |d.subs| && d.subs[i] == s;
      art, db := ZeroEntries(d.subs[i], path + [d.subs[i].name]);
      SubIn(d, path, |d.subs|, i, art);
      SubIn(d, path, |d.subs|, i, db);
    }
  }

  lemma {:induction false} ArtIn(d: Dir, path: seq<string>, arts: seq<Art>, a: Art)
    requires DbTime(d) != 0 && a in arts
    ensures ArtEntry(d, path, a) in ArtEntries(d, path, arts)
  {
    if a != arts[|arts| - 1] {
      assert a in arts[..|arts| - 1];
      ArtIn(d, path, arts[..|arts| - 1], a);
    }
  }

  lemma {:induction false} SubIn(d: Dir, path: seq<string>, n: nat, i: nat, e: Entry)
    requires i < n <= |d.subs| && e in Entries(d.subs[i], path + [d.subs[i].name])
    ensures e in SubEntries(d, path, n)
    decreases n
  {
    hide Entries;
    if i < n - 1 {
      SubIn(d, path, n - 1, i, e);
    }
  }

  lemma {:induction false} SortedCopy(s: seq<Entry>) returns (v: seq<Entry>)
    ensures Sorted(v) && multiset(v) == multiset(s)
  {
    v := [];
    if s != [] {
      var n := |s| - 1;
      v := SortedCopy(s[..n]);
      var k := Place(v, s[n]);
      InsertedAt(v, k, s[n]);
      v := v[..k] + [s[n]] + v[k..];
      assert s == s[..n] + [s[n]];
    }
  }

  lemma {:induction false} Place(v: seq<Entry>, e: Entry) returns (k: nat)
    requires Sorted(v)
    ensures k <= |v| && (k > 0 ==> v[k - 1].atime <= e.atime) && forall i :: k <= i < |v| ==> e.atime < v[i].atime
  {
    if v == [] || v[|v| - 1].atime <= e.atime {
      k := |v|;
    } else {
      k := Place(v[..|v| - 1], e);
    }
  }

  /** A database from the first second of time goes as outdated, and its article, older by one
      second, stays. */
  lemma ZeroDbEvicted()
    ensures var d := Dir("g", Some(File(0, 0, 8)), 1, 1, [], [Art(File(5, 5, 40), Some(1))]);
      var art, db := Entry([], false, -1, 40), Entry([], true, 0, 8);
      && Tree(d) && ZeroDb(d) && Entries(d, []) == [db, art] && Sorted([art, db])
      && Survivors([art, db], 48, 100, Removable()) == [art]
  {
    var d := Dir("g", Some(File(0, 0, 8)), 1, 1, [], [Art(File(5, 5, 40), Some(1))]);
    var art, db := Entry([], false, -1, 40), Entry([], true, 0, 8);
    assert d.arts[..0] == [] && d.arts[0] in d.arts && !Outside(d, d.arts[0]);
    assert ArtEntries(d, [], d.arts) == [art];
    assert [art, db][1..] == [db] && [db][1..] == [];
  }

  /** A database from the next second goes as well, though its article is not even listed. */
  lemma OneDbEvicted()
    ensures var d := Dir("g", Some(File(1, 1, 8)), 1, 1, [], [Art(File(5, 5, 40), Some(1))]);
      var db := Entry([], true, 1, 8);
      && Tree(d) && OneDb(d) && !ZeroDb(d) && Unseen(d, [], db.path) && Entries(d, []) == [db]
      && Survivors([db], 8, 0, Removable()) == []
  {
    var d := Dir("g", Some(File(1, 1, 8)), 1, 1, [], [Art(File(5, 5, 40), Some(1))]);
    var db := Entry([], true, 1, 8);
    NoneListed(d, []);
    assert [db][1..] == [];
  }

  // ----- the program -----

  predicate Older(l: Entry, r: Entry) {
    l.atime < r.atime
  }

  class Cleaner {
    var pvector: seq<Entry>
    var blocks: int
    /** The entries whose file is still there. */
    ghost var left: seq<Entry>

    constructor ()
      ensures pvector == [] && blocks == 0
    {
      pvector, blocks, left := [], 0, [];
    }

    method Push(e: Entry)
      modifies this
      ensures pvector == old(pvector) + [e] && blocks == old(blocks) + e.blocks
    {
      pvector := pvector + [e];
      blocks := blocks + e.blocks;
    }

    /** The walk over one directory and those below it. */
    method Clean(d: Dir, path: seq<string>)
      modifies this
      ensures pvector == old(pvector) + Entries(d, path)
      ensures blocks == old(blocks) + Sum(Entries(d, path))
      decreases d, 1
    {
      hide Sum, ArtEntries, DbEntries;
      var dbatime := 0;
      if d.db.Some? {
        dbatime := Max(d.db.value.atime, d.db.value.mtime);
        Push(Entry(path, true, dbatime, d.db.value.blocks));
        dbatime := dbatime - 1;
      }
      ghost var db, subs := DbEntries(d, path), SubEntries(d, path, |d.subs|);
      DbSum(d, path);
      assert pvector == old(pvector) + db;
      CleanSubs(d, path);
      CleanArts(d, path, dbatime);
      SumAppend(db, subs);
      SumAppend(db + subs, ArtEntries(d, path, d.arts));
      assert old(pvector) + db + subs + ArtEntries(d, path, d.arts)
          == old(pvector) + (db + subs + ArtEntries(d, path, d.arts));
    }

    /** The first readdir loop. */
    method CleanSubs(d: Dir, path: seq<string>)
      modifies this
      ensures pvector == old(pvector) + SubEntries(d, path, |d.subs|)
      ensures blocks == old(blocks) + Sum(SubEntries(d, path, |d.subs|))
      decreases d, 0
    {
      hide Sum, Entries;
      SumNone();
      var i := 0;
      while i < |d.subs|
        invariant 0 <= i <= |d.subs|
        invariant pvector == old(pvector) + SubEntries(d, path, i)
        invariant blocks == old(blocks) + Sum(SubEntries(d, path, i))
      {
        Clean(d.subs[i], path + [d.subs[i].name]);
        SumAppend(SubEntries(d, path, i), Entries(d.subs[i], path + [d.subs[i].name]));
        i := i + 1;
      }
    }

    method CleanArts(d: Dir, path: seq<string>, dbatime: int)
      requires dbatime == DbTime(d)
      modifies this
      ensures pvector == old(pvector) + ArtEntries(d, path, d.arts)
      ensures blocks == old(blocks) + Sum(ArtEntries(d, path, d.arts))
    {
      hide Sum, ArtEntries, ArtEntry, DbTime;
      var i := 0;
      ArtsNone(d, path);
      SumNone();
      while i < |d.arts|
        invariant 0 <= i <= |d.arts|
        invariant pvector == old(pvector) + ArtEntries(d, path, d.arts[..i])
        invariant blocks == old(blocks) + Sum(ArtEntries(d, path, d.arts[..i]))
      {
        ArtsNext(d, path, i);
        if dbatime != 0 {
          var at := SeenAt(d, path, d.arts[i], dbatime);
          SumOne(ArtEntries(d, path, d.arts[..i]), ArtEntry(d, path, d.arts[i]));
          Push(Entry(path, false, at, d.arts[i].file.blocks));
        }
        i := i + 1;
      }
      assert d.arts[..i] == d.arts;
    }

    /** The time an article gets. */
    method SeenAt(d: Dir, ghost path: seq<string>, a: Art, dbatime: int) returns (at: int)
      requires dbatime == DbTime(d)
      ensures Entry(path, false, at, a.file.blocks) == ArtEntry(d, path, a)
    {
      at := Max(a.file.atime, a.file.mtime);
      if dbatime <= at {
        at := dbatime;
      }
      if Outside(d, a) {
        at := 0;
      }
    }

    /** std::sort with sort_entries: some order in which no entry is older than one before it. */
    method Sort()
      modifies this`pvector
      ensures Sorted(pvector) && multiset(pvector) == multiset(old(pvector))
    {
      var v, i := [], 0;
      while i < |pvector|
        invariant 0 <= i <= |pvector| && pvector == old(pvector)
        invariant Sorted(v) && multiset(v) == multiset(pvector[..i])
      {
        assert pvector[..i + 1] == pvector[..i] + [pvector[i]];
        v := Insert(v, pvector[i]);
        i := i + 1;
      }
      assert pvector[..i] == pvector;
      pvector := v;
    }

    /** Unlinks in the order of the list. unlink(e) tells whether the file could be removed. */
    method RemoveElements(max: int, unlink: Entry -> bool)
      modifies this`blocks, this`left
      ensures left == Survivors(pvector, old(blocks), max, unlink)
      ensures blocks == old(blocks) - Sum(pvector) + Sum(left)
    {
      hide *;
      ghost var v := pvector;
      var i := 0;
      left := [];
      assert pvector[0..] == pvector;
      SumNone();
      while i < |pvector|
        invariant 0 <= i <= |pvector| && pvector == v
        invariant blocks == old(blocks) - Sum(v) + Sum(left) + Sum(v[i..])
        invariant Survivors(v, old(blocks), max, unlink) == left + Survivors(v[i..], blocks, max, unlink)
      {
        SurvivorsAt(left, v, i, blocks, max, unlink);
        SumOne(left, v[i]);
        if pvector[i].atime != 0 && blocks <= max {
          left := left + [v[i]];
        } else if unlink(pvector[i]) {
          blocks := blocks - pvector[i].blocks;
        } else {
          left := left + [v[i]];
        }
        i := i + 1;
      }
      SurvivorsNone(v, blocks, max, unlink);
    }
  }

  /** One turn of the loop of remove_elements. */
  lemma SurvivorsAt(left: seq<Entry>, v: seq<Entry>, i: nat, total: int, max: int, unlink: Entry -> bool)
    requires i < |v|
    ensures Sum(v[i..]) == v[i].blocks + Sum(v[i + 1..])
    ensures left + Survivors(v[i..], total, max, unlink)
         == if (v[i].atime != 0 && total <= max) || !unlink(v[i]) then
              (left + [v[i]]) + Survivors(v[i + 1..], total, max, unlink)
            else left + Survivors(v[i + 1..], total - v[i].blocks, max, unlink)
  {
    hide Sum;
    SumFirst(v[i..]);
    assert v[i..][1..] == v[i + 1..];
    var rest := Survivors(v[i + 1..], total, max, unlink);
    assert left + ([v[i]] + rest) == left + [v[i]] + rest;
  }

  lemma SurvivorsNone(v: seq<Entry>, total: int, max: int, unlink: Entry -> bool)
    ensures Sum(v[|v|..]) == 0 && Survivors(v[|v|..], total, max, unlink) == []
  {
  }

  lemma ArtsNone(d: Dir, path: seq<string>)
    ensures ArtEntries(d, path, d.arts[..0]) == []
  {
  }

  lemma ArtsNext(d: Dir, path: seq<string>, i: nat)
    requires i < |d.arts|
    ensures ArtEntries(d, path, d.arts[..i + 1])
         == if DbTime(d) == 0 then ArtEntries(d, path, d.arts[..i])
            else ArtEntries(d, path, d.arts[..i]) + [ArtEntry(d, path, d.arts[i])]
  {
    hide ArtEntry, DbTime;
    assert d.arts[..i + 1][..i] == d.arts[..i];
  }

  lemma SumNone()
    ensures Sum([]) == 0
  {
  }

  lemma SumOne(a: seq<Entry>, e: Entry)
    ensures Sum(a + [e]) == Sum(a) + e.blocks
  {
    assert (a + [e])[..|a|] == a;
  }

  lemma DbSum(d: Dir, path: seq<string>)
    ensures Sum(DbEntries(d, path)) == if d.db.Some? then d.db.value.blocks else 0
    ensures DbEntries(d, path)
         == if d.db.Some? then [Entry(path, true, Max(d.db.value.atime, d.db.value.mtime), d.db.value.blocks)] else []
  {
    if d.db.Some? {
      assert Sum(DbEntries(d, path)) == Sum([]) + d.db.value.blocks;
    }
  }

  method Insert(v: seq<Entry>, e: Entry) returns (w: seq<Entry>)
    requires Sorted(v)
    ensures Sorted(w) && multiset(w) == multiset(v) + multiset{e}
  {
    var k := |v|;
    while k > 0 && Older(e, v[k - 1])
      invariant 0 <= k <= |v| && forall i :: k <= i < |v| ==> e.atime < v[i].atime
    {
      k := k - 1;
    }
    InsertedAt(v, k, e);
    w := v[..k] + [e] + v[k..];
  }

  lemma InsertedAt(v: seq<Entry>, k: nat, e: Entry)
    requires Sorted(v) && k <= |v| && (k > 0 ==> v[k - 1].atime <= e.atime)
    requires forall i :: k <= i < |v| ==> e.atime < v[i].atime
    ensures var w := v[..k] + [e] + v[k..]; Sorted(w) && multiset(w) == multiset(v) + multiset{e}
  {
    var w := v[..k] + [e] + v[k..];
    forall i, j | 0 <= i < j < |w|
      ensures w[i].atime <= w[j].atime
    {
      InsertedPair(v, k, e, i, j);
    }
    InsertedSame(v, k, e);
  }

  lemma InsertedPair(v: seq<Entry>, k: nat, e: Entry, i: nat, j: nat)
    requires Sorted(v) && k <= |v| && (k > 0 ==> v[k - 1].atime <= e.atime) && i < j <= |v|
    requires forall i :: k <= i < |v| ==> e.atime < v[i].atime
    ensures var w := v[..k] + [e] + v[k..]; w[i].atime <= w[j].atime
  {
  }

  lemma InsertedSame(v: seq<Entry>, k: nat, e: Entry)
    requires k <= |v|
    ensures multiset(v[..k] + [e] + v[k..]) == multiset(v) + multiset{e}
  {
    assert v == v[..k] + v[k..];
  }

  /** The whole program: nothing outdated is left and what is left fits the limit, but for files
      that cannot be unlinked; with sound times it is all but the oldest. */
  method CleanSpool(d: Dir, max: int, unlink: Entry -> bool) returns (c: Cleaner)
    ensures Sorted(c.pvector) && multiset(c.pvector) == multiset(Entries(d, []))
    ensures c.left == Survivors(c.pvector, Sum(c.pvector), max, unlink) && c.blocks == Sum(c.left)
    ensures forall e :: e in c.left ==> e in c.pvector && (e.atime != 0 || !unlink(e))
    ensures c.blocks <= max || forall e :: e in c.left ==> !unlink(e)
    ensures Sound(d) && (forall e :: e in c.pvector ==> unlink(e)) ==>
      c.left == c.pvector[Evicted(c.pvector, max)..]
  {
    hide *;
    c := new Cleaner();
    c.Clean(d, []);
    c.Sort();
    SumSame(c.pvector, Entries(d, []));
    SumNone();
    c.RemoveElements(max, unlink);
    SurvivorsFit(c.pvector, max, unlink, 0);
    SoundSuffix(d, c.pvector, max, unlink);
  }

  lemma SoundSuffix(d: Dir, v: seq<Entry>, max: int, unlink: Entry -> bool)
    requires Sorted(v) && multiset(v) == multiset(Entries(d, []))
    ensures Sound(d) && (forall e :: e in v ==> unlink(e)) ==>
      Survivors(v, Sum(v), max, unlink) == v[Evicted(v, max)..]
  {
    hide *;
    if Sound(d) && forall e :: e in v ==> unlink(e) {
      TimesNotNegative(d, []);
      assert forall e :: e in v ==> e in multiset(v);
      SurvivorsSuffix(v, max, unlink);
    }
  }

  lemma {:induction false} SumSame(a: seq<Entry>, b: seq<Entry>)
    requires multiset(a) == multiset(b)
    ensures Sum(a) == Sum(b)
    decreases |a|
  {
    hide Sum;
    if a == [] {
      assert |multiset(a)| == |a| && |multiset(b)| == |b|;
    } else {
      var front, e := a[..|a| - 1], a[|a| - 1];
      assert a == front + [e];
      assert multiset(a) == multiset(front) + multiset{e};
      assert e in multiset(b);
      var i :| 0 <= i < |b| && b[i] == e;
      Without(b, i);
      var rest := b[..i] + b[i + 1..];
      assert multiset(front) == multiset(a) - multiset{e} && multiset(rest) == multiset(b) - multiset{e};
      SumSame(front, rest);
      SumOne(front, e);
    }
  }

  lemma Without(b: seq<Entry>, i: nat)
    requires i < |b|
    ensures multiset(b) == multiset(b[..i] + b[i + 1..]) + multiset{b[i]}
    ensures Sum(b) == Sum(b[..i] + b[i + 1..]) + b[i].blocks
  {
    hide Sum;
    assert b == b[..i] + [b[i]] + b[i + 1..];
    SumAppend(b[..i] + [b[i]], b[i + 1..]);
    SumOne(b[..i], b[i]);
    SumAppend(b[..i], b[i + 1..]);
  }
}
