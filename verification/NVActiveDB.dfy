/** The active database in the container: NServer-0.9.1/NVActiveDB.cc over the hash table. */
module NVActiveDBs {
  import opened FreeList
  import opened Container
  import opened Bytes
  import opened UserBlocks
  import opened HashTable
  import opened HashIterators
  import opened Readline
  import opened GroupInfos
  import opened ActiveDB

  /** The data of the record at r. */
  method Data(ht: NVHash, r: nat, ghost next: nat, ghost d: seq<byte>) returns (data: seq<byte>)
    requires Rec(ht.c.mem[..], ht.c.view.live, r, next, d)
    ensures data == d
  {
    hide Pack, Unpack, Words;
    data := LoadBytes(ht.c, r + 2, ht.c.mem[r + 1], d);
  }

  /** The x-th record of all holds the x-th data of all. */
  lemma FlatRec(w: seq<int>, live: map<nat, nat>, t: Table, x: nat) returns (next: nat)
    requires HashRep(w, live, t) && x < |Flat(t.buckets)|
    ensures |Flat(t.content)| == |Flat(t.buckets)|
    ensures Rec(w, live, Flat(t.buckets)[x], next, Flat(t.content)[x])
  {
    hide HashRep, Rec, Flat, NextRec;
    var h, k := FlatFrom(t.buckets, x);
    FlatAt(t.buckets, h, k);
    RecordAt(w, live, t, h, k);
    FlatAt(t.content, h, k);
    HashShaped(w, live, t);
    FlatLengths(t.buckets, t.content, h);
    FlatLengths(t.buckets, t.content, |t.buckets|);
    assert t.buckets[..|t.buckets|] == t.buckets && t.content[..|t.content|] == t.content;
    next := NextRec(t.buckets[h], k);
  }

  lemma HashShaped(w: seq<int>, live: map<nat, nat>, t: Table)
    requires HashRep(w, live, t)
    ensures |t.content| == |t.buckets| && forall h :: 0 <= h < |t.buckets| ==> |t.content[h]| == |t.buckets[h]|
  {
    hide Rec, NoClash, Exact, Heads, TableAt;
  }

  lemma {:induction false} FlatLengths<S, T>(a: seq<seq<S>>, b: seq<seq<T>>, h: nat)
    requires h <= |a| == |b| && forall i :: 0 <= i < |a| ==> |a[i]| == |b[i]|
    ensures |Flat(a[..h])| == |Flat(b[..h])|
  {
    if h > 0 {
      FlatLengths(a, b, h - 1);
      FlatNext(a, h - 1);
      FlatNext(b, h - 1);
    }
  }

  lemma FlatTotal(w: seq<int>, live: map<nat, nat>, t: Table)
    requires HashRep(w, live, t)
    ensures |Flat(t.content)| == |Flat(t.buckets)|
  {
    hide HashRep, Flat;
    HashShaped(w, live, t);
    FlatLengths(t.buckets, t.content, |t.buckets|);
    assert t.buckets[..|t.buckets|] == t.buckets && t.content[..|t.content|] == t.content;
  }

  /** Where the search of bucket h stands after i records: on the one before the next. */
  function Before(recs: seq<nat>, i: nat): nat
    requires i < |recs|
  {
    if i == 0 then recs[|recs| - 1] else recs[i - 1]
  }

  lemma SearchStep(w: seq<int>, live: map<nat, nat>, t: Table, h: nat, i: nat)
    requires h < |t.buckets| && i < |t.buckets[h]| && HashRep(w, live, t)
    ensures |t.content| == |t.buckets| && |t.content[h]| == |t.buckets[h]|
    ensures var r := Before(t.buckets[h], i); r < |w| && w[r] == t.buckets[h][i] != 0
    ensures Rec(w, live, t.buckets[h][i], NextRec(t.buckets[h], i), t.content[h][i])
    ensures t.buckets[h][i] == Tail(t.buckets[h]) <==> i == |t.buckets[h]| - 1
  {
    hide HashRep, NoClash, Records, Heads, TableAt, Exact, IsRec, Rec;
    var n := |t.buckets[h]|;
    var o := if i == 0 then n - 1 else i - 1;
    HashParts(w, live, t);
    RecordAt(w, live, t, h, i);
    RecIn(w, live, t.buckets[h][i], NextRec(t.buckets[h], i), t.content[h][i]);
    RecordAt(w, live, t, h, o);
    RecIn(w, live, t.buckets[h][o], NextRec(t.buckets[h], o), t.content[h][o]);
    RecApart(t, h, i, h, n - 1);
  }

  lemma TailWord(w: seq<int>, live: map<nat, nat>, t: Table, h: nat)
    requires h < |t.buckets| && HashRep(w, live, t)
    ensures t.tab + 1 + h < |w| && w[t.tab + 1 + h] == Tail(t.buckets[h])
    ensures w[t.tab + 1 + h] == 0 <==> t.buckets[h] == []
    ensures |t.content| == |t.buckets| && |t.content[h]| == |t.buckets[h]|
  {
    hide HashRep;
    RootWord(w, live, t, h);
    RootOf(t, h);
  }

  lemma RootOf(t: Table, h: nat)
    ensures t.Root(h) == t.tab + 1 + h
  {
  }

  class NVActiveDB {
    const h: NVHash
    ghost var db: Db

    ghost predicate Valid()
      reads this, h, h.c, h.c.mem
    {
      h.Valid() && h.hashsz == HASHSIZE && Stored(h.t.content, db)
    }

    lemma Parts()
      requires Valid()
      ensures h.Valid() && h.hashsz == HASHSIZE && Stored(h.t.content, db)
      ensures |h.t.content| == HASHSIZE
    {
      hide NVHash.Valid, Entry, Listed;
    }

    lemma Whole()
      requires h.Valid() && h.hashsz == HASHSIZE && Stored(h.t.content, db)
      ensures Valid()
    {
    }

    constructor ()
      ensures Valid() && db == map[] && fresh(h) && fresh(h.c) && fresh(h.c.mem)
    {
      hide *;
      h := new NVHash(HASHSIZE);
      db := map[];
      new;
      EmptyContent(h.t.content, HASHSIZE);
      StoredNone(h.t.content);
      Whole();
    }

    /** The search loop of sset, get and hasgroup: from the head of the list to its tail. */
    method Find(name: seq<byte>) returns (r: nat, ghost k: nat, ghost b: nat)
      requires Valid() && 0 !in name
      ensures b == Hash(name) < HASHSIZE == |h.t.content| == |h.t.buckets|
      ensures |h.t.content[b]| == |h.t.buckets[b]|
      ensures r == 0 <==> name !in db
      ensures r != 0 ==> k < |h.t.buckets[b]| && r == h.t.buckets[b][k] && RawName(h.t.content[b][k]) == name
      ensures r != 0 ==> Rec(h.c.mem[..], h.c.view.live, r, NextRec(h.t.buckets[b], k), h.t.content[b][k])
    {
      hide *;
      Parts();
      h.Parts();
      var hv := HashOf(name);
      b := hv;
      ghost var w, live, t := h.c.mem[..], h.c.view.live, h.t;
      TailWord(w, live, t, b);
      var head := h.c.mem[h.hashtab + hv];
      r := head;
      k := 0;
      TailLast(t.buckets[b]);
      while r != 0
        invariant r == 0 || (k < |t.buckets[b]| && r == Before(t.buckets[b], k))
        invariant r == 0 ==> k == |t.buckets[b]|
        invariant forall i :: 0 <= i < k ==> RawName(t.content[b][i]) != name
        decreases |t.buckets[b]| - k, r
      {
        SearchStep(w, live, t, b, k);
        r := h.c.mem[r];
        var d := Data(h, r, NextRec(t.buckets[b], k), t.content[b][k]);
        if RawName(d) == name {
          FoundStored(t.content, db, b, k);
          return;
        }
        if r == head {
          r := 0;
        }
        k := k + 1;
        BeforeIs(t.buckets[b], k);
      }
      NotStored(t.content, db, name);
    }

    /** sset: overwrites the record of a known group, prepends one for a new group. */
    method SetGroup(gi: GroupInfo, updateOnly: bool, now: nat)
      requires Valid() && GroupInfos.Fits(gi.v) && now < TWO64
      modifies this, gi, h, h.c, h.c.mem
      ensures Valid() && (h.c.mem == old(h.c.mem) || fresh(h.c.mem))
      ensures db == Sset(old(db), old(gi.v), now, updateOnly) && GroupInfos.Fits(gi.v)
      ensures gi.v.name in old(db) || updateOnly ==> h.c.view == old(h.c.view) && h.c.mem == old(h.c.mem)
      ensures h.Mtime() == old(h.Mtime())
      ensures gi.v == if gi.v.name in old(db) then old(gi.v).(ctime := old(db)[gi.v.name].ctime)
                      else if updateOnly then old(gi.v) else old(gi.v).(ctime := now)
    {
      hide *;
      Parts();
      h.Parts();
      FitsName(gi.v);
      var r, k, b := Find(gi.v.name);
      SsetIs(db, gi.v, now, updateOnly);
      if r != 0 {
        ghost var d := h.t.content[b][k];
        ghost var next := NextRec(h.t.buckets[b], k);
        StoredAt(h.t.content, db, b, k);
        EntryIs(d, b, db);
        var data := Data(h, r, next, d);
        FitsName(db[gi.v.name]);
        FitsTime(gi.v, db[gi.v.name].ctime);
        gi.Setctime(FromRaw(data).ctime);
        StoredUpdate(h.t.content, db, gi.v, b, k);
        RecordSize(h, r, next, d);
        if |Raw(gi.v)| == h.c.mem[r + 1] {
          h.Overwrite(b, k, r, Raw(gi.v));
          UpdatedTab(old(h.t), b, k, Raw(gi.v));
          db := db[gi.v.name := gi.v];
        }
      } else if !updateOnly {
        FitsTime(gi.v, now);
        gi.Setctime(now);
        var hv := HashOf(gi.v.name);
        StoredAdd(h.t.content, db, gi.v);
        ghost var p := h.Sadd(hv, Raw(gi.v));
        db := db[gi.v.name := gi.v];
      }
      Whole();
    }

    /** 0 and the group's record, or -1 and the object as it was. */
    method Get(group: seq<byte>, gi: GroupInfo) returns (ret: int)
      requires Valid() && 0 !in group
      modifies gi
      ensures if group in db then ret == 0 && gi.v == db[group] else ret == -1 && gi.v == old(gi.v)
    {
      hide *;
      Parts();
      var r, k, b := Find(group);
      if r == 0 {
        return -1;
      }
      ghost var d := h.t.content[b][k];
      StoredAt(h.t.content, db, b, k);
      EntryIs(d, b, db);
      EntryTail(d, b, db);
      var data := Data(h, r, NextRec(h.t.buckets[b], k), d);
      var fits := gi.Setraw(data);
      return 0;
    }

    method HasGroup(group: seq<byte>) returns (found: bool)
      requires Valid() && 0 !in group
      ensures found == (group in db)
    {
      hide *;
      var r, k, b := Find(group);
      return r != 0;
    }

    /** Afterwards no block but the bucket table is live. */
    method Clear()
      requires Valid()
      modifies this, h, h.c, h.c.mem
      ensures Valid() && db == map[] && h.c.mem == old(h.c.mem) && h.c.view.live.Keys == {h.hashtab - 2}
      ensures h.Mtime() == old(h.Mtime())
    {
      hide *;
      Parts();
      h.Sclear();
      StoredNone(h.t.content);
      db := map[];
      Whole();
    }

    /** write: the chosen groups in the order of the buckets. */
    method Write(since: nat, mode: Mode, pick: seq<byte> -> bool) returns (out: seq<byte>)
      requires Valid()
      ensures forall x :: 0 <= x < |Flat(h.t.content)| ==> |Flat(h.t.content)[x]| >= 30
      ensures out == Dump(Infos(Flat(h.t.content)), since, mode, pick)
    {
      hide HashRep, Stands, Flat, Inv, Rep, Dump, Infos, Line, Chosen, FromRaw, Stored, Rec, RawName;
      Parts();
      h.Parts();
      ghost var t, all := h.t, Flat(h.t.content);
      FlatSizes(t.content, db);
      FlatTotal(h.c.mem[..], h.c.view.live, t);
      ghost var gs := Infos(all);
      var it := new NVHashIter(h);
      it.First();
      out := [];
      ghost var done := 0;
      StandsAt(t, it.curhashval, it.pos, it.curtail, done);
      DumpNone(gs, since, mode, pick);
      while it.IsValid()
        invariant it.ht == h && it.At(done) && done <= |gs| && (it.pos == 0 <==> done == |gs|)
        invariant out == Dump(gs[..done], since, mode, pick)
        decreases |gs| - done
      {
        StandsAt(t, it.curhashval, it.pos, it.curtail, done);
        ghost var next := FlatRec(h.c.mem[..], h.c.view.live, t, done);
        var data := Data(h, it.pos, next, all[done]);
        DumpNext(gs, done, since, mode, pick);
        var gd := new GroupInfo();
        RawTail(t.content, db, done);
        var fits := gd.Setraw(data);
        if Chosen(gd.v, since, pick) {
          out := out + Line(gd.v, mode);
        }
        it.Next(done);
        done := done + 1;
        StandsAt(t, it.curhashval, it.pos, it.curtail, done);
      }
      assert gs[..done] == gs;
    }

    /** What read does with one line of the list. */
    method StoreLine(line: seq<byte>, gd: GroupInfo, readOnly: bool, now: nat) returns (ok: bool)
      requires Valid() && GroupInfos.Fits(gd.v) && Scannable(line) && now < TWO64
      modifies this, gd, h, h.c, h.c.mem
      ensures Valid() && (h.c.mem == old(h.c.mem) || fresh(h.c.mem)) && h.Mtime() == old(h.Mtime())
      ensures ok == Parse(line, 0, now).Ok? && (ok ==> GroupInfos.Fits(gd.v))
      ensures db == match Parse(line, 0, now)
        case Ok(g) => Sset(old(db), if readOnly then g.(flag := 'n' as int) else g, now, false)
        case _ => old(db)
    {
      hide *;
      FitsName(gd.v);
      ParseTime(line, gd.v.ctime, now);
      var r := gd.Set(line, now);
      if !r.Ok? {
        return false;
      }
      if readOnly {
        FlagFits(gd.v, 'n' as int);
        gd.Setflag('n' as int);
      }
      SsetTime(db, gd.v, now, false);
      SetGroup(gd, false, now);
      return true;
    }

    /** read: stores the groups of a list and moves the modification time forward to its end. A
        line that set() refuses ends it with an exception, which leaves the time as it was. */
    method Read(ins: Stream, take: seq<byte> -> bool, clear: bool, readOnly: bool, clock: nat -> nat, end: nat)
      returns (ok: bool)
      requires Valid() && Listing(ins.rest) && forall i :: clock(i) < TWO64
      modifies this, ins, h, h.c, h.c.mem
      ensures Valid()
      ensures (db, ok) == ReadAll(old(ins.rest), if clear then map[] else old(db), take, readOnly, clock, 0)
      ensures h.Mtime() == if ok && end > old(h.Mtime()) then end else old(h.Mtime())
      ensures ok ==> ins.rest == Behind(old(ins.rest))
    {
      hide *;
      if clear {
        Clear();
      }
      var gd := new GroupInfo();
      ghost var first, text := db, ins.rest;
      var i := 0;
      while true
        invariant Valid() && Listing(ins.rest) && fresh(gd) && GroupInfos.Fits(gd.v)
        invariant h.c.mem == old(h.c.mem) || fresh(h.c.mem)
        invariant h.Mtime() == old(h.Mtime()) && Behind(ins.rest) == Behind(text)
        invariant ReadAll(ins.rest, db, take, readOnly, clock, i) == ReadAll(text, first, take, readOnly, clock, 0)
        decreases |ins.rest|
      {
        ReadStep(ins.rest, db, take, readOnly, clock, i);
        var line := Nlreadline(ins, false);
        if line == DOT {
          break;
        }
        if take(line) {
          var fine := StoreLine(line, gd, readOnly, clock(i));
          if !fine {
            return false;
          }
        }
        i := i + 1;
      }
      Parts();
      h.SetMtime(end, false);
      Whole();
      return true;
    }
  }

  lemma RecordSize(ht: NVHash, r: nat, next: nat, d: seq<byte>)
    requires Rec(ht.c.mem[..], ht.c.view.live, r, next, d)
    ensures r + 1 < ht.c.mem.Length && ht.c.mem[r + 1] == |d|
  {
    hide Pack, Words;
  }

  lemma TailLast(recs: seq<nat>)
    ensures recs != [] ==> Tail(recs) == Before(recs, 0)
  {
  }

  lemma BeforeIs(recs: seq<nat>, k: nat)
    ensures 0 < k < |recs| ==> Before(recs, k) == recs[k - 1]
  {
  }

  lemma FoundStored(content: seq<seq<seq<byte>>>, db: Db, h: nat, k: nat)
    requires Stored(content, db) && h < |content| && k < |content[h]|
    ensures RawName(content[h][k]) in db
  {
    hide Raw, RawName, GroupInfos.Fits, HashFrom, Listed;
    StoredAt(content, db, h, k);
  }

  lemma EmptyContent(content: seq<seq<seq<byte>>>, n: nat)
    requires content == EmptyTable(0, n).content
    ensures |content| == n && forall h :: 0 <= h < n ==> content[h] == []
  {
  }

  lemma FitsName(g: Info)
    requires GroupInfos.Fits(g)
    ensures 0 !in g.name && g.ctime < TWO64
  {
  }

  lemma FitsTime(g: Info, ctime: nat)
    requires GroupInfos.Fits(g) && ctime < TWO64
    ensures GroupInfos.Fits(g.(ctime := ctime))
  {
  }

  /** The creation time in the object takes no part in what a line means, nor in what sset stores. */
  lemma ParseTime(line: seq<byte>, ctime: nat, now: nat)
    requires Scannable(line) && ctime < TWO64 && now < TWO64
    ensures var r := Parse(line, ctime, now);
      if r.Ok? then
        && GroupInfos.Fits(r.value) && r.value.ctime == ctime
        && Parse(line, 0, now) == Ok(r.value.(ctime := 0))
      else Parse(line, 0, now) == r
  {
    hide Strtol, SkipSpace, Scannable;
  }

  lemma SsetTime(db: Db, g: Info, now: nat, updateOnly: bool)
    ensures Sset(db, g, now, updateOnly) == Sset(db, g.(ctime := 0), now, updateOnly)
  {
  }

  lemma FlagFits(g: Info, flag: byte)
    requires GroupInfos.Fits(g)
    ensures GroupInfos.Fits(g.(flag := flag))
  {
  }

  lemma SsetIs(db: Db, g: Info, now: nat, updateOnly: bool)
    ensures Sset(db, g, now, updateOnly)
         == if g.name in db then db[g.name := g.(ctime := db[g.name].ctime)]
            else if updateOnly then db else db[g.name := g.(ctime := now)]
  {
  }

  lemma EntryIs(d: seq<byte>, b: nat, db: Db)
    requires Entry(d, b, db)
    ensures RawName(d) in db && |d| >= 30 && FromRaw(d) == db[RawName(d)] && GroupInfos.Fits(db[RawName(d)])
  {
    hide Raw, RawName, FromRaw;
    RawRoundTrip(db[RawName(d)]);
  }

  lemma EntryTail(d: seq<byte>, b: nat, db: Db)
    requires Entry(d, b, db)
    ensures |d| >= 30 && HEAD_SIZE < |d| <= HEAD_SIZE + NAME_SIZE && RawName(d) + [0] <= d[HEAD_SIZE..]
  {
    hide HashFrom, CString;
    var g := db[RawName(d)];
    assert d[29..] == g.name + [0];
  }

  lemma RawTail(content: seq<seq<seq<byte>>>, db: Db, x: nat)
    requires Stored(content, db) && x < |Flat(content)|
    ensures var d := Flat(content)[x];
      |d| >= 30 && HEAD_SIZE < |d| <= HEAD_SIZE + NAME_SIZE && RawName(d) + [0] <= d[HEAD_SIZE..]
  {
    hide Stored, Flat, RawName;
    var h, k := FlatFrom(content, x);
    FlatAt(content, h, k);
    StoredAt(content, db, h, k);
    EntryTail(content[h][k], h, db);
  }

  lemma DumpNone(gs: seq<Info>, since: nat, mode: Mode, pick: seq<byte> -> bool)
    ensures Dump(gs[..0], since, mode, pick) == []
  {
  }

  lemma DumpNext(gs: seq<Info>, x: nat, since: nat, mode: Mode, pick: seq<byte> -> bool)
    requires x < |gs|
    ensures Dump(gs[..x + 1], since, mode, pick)
         == Dump(gs[..x], since, mode, pick) + if Chosen(gs[x], since, pick) then Line(gs[x], mode) else []
  {
    hide Line, Chosen;
    assert gs[..x + 1][..x] == gs[..x];
  }

  /** One turn of the loop of read(). */
  lemma ReadStep(text: seq<byte>, db: Db, take: seq<byte> -> bool, readOnly: bool, clock: nat -> nat, i: nat)
    requires Listing(text)
    ensures LineEnd(text) < |text|
    ensures var line, rest := Strip(text[..LineEnd(text)]), text[LineEnd(text) + 1..];
      if line == DOT then ReadAll(text, db, take, readOnly, clock, i) == (db, true) && Behind(text) == rest
      else
        && Scannable(line) && Listing(rest) && Behind(text) == Behind(rest)
        && (if !take(line) then
              ReadAll(text, db, take, readOnly, clock, i) == ReadAll(rest, db, take, readOnly, clock, i + 1)
            else
              match Parse(line, 0, clock(i))
              case Ok(g) =>
                var f := if readOnly then g.(flag := 'n' as int) else g;
                ReadAll(text, db, take, readOnly, clock, i)
                == ReadAll(rest, Sset(db, f, clock(i), false), take, readOnly, clock, i + 1)
              case _ => ReadAll(text, db, take, readOnly, clock, i) == (db, false))
  {
    hide Scannable, Strip, LineEnd, Parse, Sset;
  }
}
