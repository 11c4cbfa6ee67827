/** The article store in the container: NServer-0.9.1/NVNewsgroup.cc over the array. A record is
    a type byte, the text, and a NUL. */
module NVNewsgroups {
  import opened FreeList
  import opened Container
  import opened Bytes
  import opened UserBlocks
  import opened NVArrays
  import opened Readline
  import opened Wrappers
  import Spool
  import GroupInfos

  const OVERVIEW: byte := 2
  const ARTICLE: byte := 3
  const BIGARTICLE: byte := 4

  function Data(e: Spool.Entry): seq<byte>
    requires !e.Empty?
  {
    match e
    case Overview(o) => [OVERVIEW] + o + [0]
    case Article(t) => [ARTICLE] + t + [0]
    case Spilled(o) => [BIGARTICLE] + o + [0]
  }

  /** A slot holds an entry. */
  predicate Holds(s: Slot, e: Spool.Entry) {
    if e.Empty? then s.Empty? else s.Held? && s.data == Data(e)
  }

  ghost predicate Agree(a: Arr, s: Spool.Store) {
    && a.fst == s.fst && a.lst == s.lst && |a.slots| == |s.entries| == s.lst + 1 - s.fst
    && forall i: nat :: i < |a.slots| ==> Holds(a.slots[i], s.entries[i])
  }

  lemma AgreeNone(a: Arr, s: Spool.Store)
    requires a == Arr(0, 1, 0, []) && s == Spool.Store(1, 0, [], s.files)
    ensures Agree(a, s)
  {
  }

  lemma HoldsAt(a: Arr, s: Spool.Store, i: nat)
    requires Agree(a, s) && i < |a.slots|
    ensures |s.entries| == |a.slots| && Holds(a.slots[i], s.entries[i])
  {
    hide Holds;
  }

  lemma SameShape(a: Arr, s: Spool.Store)
    requires Agree(a, s)
    ensures a.fst == s.fst && a.lst == s.lst && |a.slots| == |s.entries| == s.lst + 1 - s.fst && Spool.Ok(s)
    ensures forall i :: 0 <= i < |a.slots| ==> !a.slots[i].Gone?
  {
    assert forall i: nat :: i < |a.slots| ==> Holds(a.slots[i], s.entries[i]);
  }

  lemma SameSet(a: Arr, s: Spool.Store, i: nat, x: nat, e: Spool.Entry, files: map<nat, seq<byte>>)
    requires Agree(a, s) && i < |a.slots| && !e.Empty?
    ensures |s.entries| == |a.slots|
    ensures Agree(WithSlot(a, i, Held(x, Data(e))), Spool.Store(s.fst, s.lst, s.entries[i := e], files))
  {
    hide Data;
    var slots, entries := a.slots[i := Held(x, Data(e))], s.entries[i := e];
    forall j: nat | j < |slots|
      ensures Holds(slots[j], entries[j])
    {
      if j != i {
        HoldsAt(a, s, j);
      }
    }
  }

  /** The kind and the text of a record. */
  lemma DataIs(e: Spool.Entry)
    requires !e.Empty?
    ensures var d := Data(e);
      && |d| >= 2
      && (d[0] == ARTICLE <==> e.Article?) && (d[0] == OVERVIEW <==> e.Overview?)
      && (d[0] == BIGARTICLE <==> e.Spilled?)
      && (e.Article? ==> d[1..|d| - 1] == e.text) && (!e.Article? ==> d[1..] == e.over + [0])
      && (!e.Article? ==> [BIGARTICLE] + d[1..] == Data(Spool.Spilled(e.over)))
  {
  }

  /** atoi, converted to unsigned long. */
  function Atoi(s: seq<byte>): nat {
    var v := GroupInfos.Strtol(s, 0).0 % TWO32;
    if v < 0x8000_0000 then v else TWO64 - TWO32 + v
  }

  /** An overview line goes under the number that it starts with; a negative one becomes
      a number from 2^63 on. */
  lemma AtoiIs(line: seq<byte>, n: nat, rest: seq<byte>)
    requires rest != [] ==> !(48 <= rest[0] <= 57)
    requires line == GroupInfos.Dec(n) + rest || line == [45] + GroupInfos.Dec(n) + rest
    ensures n < 0x8000_0000 && line == GroupInfos.Dec(n) + rest ==> Atoi(line) == n
    ensures 0 < n <= 0x8000_0000 && line == [45] + GroupInfos.Dec(n) + rest ==> Atoi(line) == TWO64 - n
  {
    hide GroupInfos.Dec, GroupInfos.Strtol;
    var ds := GroupInfos.Dec(n);
    var d := |line| - |ds| - |rest|;
    var e := d + |ds|;
    assert line[d..e] == ds && ds[0..] == ds;
    assert GroupInfos.IsDigit(ds[0]);
    assert e < |line| ==> line[e] == rest[0];
    GroupInfos.StrtolIs(line, 0, 0, d, e, n);
  }

  class NVNewsgroup {
    const arr: NVArray
    const fmt: seq<byte> -> seq<byte>
    /** The .art files of the spool directory. */
    var files: map<nat, seq<byte>>
    ghost var s: Spool.Store

    ghost predicate Valid()
      reads this, arr, arr.c, arr.c.mem
    {
      arr.Valid() && Agree(arr.a, s) && s.files == files
    }

    lemma Parts()
      requires Valid()
      ensures arr.Valid() && Agree(arr.a, s) && s.files == files && Spool.Ok(s)
      ensures arr.a.fst == s.fst == arr.arrfst && arr.a.lst == s.lst == arr.arrlst
      ensures |arr.a.slots| == |s.entries| == s.lst + 1 - s.fst
      ensures forall i :: 0 <= i < |arr.a.slots| ==> !arr.a.slots[i].Gone?
    {
      hide ArrRep, Agree, Holds;
      arr.Parts();
      SameShape(arr.a, s);
    }

    lemma Whole()
      requires arr.Valid() && Agree(arr.a, s) && s.files == files
      ensures Valid()
    {
    }

    /** The live blocks are the table and one block for each entry, no block for two. */
    lemma LiveBlocks()
      requires Valid()
      ensures Exact(arr.c.view.live, arr.a) && Separate(arr.a) && |arr.a.slots| == |s.entries|
      ensures forall i :: 0 <= i < |s.entries| ==> (arr.a.slots[i].Held? <==> !s.entries[i].Empty?)
    {
      hide Inv, Rep, Exact, Separate, TabAt, SlotsAt, Data;
      ArrParts(arr.c.mem[..], arr.c.view.live, arr.a);
      forall i: nat | i < |s.entries|
        ensures arr.a.slots[i].Held? <==> !s.entries[i].Empty?
      {
        HoldsAt(arr.a, s, i);
      }
    }

    constructor (fmt: seq<byte> -> seq<byte>, files: map<nat, seq<byte>>)
      ensures Valid() && s == Spool.Store(1, 0, [], files) && this.fmt == fmt
      ensures fresh(arr) && fresh(arr.c) && fresh(arr.c.mem)
    {
      hide *;
      arr := new NVArray();
      this.fmt := fmt;
      this.files := files;
      s := Spool.Store(1, 0, [], files);
      new;
      AgreeNone(arr.a, s);
      Whole();
    }

    /** Looks a number up: the offset and the data of its record, 0 when there is none. */
    method Lookup(nbr: nat) returns (off: nat, data: seq<byte>)
      requires Valid()
      ensures Spool.Ok(s)
      ensures off == 0 <==> Spool.EntryAt(s, nbr).Empty?
      ensures off != 0 ==> data == Data(Spool.EntryAt(s, nbr))
      ensures off != 0 ==> nbr - s.fst < |arr.a.slots| && arr.a.slots[nbr - s.fst] == Held(off, data)
    {
      hide *;
      Parts();
      off := arr.Sget(nbr);
      EntryIs(s, nbr);
      data := [];
      if arr.arrfst <= nbr <= arr.arrlst {
        HoldsAt(arr.a, s, nbr - arr.arrfst);
        HoldsIs(arr.a.slots[nbr - arr.arrfst], s.entries[nbr - arr.arrfst]);
        arr.Parts();
        SlotWord(arr.c.mem[..], arr.c.view.live, arr.a, nbr - arr.arrfst);
      }
      if off != 0 {
        ghost var d := arr.a.slots[nbr - arr.arrfst].data;
        ItemIn(arr.c.mem[..], arr.c.view.live, off, d);
        data := LoadBytes(arr.c, off + 1, arr.c.mem[off], d);
      }
    }

    method HasRecord(nbr: nat) returns (r: bool)
      requires Valid()
      ensures Spool.Ok(s) && r == !Spool.EntryAt(s, nbr).Empty?
    {
      hide *;
      Parts();
      var off := arr.Sget(nbr);
      EntryIs(s, nbr);
      if arr.arrfst <= nbr <= arr.arrlst {
        HoldsAt(arr.a, s, nbr - arr.arrfst);
        HoldsIs(arr.a.slots[nbr - arr.arrfst], s.entries[nbr - arr.arrfst]);
        arr.Parts();
        SlotWord(arr.c.mem[..], arr.c.view.live, arr.a, nbr - arr.arrfst);
      }
      return off != 0;
    }

    /** The overview line, empty when there is none. */
    method GetOver(nbr: nat) returns (over: seq<byte>)
      requires Valid()
      ensures Spool.Ok(s)
      ensures match Spool.EntryAt(s, nbr)
        case Empty => over == []
        case Article(text) => over == fmt(text)
        case Overview(o) => over == GroupInfos.CString(o + [0])
        case Spilled(o) => over == GroupInfos.CString(o + [0])
    {
      hide *;
      var off, data := Lookup(nbr);
      over := [];
      if off != 0 {
        DataIs(Spool.EntryAt(s, nbr));
        if data[0] == ARTICLE {
          over := fmt(data[1..|data| - 1]);
        } else if data[0] == BIGARTICLE || data[0] == OVERVIEW {
          over := GroupInfos.CString(data[1..]);
        }
      }
    }

    /** Stores an overview line under the number it starts with, unless the slot is taken. */
    method SetOver(over: seq<byte>)
      requires Valid()
      modifies this, arr, arr.c, arr.c.mem
      ensures Valid() && (arr.c.mem == old(arr.c.mem) || fresh(arr.c.mem))
      ensures Spool.Ok(old(s)) && s == Spool.SetOver(old(s), Atoi(over), over)
    {
      hide *;
      var nbr := Atoi(over);
      Parts();
      SetOverIs(s, nbr, over);
      EntryIs(s, nbr);
      if arr.arrfst <= nbr <= arr.arrlst {
        var off, data := Lookup(nbr);
        if off == 0 {
          ghost var e := Spool.Overview(over);
          DataOverview(over);
          HoldsAt(arr.a, s, nbr - arr.arrfst);
          HoldsIs(arr.a.slots[nbr - arr.arrfst], s.entries[nbr - arr.arrfst]);
          Store(nbr, arr.a, e, [OVERVIEW] + over + [0]);
        }
      }
      Whole();
    }

    /** nvalloc and the words of a record, for a slot that has none or whose record was freed. */
    method Store(nbr: nat, ghost a: Arr, ghost e: Spool.Entry, d: seq<byte>)
      requires arr.Valid() && !e.Empty? && d == Data(e) && Agree(a, s)
      requires arr.arrfst <= nbr && nbr - arr.arrfst < |arr.a.slots| == |s.entries| == |a.slots|
      requires !arr.a.slots[nbr - arr.arrfst].Held?
      requires arr.a == a || arr.a == WithSlot(a, nbr - arr.arrfst, Gone)
      modifies this`s, arr`a, arr.c, arr.c.mem
      ensures arr.Valid() && (arr.c.mem == old(arr.c.mem) || fresh(arr.c.mem)) && Agree(arr.a, s)
      ensures s == Spool.Store(old(s).fst, old(s).lst, old(s).entries[nbr - arr.arrfst := e], files)
    {
      hide *;
      var x := arr.PutSlot(nbr - arr.arrfst, d);
      SlotTwice(a, nbr - arr.arrfst, Held(x, d));
      SameSet(a, s, nbr - arr.arrfst, x, e, files);
      s := Spool.Store(s.fst, s.lst, s.entries[nbr - arr.arrfst := e], files);
    }

    /** Up to the limit the text goes into the record; a longer one into a file, and the record
        becomes the overview line, the old one if there is one. */
    method SetArticle(nbr: nat, text: seq<byte>)
      requires Valid()
      modifies this, arr, arr.c, arr.c.mem
      ensures Valid() && (arr.c.mem == old(arr.c.mem) || fresh(arr.c.mem))
      ensures Spool.Ok(old(s)) && s == Spool.SetArticle(old(s), nbr, text, fmt)
    {
      hide *;
      Parts();
      SetArticleIs(s, nbr, text, fmt);
      if arr.arrfst <= nbr <= arr.arrlst {
        if |text| <= Spool.LIMIT {
          SetSmall(nbr, text);
        } else {
          SetBig(nbr, text);
        }
      }
      Whole();
    }

    method SetSmall(nbr: nat, text: seq<byte>)
      requires Valid() && arr.arrfst <= nbr <= arr.arrlst
      modifies this`s, arr`a, arr.c, arr.c.mem
      ensures arr.Valid() && Agree(arr.a, s) && s.files == files && (arr.c.mem == old(arr.c.mem) || fresh(arr.c.mem))
      ensures nbr - arr.arrfst < |old(s).entries| && s == Spool.Store(old(s).fst, old(s).lst,
                old(s).entries[nbr - arr.arrfst := Spool.Article(text)], old(s).files)
    {
      hide *;
      Parts();
      var off, data := Lookup(nbr);
      EntryIs(s, nbr);
      HoldsAt(arr.a, s, nbr - arr.arrfst);
      HoldsIs(arr.a.slots[nbr - arr.arrfst], s.entries[nbr - arr.arrfst]);
      ghost var a := arr.a;
      if off != 0 {
        arr.FreeSlot(nbr - arr.arrfst);
        WithSlotIs(a, nbr - arr.arrfst, Gone);
      }
      arr.Parts();
      DataArticle(text);
      Store(nbr, a, Spool.Article(text), [ARTICLE] + text + [0]);
    }

    method SetBig(nbr: nat, text: seq<byte>)
      requires Valid() && arr.arrfst <= nbr <= arr.arrlst
      modifies this`s, this`files, arr`a, arr.c, arr.c.mem
      ensures arr.Valid() && Agree(arr.a, s) && s.files == files && (arr.c.mem == old(arr.c.mem) || fresh(arr.c.mem))
      ensures nbr - arr.arrfst < |old(s).entries|
      ensures var e := old(s).entries[nbr - arr.arrfst];
        s == Spool.Store(old(s).fst, old(s).lst,
               old(s).entries[nbr - arr.arrfst :=
                 Spool.Spilled(if e.Overview? || e.Spilled? then e.over else fmt(text))],
               old(s).files[nbr := text])
    {
      hide *;
      Parts();
      var off, data := Lookup(nbr);
      EntryIs(s, nbr);
      HoldsAt(arr.a, s, nbr - arr.arrfst);
      HoldsIs(arr.a.slots[nbr - arr.arrfst], s.entries[nbr - arr.arrfst]);
      ghost var a, e := arr.a, s.entries[nbr - arr.arrfst];
      if off != 0 {
        DataIs(e);
        KindsApart();
      }
      files := files[nbr := text];
      if off != 0 && data[0] != OVERVIEW && data[0] != BIGARTICLE {
        arr.FreeSlot(nbr - arr.arrfst);
        WithSlotIs(a, nbr - arr.arrfst, Gone);
        off := 0;
      }
      arr.Parts();
      if off == 0 {
        var over := fmt(text);
        DataSpilled(over);
        Store(nbr, a, Spool.Spilled(over), [BIGARTICLE] + over + [0]);
      } else {
        arr.Rewrite(nbr - arr.arrfst, [BIGARTICLE] + data[1..]);
        SameSet(a, s, nbr - arr.arrfst, off, Spool.Spilled(e.over), files);
        s := Spool.Store(s.fst, s.lst, s.entries[nbr - arr.arrfst := Spool.Spilled(e.over)], files);
      }
    }

    /** The article, from here or else from the news server, whose answer is `reply`; what it
        sends is stored. asked: whether it had to be asked. */
    method GetArticle(nbr: nat, reply: Option<seq<byte>>) returns (art: Option<seq<byte>>, asked: bool)
      requires Valid()
      modifies this, arr, arr.c, arr.c.mem
      ensures Valid() && (arr.c.mem == old(arr.c.mem) || fresh(arr.c.mem))
      ensures Spool.Ok(old(s)) && s == Spool.GetArticle(old(s), nbr, reply, fmt)
      ensures asked <==> Spool.In(old(s), nbr) && Spool.Local(old(s), nbr).None?
      ensures art == if asked then reply else Spool.Local(old(s), nbr)
    {
      hide *;
      Parts();
      LocalIs(s, nbr);
      GetArticleIs(s, nbr, reply, fmt);
      asked := false;
      art := None;
      if arr.arrfst <= nbr <= arr.arrlst {
        var off, data := Lookup(nbr);
        if off != 0 {
          DataIs(Spool.EntryAt(s, nbr));
          KindsApart();
        }
        if off != 0 && data[0] == ARTICLE {
          art := Some(data[1..|data| - 1]);
        } else if off != 0 && data[0] == BIGARTICLE && nbr in files {
          var fs := new Stream(files[nbr]);
          var text := Readtext(fs);
          art := Some(text);
        } else {
          asked := true;
          art := reply;
          if reply.Some? {
            SetArticle(nbr, reply.value);
          }
        }
      }
    }

    /** One slot of the loops of setsize. */
    method DropSlot(i: nat, ghost e: Spool.Entry)
      requires arr.Valid() && i < |arr.a.slots| && Holds(arr.a.slots[i], e)
      modifies this`files, arr`a, arr.c, arr.c.mem
      ensures arr.Valid() && arr.c.mem == old(arr.c.mem) && i < |old(arr.a).slots|
      ensures arr.a == if e.Empty? then old(arr.a) else WithSlot(old(arr.a), i, Gone)
      ensures files == if e.Spilled? then old(files) - {arr.arrfst + i} else old(files)
    {
      hide *;
      arr.Parts();
      HoldsIs(arr.a.slots[i], e);
      SlotWord(arr.c.mem[..], arr.c.view.live, arr.a, i);
      var off := arr.c.mem[arr.arrtab + i];
      if off != 0 {
        ghost var d := arr.a.slots[i].data;
        ItemIn(arr.c.mem[..], arr.c.view.live, off, d);
        var data := LoadBytes(arr.c, off + 1, arr.c.mem[off], d);
        DataIs(e);
        if data[0] == BIGARTICLE {
          files := files - {arr.arrfst + i};
        }
        arr.FreeSlot(i);
      }
    }

    /** Moves the window. Dropped records are freed and their files removed; what is live
        afterwards is the new table and one block for each occupied slot. */
    method SetSize(f: nat, l: nat)
      requires Valid() && f <= l + 1
      modifies this, arr, arr.c, arr.c.mem
      ensures Valid() && (arr.c.mem == old(arr.c.mem) || fresh(arr.c.mem))
      ensures Spool.Ok(old(s)) && s == Spool.SetSize(old(s), f, l)
    {
      hide *;
      Parts();
      if f == arr.arrfst && l == arr.arrlst {
        SizeSame(s);
        return;
      }
      ghost var a0, s0 := arr.a, s;
      PurgedNone(a0, s0);
      var n := arr.arrlst - arr.arrfst + 1;
      var lo, from, i := 0, 0, 0;
      if arr.arrfst <= arr.arrlst {
        var n1 := f - arr.arrfst;
        if n < n1 {
          n1 := n;
        }
        while i < n1
          invariant 0 <= i && (i <= n1 || i == 0) && n1 <= n
          invariant arr.Valid() && arr.c.mem == old(arr.c.mem)
          invariant arr.arrfst == a0.fst && arr.arrlst == a0.lst && s == s0
          invariant arr.a == Purged(a0, i, 0, 0) && files == PurgedFiles(s0, i, 0, 0)
        {
          PurgeStep(a0, s0, i, 0, 0, i);
          DropSlot(i, s0.entries[i]);
          PurgeLow(a0, s0, i);
          i := i + 1;
        }
        lo := i;
        i := l - arr.arrfst + 1;
        if i < 0 {
          i := 0;
        }
        from := i;
        PurgeFrom(a0, s0, lo, from);
        n1 := arr.arrlst - arr.arrfst + 1;
        while i < n1
          invariant from <= i && (i <= n1 || i == from)
          invariant arr.Valid() && arr.c.mem == old(arr.c.mem)
          invariant arr.arrfst == a0.fst && arr.arrlst == a0.lst && s == s0
          invariant arr.a == Purged(a0, lo, from, i) && files == PurgedFiles(s0, lo, from, i)
        {
          PurgeStep(a0, s0, lo, from, i, i);
          DropSlot(i, s0.entries[i]);
          PurgeHigh(a0, s0, lo, from, i);
          i := i + 1;
        }
      }
      BoundsIs(a0, f, l, lo, from, i);
      PurgedAll(a0, s0, f, l, lo, from, i);
      arr.Ssetsize(f, l);
      s := Spool.SetSize(s, f, l);
      Whole();
    }
  }

  // ----- the slots and files that setsize has dropped so far -----

  /** The first lo slots, and those from `from` up to `to`. */
  predicate Cut(j: int, lo: nat, from: nat, to: nat) {
    j < lo || from <= j < to
  }

  function Purged(a: Arr, lo: nat, from: nat, to: nat): Arr {
    a.(slots := seq(|a.slots|, j requires 0 <= j < |a.slots| =>
      if a.slots[j].Held? && Cut(j, lo, from, to) then Gone else a.slots[j]))
  }

  function PurgedFiles(s: Spool.Store, lo: nat, from: nat, to: nat): map<nat, seq<byte>>
    requires Spool.Ok(s)
  {
    map n | n in s.files && !(Spool.EntryAt(s, n).Spilled? && Cut(n - s.fst, lo, from, to)) :: s.files[n]
  }

  lemma PurgedNone(a: Arr, s: Spool.Store)
    requires Spool.Ok(s) && Agree(a, s)
    ensures Purged(a, 0, 0, 0) == a && PurgedFiles(s, 0, 0, 0) == s.files
  {
    hide Agree;
    assert Purged(a, 0, 0, 0).slots == a.slots;
    forall n | n in s.files
      ensures n in PurgedFiles(s, 0, 0, 0)
    {
    }
  }

  lemma PurgeStep(a: Arr, s: Spool.Store, lo: nat, from: nat, to: nat, i: nat)
    requires Spool.Ok(s) && Agree(a, s) && i < |a.slots| && lo <= i && to <= i
    ensures |s.entries| == |a.slots| == |Purged(a, lo, from, to).slots| && a.fst == s.fst
    ensures Holds(Purged(a, lo, from, to).slots[i], s.entries[i])
  {
    hide Holds;
    HoldsAt(a, s, i);
  }

  lemma PurgeLow(a: Arr, s: Spool.Store, i: nat)
    requires Spool.Ok(s) && Agree(a, s) && i < |a.slots| == |s.entries| == |Purged(a, i, 0, 0).slots| && a.fst == s.fst
    ensures Purged(a, i + 1, 0, 0)
         == if s.entries[i].Empty? then Purged(a, i, 0, 0) else WithSlot(Purged(a, i, 0, 0), i, Gone)
    ensures PurgedFiles(s, i + 1, 0, 0)
         == if s.entries[i].Spilled? then PurgedFiles(s, i, 0, 0) - {a.fst + i} else PurgedFiles(s, i, 0, 0)
  {
    hide Agree, Data;
    HoldsAt(a, s, i);
    var p := Purged(a, i, 0, 0);
    assert Purged(a, i + 1, 0, 0).slots == if s.entries[i].Empty? then p.slots else p.slots[i := Gone];
  }

  lemma PurgeHigh(a: Arr, s: Spool.Store, lo: nat, from: nat, i: nat)
    requires Spool.Ok(s) && Agree(a, s) && from <= i && i < |a.slots| == |s.entries| == |Purged(a, lo, from, i).slots|
    requires a.fst == s.fst && lo <= i
    ensures Purged(a, lo, from, i + 1)
         == if s.entries[i].Empty? then Purged(a, lo, from, i) else WithSlot(Purged(a, lo, from, i), i, Gone)
    ensures PurgedFiles(s, lo, from, i + 1)
         == if s.entries[i].Spilled? then PurgedFiles(s, lo, from, i) - {a.fst + i} else PurgedFiles(s, lo, from, i)
  {
    hide Agree, Data;
    HoldsAt(a, s, i);
    var p := Purged(a, lo, from, i);
    assert Purged(a, lo, from, i + 1).slots == if s.entries[i].Empty? then p.slots else p.slots[i := Gone];
  }

  lemma PurgeFrom(a: Arr, s: Spool.Store, lo: nat, from: nat)
    requires Spool.Ok(s)
    ensures Purged(a, lo, from, from) == Purged(a, lo, 0, 0)
    ensures PurgedFiles(s, lo, from, from) == PurgedFiles(s, lo, 0, 0)
  {
    assert Purged(a, lo, from, from).slots == Purged(a, lo, 0, 0).slots;
  }

  /** The bounds of the two loops: f - fst but no more than the number of slots, and l - fst + 1
      up to that number. */
  predicate Bounds(a: Arr, f: nat, l: nat, lo: nat, from: nat, to: nat) {
    var n := |a.slots|;
    n == 0 ||
    (&& lo == (if f <= a.fst then 0 else if f - a.fst < n then f - a.fst else n)
     && from == (if l + 1 <= a.fst then 0 else l + 1 - a.fst)
     && to == (if from < n then n else from))
  }

  lemma BoundsIs(a: Arr, f: nat, l: nat, lo: nat, from: nat, to: nat)
    requires var n := |a.slots|;
      n == 0 ||
      (&& lo == (if f <= a.fst then 0 else if f - a.fst < n then f - a.fst else n)
       && from == (if l + 1 <= a.fst then 0 else l + 1 - a.fst)
       && to == (if from < n then n else from))
    ensures Bounds(a, f, l, lo, from, to)
  {
  }

  lemma BoundsCut(a: Arr, f: nat, l: nat, lo: nat, from: nat, to: nat, j: nat)
    requires Bounds(a, f, l, lo, from, to) && j < |a.slots| && f <= l + 1
    ensures Cut(j, lo, from, to) <==> !(f <= a.fst + j <= l)
  {
  }

  /** Everything outside the new window has been dropped, nothing inside it. */
  lemma PurgedAll(a: Arr, s: Spool.Store, f: nat, l: nat, lo: nat, from: nat, to: nat)
    requires f <= l + 1 && Bounds(a, f, l, lo, from, to) && Spool.Ok(s) && Agree(a, s)
    ensures var p := Purged(a, lo, from, to);
      && Fitting(p, f, l) && |p.slots| == p.lst + 1 - p.fst
      && forall tab :: Agree(Arr(tab, f, l, NewSlots(p, f, l)), Spool.SetSize(s, f, l))
    ensures Spool.SetSize(s, f, l).files == PurgedFiles(s, lo, from, to)
  {
    hide Data, Bounds, Cut, Holds;
    SameShape(a, s);
    var p, t := Purged(a, lo, from, to), Spool.SetSize(s, f, l);
    forall j: nat | j < |p.slots|
      ensures (p.slots[j].Held? ==> f <= p.fst + j <= l) && (p.slots[j].Gone? ==> !(f <= p.fst + j <= l))
    {
      BoundsCut(a, f, l, lo, from, to, j);
    }
    var slots := NewSlots(p, f, l);
    forall k: nat | k < |slots|
      ensures Holds(slots[k], t.entries[k])
    {
      if a.fst <= f + k <= a.lst {
        var j := f + k - a.fst;
        BoundsCut(a, f, l, lo, from, to, j);
        HoldsAt(a, s, j);
        assert slots[k] == p.slots[j] == a.slots[j];
        assert t.entries[k] == Spool.EntryAt(s, f + k) == s.entries[j];
      } else {
        assert slots[k] == Slot.Empty && t.entries[k] == Spool.EntryAt(s, f + k) == Spool.Entry.Empty;
        HoldsNone();
      }
    }
    forall n: nat | n in s.files
      ensures Spool.Dropped(s, f, l, n) <==> Spool.EntryAt(s, n).Spilled? && Cut(n - s.fst, lo, from, to)
    {
      if Spool.In(s, n) {
        BoundsCut(a, f, l, lo, from, to, n - s.fst);
      }
    }
  }

  lemma HoldsNone()
    ensures Holds(Empty, Spool.Empty)
  {
  }

  lemma SizeSame(s: Spool.Store)
    requires Spool.Ok(s) && s.fst <= s.lst + 1
    ensures Spool.SetSize(s, s.fst, s.lst) == s
  {
    var es := Spool.Window(s, s.fst, s.lst);
    assert |es| == |s.entries|;
    forall k: nat | k < |es|
      ensures es[k] == s.entries[k]
    {
      assert es[k] == Spool.EntryAt(s, s.fst + k);
    }
    assert Spool.SetSize(s, s.fst, s.lst).files == s.files;
  }

  lemma SlotTwice(a: Arr, i: nat, s: Slot)
    requires i < |a.slots|
    ensures |WithSlot(a, i, Gone).slots| == |a.slots| && WithSlot(WithSlot(a, i, Gone), i, s) == WithSlot(a, i, s)
  {
  }

  lemma KindsApart()
    ensures OVERVIEW != ARTICLE && ARTICLE != BIGARTICLE && BIGARTICLE != OVERVIEW
  {
  }

  lemma DataArticle(t: seq<byte>)
    ensures Data(Spool.Article(t)) == [ARTICLE] + t + [0]
  {
  }

  lemma DataSpilled(o: seq<byte>)
    ensures Data(Spool.Spilled(o)) == [BIGARTICLE] + o + [0]
  {
  }

  lemma LocalIs(s: Spool.Store, n: nat)
    requires Spool.Ok(s)
    ensures Spool.In(s, n) <==> s.fst <= n <= s.lst
    ensures !Spool.In(s, n) ==> Spool.EntryAt(s, n).Empty?
    ensures Spool.Local(s, n) ==
      match Spool.EntryAt(s, n)
      case Article(text) => Some(text)
      case Spilled(_) => if n in s.files then Some(ReadText(s.files[n])) else None
      case _ => None
  {
    hide ReadText;
  }

  lemma GetArticleIs(s: Spool.Store, n: nat, reply: Option<seq<byte>>, fmt: seq<byte> -> seq<byte>)
    requires Spool.Ok(s)
    ensures Spool.GetArticle(s, n, reply, fmt)
         == if Spool.In(s, n) && Spool.Local(s, n).None? && reply.Some? then Spool.SetArticle(s, n, reply.value, fmt)
            else s
  {
    hide Spool.Local, Spool.SetArticle;
  }

  lemma SetArticleIs(s: Spool.Store, n: nat, text: seq<byte>, fmt: seq<byte> -> seq<byte>)
    requires Spool.Ok(s)
    ensures |s.entries| == s.lst + 1 - s.fst
    ensures Spool.SetArticle(s, n, text, fmt) ==
      if !(s.fst <= n <= s.lst) then s
      else
        var e := s.entries[n - s.fst];
        if |text| <= Spool.LIMIT then Spool.Store(s.fst, s.lst, s.entries[n - s.fst := Spool.Article(text)], s.files)
        else Spool.Store(s.fst, s.lst,
               s.entries[n - s.fst := Spool.Spilled(if e.Overview? || e.Spilled? then e.over else fmt(text))],
               s.files[n := text])
  {
  }

  lemma EntryIs(s: Spool.Store, n: nat)
    requires Spool.Ok(s) && |s.entries| == s.lst + 1 - s.fst
    ensures Spool.EntryAt(s, n) == if s.fst <= n <= s.lst then s.entries[n - s.fst] else Spool.Empty
  {
  }

  lemma HoldsIs(s: Slot, e: Spool.Entry)
    requires Holds(s, e)
    ensures e.Empty? ==> s.Empty?
    ensures !e.Empty? ==> s.Held? && s.data == Data(e)
  {
    hide Data;
  }

  lemma DataOverview(o: seq<byte>)
    ensures Data(Spool.Overview(o)) == [OVERVIEW] + o + [0]
  {
  }

  lemma SetOverIs(s: Spool.Store, n: nat, over: seq<byte>)
    requires Spool.Ok(s)
    ensures |s.entries| == s.lst + 1 - s.fst
    ensures Spool.SetOver(s, n, over)
         == if s.fst <= n <= s.lst && s.entries[n - s.fst].Empty?
            then Spool.Store(s.fst, s.lst, s.entries[n - s.fst := Spool.Overview(over)], s.files) else s
  {
  }
}
