/** The active database as a map from group names to records, apart from how it is stored.
    NServer-0.9.1/NVActiveDB.cc: the hash, what sset does to the map, the two ends of a dump. */
module ActiveDB {
  import opened Bytes
  import opened Readline
  import opened GroupInfos
  import opened HashIterators

  const HASHSIZE: nat := 15013

  // ----- hash -----

  /** A char is signed, and is converted to unsigned long. */
  function Wide(b: byte): nat {
    if b < 128 then b else TWO64 - 256 + b
  }

  function HashStep(h: nat, p0: byte, p1: byte): (r: nat)
    ensures r < HASHSIZE
  {
    (h * Wide(p0) + Wide(p1)) % TWO64 % HASHSIZE
  }

  /** Two characters a step; the NUL takes part when their number is odd. */
  function HashFrom(h: nat, s: seq<byte>): nat
    decreases |s|
  {
    if s == [] then h
    else if |s| == 1 then HashStep(h, s[0], 0)
    else HashFrom(HashStep(h, s[0], s[1]), s[2..])
  }

  function Hash(name: seq<byte>): nat {
    HashFrom(1, name)
  }

  lemma {:induction false} HashRange(h: nat, s: seq<byte>)
    requires h < HASHSIZE
    ensures HashFrom(h, s) < HASHSIZE
    decreases |s|
  {
    if |s| > 1 {
      HashRange(HashStep(h, s[0], s[1]), s[2..]);
    }
  }

  /** A char of the source: from -128 up to 127. */
  function Signed(b: byte): int {
    if b <= 127 then b else b - 256
  }

  /** From the end: each two characters more multiply the hash by the first of them and add the
      second, as signed characters in 64 bits. */
  lemma {:induction false} HashAppend(h: nat, s: seq<byte>, a: byte, b: byte)
    requires |s| % 2 == 0
    ensures HashFrom(h, s + [a, b])
         == (HashFrom(h, s) * Signed(a) + Signed(b)) % 0x1_0000_0000_0000_0000 % 15013
    ensures HashFrom(h, s + [a]) == HashFrom(h, s) * Signed(a) % 0x1_0000_0000_0000_0000 % 15013
    ensures HashFrom(h, []) == h && Hash([]) == 1
    decreases |s|
  {
    hide HashStep;
    if s == [] {
      assert s + [a, b] == [a, b] && [a, b][2..] == [] && s + [a] == [a];
      StepIs(h, a, b);
      StepIs(h, a, 0);
    } else {
      HashAppend(HashStep(h, s[0], s[1]), s[2..], a, b);
      assert (s + [a, b])[2..] == s[2..] + [a, b] && (s + [a])[2..] == s[2..] + [a];
    }
  }

  lemma StepIs(h: nat, a: byte, b: byte)
    ensures HashStep(h, a, b) == (h * Signed(a) + Signed(b)) % TWO64 % HASHSIZE
  {
    var ka, kb := (if a < 128 then 0 else 1), if b < 128 then 0 else 1;
    assert Wide(a) == Signed(a) + TWO64 * ka && Wide(b) == Signed(b) + TWO64 * kb;
    Distribute(h, Signed(a), ka);
    Wraps(h * Signed(a) + Signed(b), h * ka + kb);
  }

  lemma Distribute(h: nat, x: int, k: nat)
    ensures h * (x + TWO64 * k) == h * x + TWO64 * (h * k)
  {
  }

  lemma Wraps(x: int, k: nat)
    ensures (x + TWO64 * k) % TWO64 == x % TWO64
  {
  }

  method HashOf(strg: seq<byte>) returns (h: nat)
    requires 0 !in strg
    ensures h == Hash(strg) < HASHSIZE
  {
    h := 1;
    var p := 0;
    while At(strg, p) != 0
      invariant p <= |strg| && h < HASHSIZE && HashFrom(h, strg[p..]) == Hash(strg)
      decreases |strg| - p
    {
      h := HashStep(h, strg[p], At(strg, p + 1));
      if At(strg, p + 1) == 0 {
        return;
      }
      p := p + 2;
    }
  }

  // ----- the map -----

  type Db = map<seq<byte>, Info>

  ghost predicate DbOk(db: Db) {
    forall n :: n in db ==> db[n].name == n && Fits(db[n])
  }

  /** sset: an update keeps the creation time. */
  function Sset(db: Db, g: Info, now: nat, updateOnly: bool): Db {
    if g.name in db then db[g.name := g.(ctime := db[g.name].ctime)]
    else if updateOnly then db
    else db[g.name := g.(ctime := now)]
  }

  /** sset drops nothing, touches no other group, keeps the creation time of a known group and
      adds a group only without update_only. */
  lemma SsetKeeps(db: Db, g: Info, now: nat, updateOnly: bool)
    requires DbOk(db) && Fits(g) && now < TWO64
    ensures var d := Sset(db, g, now, updateOnly);
      && DbOk(d) && db.Keys <= d.Keys <= db.Keys + {g.name}
      && (forall n :: n in db && n != g.name ==> d[n] == db[n])
      && (g.name in d <==> g.name in db || !updateOnly)
      && (g.name in db ==> d[g.name] == g.(ctime := db[g.name].ctime))
      && (g.name !in db && !updateOnly ==> d[g.name] == g.(ctime := now))
  {
  }

  // ----- how the map lies in the buckets -----

  /** content: the data of the records, bucket by bucket. Each group is stored once, in the
      bucket its name hashes to. */
  ghost predicate Stored(content: seq<seq<seq<byte>>>, db: Db) {
    && |content| == HASHSIZE
    && (forall h, k :: 0 <= h < |content| && 0 <= k < |content[h]| ==> Entry(content[h][k], h, db))
    && (forall h, k, j :: 0 <= h < |content| && 0 <= k < j < |content[h]| ==>
          RawName(content[h][k]) != RawName(content[h][j]))
    && (forall n :: n in db ==> Hash(n) < HASHSIZE && Listed(content[Hash(n)], n))
  }

  ghost predicate Entry(d: seq<byte>, h: nat, db: Db) {
    var n := RawName(d);
    n in db && d == Raw(db[n]) && db[n].name == n && Fits(db[n]) && Hash(n) == h
  }

  ghost predicate Listed(bucket: seq<seq<byte>>, n: seq<byte>) {
    exists k :: 0 <= k < |bucket| && RawName(bucket[k]) == n
  }

  lemma StoredNone(content: seq<seq<seq<byte>>>)
    requires |content| == HASHSIZE && forall h :: 0 <= h < HASHSIZE ==> content[h] == []
    ensures Stored(content, map[])
  {
  }

  lemma StoredOk(content: seq<seq<seq<byte>>>, db: Db)
    requires Stored(content, db)
    ensures DbOk(db)
  {
    forall n | n in db
      ensures db[n].name == n && Fits(db[n])
    {
      var k :| 0 <= k < |content[Hash(n)]| && RawName(content[Hash(n)][k]) == n;
      assert Entry(content[Hash(n)][k], Hash(n), db);
    }
  }

  /** A name that no record of its bucket has is not in the map. */
  lemma NotStored(content: seq<seq<seq<byte>>>, db: Db, n: seq<byte>)
    requires Stored(content, db) && Hash(n) < HASHSIZE
    requires forall k :: 0 <= k < |content[Hash(n)]| ==> RawName(content[Hash(n)][k]) != n
    ensures n !in db
  {
  }

  lemma StoredAt(content: seq<seq<seq<byte>>>, db: Db, h: nat, k: nat)
    requires Stored(content, db) && h < |content| && k < |content[h]|
    ensures Entry(content[h][k], h, db)
  {
  }

  lemma StoredAdd(content: seq<seq<seq<byte>>>, db: Db, g: Info)
    requires Stored(content, db) && Fits(g) && g.name !in db && Hash(g.name) < HASHSIZE
    ensures Stored(content[Hash(g.name) := [Raw(g)] + content[Hash(g.name)]], db[g.name := g])
  {
    hide Raw, RawName, Fits, HashFrom;
    var h, d := Hash(g.name), db[g.name := g];
    var c := content[h := [Raw(g)] + content[h]];
    RawRoundTrip(g);
    forall i, k | 0 <= i < |c| && 0 <= k < |c[i]|
      ensures Entry(c[i][k], i, d)
    {
      if i != h || k > 0 {
        assert Entry(content[i][if i == h then k - 1 else k], i, db);
      }
    }
    forall i, k, j | 0 <= i < |c| && 0 <= k < j < |c[i]|
      ensures RawName(c[i][k]) != RawName(c[i][j])
    {
      if i == h {
        assert Entry(content[i][j - 1], i, db);
        assert k > 0 ==> RawName(content[i][k - 1]) != RawName(content[i][j - 1]);
      }
    }
    forall n | n in d
      ensures Hash(n) < HASHSIZE && Listed(c[Hash(n)], n)
    {
      if n == g.name {
        assert RawName(c[h][0]) == n;
      } else {
        ListedStill(content, db, n, h, Raw(g));
      }
    }
  }

  lemma ListedStill(content: seq<seq<seq<byte>>>, db: Db, n: seq<byte>, h: nat, d: seq<byte>)
    requires Stored(content, db) && n in db && h < |content|
    ensures Hash(n) < HASHSIZE && Listed(content[h := [d] + content[h]][Hash(n)], n)
  {
    hide RawName, HashFrom;
    var b, c := content[Hash(n)], content[h := [d] + content[h]];
    var k :| 0 <= k < |b| && RawName(b[k]) == n;
    assert c[Hash(n)][if Hash(n) == h then k + 1 else k] == b[k];
  }

  lemma StoredUpdate(content: seq<seq<seq<byte>>>, db: Db, g: Info, h: nat, k: nat)
    requires Stored(content, db) && Fits(g) && h < |content| && k < |content[h]| && RawName(content[h][k]) == g.name
    ensures g.name in db && h == Hash(g.name) && |Raw(g)| == |content[h][k]|
    ensures Stored(content[h := content[h][k := Raw(g)]], db[g.name := g])
  {
    hide Raw, RawName, Fits, HashFrom;
    assert Entry(content[h][k], h, db);
    var d, c := db[g.name := g], content[h := content[h][k := Raw(g)]];
    RawRoundTrip(g);
    forall i, j | 0 <= i < |c| && 0 <= j < |c[i]|
      ensures Entry(c[i][j], i, d) && RawName(c[i][j]) == RawName(content[i][j])
    {
      assert Entry(content[i][j], i, db);
      if i == h && j != k {
        assert j < k ==> RawName(content[i][j]) != RawName(content[i][k]);
        assert k < j ==> RawName(content[i][k]) != RawName(content[i][j]);
      }
    }
    forall i, a, j | 0 <= i < |c| && 0 <= a < j < |c[i]|
      ensures RawName(c[i][a]) != RawName(c[i][j])
    {
      assert RawName(content[i][a]) != RawName(content[i][j]);
    }
    forall n | n in d
      ensures Hash(n) < HASHSIZE && Listed(c[Hash(n)], n)
    {
      var j :| 0 <= j < |content[Hash(n)]| && RawName(content[Hash(n)][j]) == n;
      assert RawName(c[Hash(n)][j]) == n;
    }
  }

  // ----- the records in the order of the buckets -----

  function Infos(raws: seq<seq<byte>>): (gs: seq<Info>)
    requires forall x :: 0 <= x < |raws| ==> |raws[x]| >= 30
    ensures |gs| == |raws| && forall x :: 0 <= x < |gs| ==> gs[x] == FromRaw(raws[x])
  {
    if raws == [] then [] else Infos(raws[..|raws| - 1]) + [FromRaw(raws[|raws| - 1])]
  }

  /** gs lists the groups of db, each once. */
  ghost predicate Enumerates(gs: seq<Info>, db: Db) {
    && (forall x :: 0 <= x < |gs| ==> gs[x].name in db && db[gs[x].name] == gs[x])
    && Distinct(gs)
    && (forall n :: n in db ==> Named(gs, n))
  }

  lemma FlatSizes(content: seq<seq<seq<byte>>>, db: Db)
    requires Stored(content, db)
    ensures forall x :: 0 <= x < |Flat(content)| ==> |Flat(content)[x]| >= 30
  {
    hide Raw, RawName, Fits, HashFrom;
    forall x | 0 <= x < |Flat(content)|
      ensures |Flat(content)[x]| >= 30
    {
      var h, k := FlatFrom(content, x);
      FlatAt(content, h, k);
      assert Entry(content[h][k], h, db);
    }
  }

  lemma FlatEntry(content: seq<seq<seq<byte>>>, db: Db, x: nat)
    requires Stored(content, db) && x < |Flat(content)|
    ensures |Flat(content)[x]| >= 30
    ensures var g := FromRaw(Flat(content)[x]); g.name in db && db[g.name] == g
  {
    hide Raw, RawName, Fits, HashFrom;
    var h, k := FlatFrom(content, x);
    FlatAt(content, h, k);
    assert Entry(content[h][k], h, db);
    RawRoundTrip(db[RawName(content[h][k])]);
  }

  lemma FlatNames(content: seq<seq<seq<byte>>>, db: Db, x: nat, y: nat)
    requires Stored(content, db) && x < y < |Flat(content)|
    ensures RawName(Flat(content)[x]) != RawName(Flat(content)[y])
  {
    hide Raw, RawName, Fits, HashFrom, Flat;
    var h, k := FlatFrom(content, x);
    var i, j := FlatFrom(content, y);
    FlatAt(content, h, k);
    FlatAt(content, i, j);
    assert Entry(content[h][k], h, db) && Entry(content[i][j], i, db);
    assert h == i ==> k < j;
  }

  /** The bucket order lists every group of the map exactly once. */
  lemma FlatEnumerates(content: seq<seq<seq<byte>>>, db: Db)
    requires Stored(content, db)
    requires forall x :: 0 <= x < |Flat(content)| ==> |Flat(content)[x]| >= 30
    ensures Enumerates(Infos(Flat(content)), db)
  {
    hide Raw, RawName, Fits, HashFrom, Flat, Infos, PackWord, Stored, Named;
    var gs := Infos(Flat(content));
    forall x | 0 <= x < |gs|
      ensures gs[x].name in db && db[gs[x].name] == gs[x]
    {
      FlatEntry(content, db, x);
    }
    forall x, y | 0 <= x < y < |gs|
      ensures gs[x].name != gs[y].name
    {
      FlatNames(content, db, x, y);
    }
    forall n | n in db
      ensures Named(gs, n)
    {
      FlatNamed(content, db, n);
    }
  }

  lemma FlatNamed(content: seq<seq<seq<byte>>>, db: Db, n: seq<byte>)
    requires Stored(content, db) && n in db
    requires forall x :: 0 <= x < |Flat(content)| ==> |Flat(content)[x]| >= 30
    ensures Named(Infos(Flat(content)), n)
  {
    hide Raw, RawName, Fits, HashFrom, Flat, Infos, PackWord, Entry;
    var gs := Infos(Flat(content));
    var k :| 0 <= k < |content[Hash(n)]| && RawName(content[Hash(n)][k]) == n;
    FlatAt(content, Hash(n), k);
    assert gs[|Flat(content[..Hash(n)])| + k].name == n;
  }

  // ----- write -----

  datatype Mode = Active | Times

  const NEWS: seq<byte> := [110, 101, 119, 115]

  function Line(g: Info, mode: Mode): seq<byte> {
    match mode
    case Active => Print(g) + [CR, NL]
    case Times => g.name + [SPACE] + Dec(g.ctime) + [SPACE] + NEWS + [CR, NL]
  }

  predicate Chosen(g: Info, since: nat, pick: seq<byte> -> bool) {
    pick(g.name) && since < g.ctime
  }

  function Dump(gs: seq<Info>, since: nat, mode: Mode, pick: seq<byte> -> bool): seq<byte> {
    if gs == [] then []
    else
      Dump(gs[..|gs| - 1], since, mode, pick)
      + if Chosen(gs[|gs| - 1], since, pick) then Line(gs[|gs| - 1], mode) else []
  }

  // ----- read -----

  /** A list as the server sends it: lines with white space in them, closed by a lone dot.
      Other text makes set() read past the end of the line. */
  predicate Listing(text: seq<byte>)
    decreases |text|
  {
    var e := LineEnd(text);
    e < |text| && (Strip(text[..e]) == DOT || (Scannable(Strip(text[..e])) && Listing(text[e + 1..])))
  }

  /** What read() makes of the list; clock(i) is the time when line i is stored. The flag of the
      result is false when set() refuses a line, which ends read() there. */
  function ReadAll(text: seq<byte>, db: Db, take: seq<byte> -> bool, readOnly: bool, clock: nat -> nat, i: nat)
    : (Db, bool)
    requires Listing(text)
    decreases |text|
  {
    var e := LineEnd(text);
    var line, rest := Strip(text[..e]), text[e + 1..];
    if line == DOT then (db, true)
    else if !take(line) then ReadAll(rest, db, take, readOnly, clock, i + 1)
    else
      match Parse(line, 0, clock(i))
      case Ok(g) =>
        var f := if readOnly then g.(flag := 'n' as int) else g;
        ReadAll(rest, Sset(db, f, clock(i), false), take, readOnly, clock, i + 1)
      case _ => (db, false)
  }

  // ----- a dump reads back -----

  /** The groups a dump since the given time holds, in order. */
  function Newer(gs: seq<Info>, since: nat, pick: seq<byte> -> bool): seq<Info> {
    if gs == [] then []
    else
      var g := gs[|gs| - 1];
      Newer(gs[..|gs| - 1], since, pick) + if since < g.ctime && pick(g.name) then [g] else []
  }

  /** The lines of a list of groups, from the front as read() meets them. */
  function Lines(gs: seq<Info>, mode: Mode): seq<byte> {
    if gs == [] then [] else Line(gs[0], mode) + Lines(gs[1..], mode)
  }

  lemma {:induction false} LinesSnoc(gs: seq<Info>, g: Info, mode: Mode)
    ensures Lines(gs + [g], mode) == Lines(gs, mode) + Line(g, mode)
  {
    if gs == [] {
      assert (gs + [g])[1..] == [];
    } else {
      assert (gs + [g])[1..] == gs[1..] + [g];
      LinesSnoc(gs[1..], g, mode);
    }
  }

  /** A dump is the lines of those groups that are newer and picked, in either mode. */
  lemma {:induction false} DumpLines(gs: seq<Info>, since: nat, mode: Mode, pick: seq<byte> -> bool)
    ensures Dump(gs, since, mode, pick) == Lines(Newer(gs, since, pick), mode)
  {
    hide Line;
    if gs != [] {
      DumpLines(gs[..|gs| - 1], since, mode, pick);
      var front, g := Newer(gs[..|gs| - 1], since, pick), gs[|gs| - 1];
      LinesSnoc(front, g, mode);
      assert front + [] == front;
    }
  }

  /** A line of the list of creation times: the name, the time as strtol reads it, and " news". */
  lemma TimesLine(g: Info)
    requires g.ctime < 0x8000_0000_0000_0000
    ensures var s, n := Line(g, Times), |g.name|;
      && n <= |s| && s[..n] == g.name && Strtol(s, n).0 == g.ctime
      && s[Strtol(s, n).1..] == [32, 110, 101, 119, 115, 13, 10]
  {
    hide Dec, Strtol;
    var s, n, ds := Line(g, Times), |g.name|, Dec(g.ctime);
    assert s[n + 1..n + 1 + |ds|] == ds && ds[0..] == ds;
    assert s[n + 1] == ds[0] && IsDigit(ds[0]);
    StrtolIs(s, n, n + 1, n + 1, n + 1 + |ds|, g.ctime);
  }

  /** What storing the reread groups leaves in the map. */
  function Loaded(gs: seq<Info>, db: Db, take: seq<byte> -> bool, readOnly: bool, clock: nat -> nat, i: nat): Db
    decreases |gs|
  {
    if gs == [] then db
    else if !take(Print(gs[0])) then Loaded(gs[1..], db, take, readOnly, clock, i + 1)
    else Loaded(gs[1..], Sset(db, Again(gs[0], readOnly, clock(i)), clock(i), false), take, readOnly, clock, i + 1)
  }

  /** A group as it is read from its line. */
  function Again(g: Info, readOnly: bool, now: nat): Info {
    Info(0, now, g.fst, g.lst, Count(g.fst, g.lst), if readOnly then 'n' as int else g.flag, g.name)
  }

  lemma PrintedLine(g: Info, rest: seq<byte>)
    requires Fits(g) && Printable(g)
    ensures var text := Line(g, Active) + rest;
      var e := LineEnd(text);
      && e < |text| && Strip(text[..e]) == Print(g) && text[e + 1..] == rest && Print(g) != DOT
  {
    hide Dec, LineEnd, Strip, Scannable;
    var line := Print(g);
    var text := Line(g, Active) + rest;
    NoNewline(g);
    assert text == (line + [CR]) + [NL] + rest;
    LineEndIs(line + [CR], rest);
    assert text[..|line| + 1] == line + [CR];
    StripCr(line);
    assert |line| > 1;
  }

  lemma NoNewline(g: Info)
    requires Printable(g)
    ensures var s := Print(g); |s| > 1 && NL !in s + [CR] && s[|s| - 1] != CR && s[|s| - 1] != NL
  {
    hide Dec;
    assert IsSpace(NL) && IsSpace(CR) && !IsDigit(NL);
    assert NL !in g.name;
    var a := g.name + [SPACE] + Dec(g.lst);
    assert NL !in Dec(g.lst);
    assert NL !in a;
    assert NL !in Dec(g.fst);
    var b := a + [SPACE] + Dec(g.fst);
    assert NL !in b;
    assert Print(g) == b + [SPACE] + [g.flag] && g.flag != NL;
    assert NL !in Print(g);
    assert NL !in Print(g) + [CR];
  }

  /** read() goes through the lines of printable groups one by one, whatever follows them. */
  lemma {:induction false} ReadLines(gs: seq<Info>, more: seq<byte>, db: Db, take: seq<byte> -> bool, readOnly: bool,
                                     clock: nat -> nat, i: nat)
    requires Listing(more) && forall x :: 0 <= x < |gs| ==> Fits(gs[x]) && Printable(gs[x])
    ensures Listing(Lines(gs, Active) + more)
    ensures ReadAll(Lines(gs, Active) + more, db, take, readOnly, clock, i)
         == ReadAll(more, Loaded(gs, db, take, readOnly, clock, i), take, readOnly, clock, i + |gs|)
    ensures Behind(Lines(gs, Active) + more) == Behind(more)
    decreases |gs|
  {
    hide Line, Print, Parse, LineEnd, Strip, Fits, Printable, Scannable, Sset, Listing, ReadAll, Behind;
    var text := Lines(gs, Active) + more;
    if gs == [] {
      assert text == more;
    } else {
      var rest := Lines(gs[1..], Active) + more;
      assert text == Line(gs[0], Active) + rest;
      var now := clock(i);
      var next := if take(Print(gs[0])) then Sset(db, Again(gs[0], readOnly, now), now, false) else db;
      ReadLines(gs[1..], more, next, take, readOnly, clock, i + 1);
      ReadOne(gs[0], rest, db, take, readOnly, clock, i);
    }
  }

  lemma ReadOne(g: Info, rest: seq<byte>, db: Db, take: seq<byte> -> bool, readOnly: bool, clock: nat -> nat, i: nat)
    requires Fits(g) && Printable(g) && Listing(rest)
    ensures var text := Line(g, Active) + rest;
      && Listing(text) && Behind(text) == Behind(rest)
      && ReadAll(text, db, take, readOnly, clock, i)
         == ReadAll(rest, if take(Print(g)) then Sset(db, Again(g, readOnly, clock(i)), clock(i), false) else db,
                    take, readOnly, clock, i + 1)
  {
    hide Line, Print, Parse, LineEnd, Strip, Fits, Printable, Scannable, Sset;
    PrintedLine(g, rest);
    ParsedLine(g, clock(i));
  }

  /** The dot ends the list, whatever follows. */
  lemma ReadDot(rest: seq<byte>, db: Db, take: seq<byte> -> bool, readOnly: bool, clock: nat -> nat, i: nat)
    ensures var text := DOT + [CR, NL] + rest;
      Listing(text) && ReadAll(text, db, take, readOnly, clock, i) == (db, true) && Behind(text) == rest
  {
    hide LineEnd, Strip;
    var text := DOT + [CR, NL] + rest;
    assert text == DOT + [CR] + [NL] + rest;
    LineEndIs(DOT + [CR], rest);
    StripCr(DOT);
    assert text[..2] == DOT + [CR] && text[3..] == rest;
  }

  /** A line that set() refuses ends it as well: what was read before it stays. */
  lemma ReadRefused(gs: seq<Info>, line: seq<byte>, rest: seq<byte>, db: Db, take: seq<byte> -> bool, readOnly: bool,
                    clock: nat -> nat, i: nat)
    requires forall x :: 0 <= x < |gs| ==> Fits(gs[x]) && Printable(gs[x])
    requires NL !in line && (line != [] ==> line[|line| - 1] != CR) && line != DOT && take(line)
    requires Scannable(line) && !Parse(line, 0, clock(i + |gs|)).Ok? && Listing(rest)
    ensures var text := Lines(gs, Active) + (line + [CR, NL] + rest);
      && Listing(text)
      && ReadAll(text, db, take, readOnly, clock, i) == (Loaded(gs, db, take, readOnly, clock, i), false)
  {
    hide LineEnd, Strip, Scannable, Parse, Fits, Printable, Lines, Loaded, Listing, ReadAll;
    var more := line + [CR, NL] + rest;
    RefusedLine(line, rest, Loaded(gs, db, take, readOnly, clock, i), take, readOnly, clock, i + |gs|);
    ReadLines(gs, more, db, take, readOnly, clock, i);
  }

  lemma RefusedLine(line: seq<byte>, rest: seq<byte>, db: Db, take: seq<byte> -> bool, readOnly: bool,
                    clock: nat -> nat, i: nat)
    requires NL !in line && (line != [] ==> line[|line| - 1] != CR) && line != DOT && take(line)
    requires Scannable(line) && !Parse(line, 0, clock(i)).Ok? && Listing(rest)
    ensures var more := line + [CR, NL] + rest;
      Listing(more) && ReadAll(more, db, take, readOnly, clock, i) == (db, false)
  {
    hide LineEnd, Strip, Scannable, Parse;
    LineParts(line, rest);
  }

  lemma LineParts(line: seq<byte>, rest: seq<byte>)
    requires NL !in line && (line != [] ==> line[|line| - 1] != CR)
    ensures var s := line + [CR, NL] + rest;
      var e := LineEnd(s);
      e < |s| && Strip(s[..e]) == line && s[e + 1..] == rest
  {
    hide LineEnd, Strip;
    var s := line + [CR, NL] + rest;
    assert s == (line + [CR]) + [NL] + rest;
    LineEndIs(line + [CR], rest);
    StripCr(line);
    assert s[..|line| + 1] == line + [CR];
  }

  lemma ParsedLine(g: Info, now: nat)
    requires Fits(g) && Printable(g)
    ensures Scannable(Print(g))
    ensures Parse(Print(g), 0, now) == Ok(Info(0, now, g.fst, g.lst, Count(g.fst, g.lst), g.flag, g.name))
  {
    hide Print, Parse, Scannable;
    PrintParse(g, 0, now);
  }

  ghost predicate Named(gs: seq<Info>, n: seq<byte>) {
    exists x :: 0 <= x < |gs| && gs[x].name == n
  }

  ghost predicate Distinct(gs: seq<Info>) {
    forall x, y :: 0 <= x < y < |gs| ==> gs[x].name != gs[y].name
  }

  /** A group of that name whose line is taken. */
  ghost predicate Taken(gs: seq<Info>, take: seq<byte> -> bool, n: seq<byte>) {
    exists x :: 0 <= x < |gs| && gs[x].name == n && take(Print(gs[x]))
  }

  lemma {:induction false} LoadedNames(gs: seq<Info>, db: Db, take: seq<byte> -> bool, readOnly: bool,
                                       clock: nat -> nat, i: nat, n: seq<byte>)
    ensures var d := Loaded(gs, db, take, readOnly, clock, i);
      && (n in d <==> n in db || Taken(gs, take, n))
      && (n in db && !Named(gs, n) ==> n in d && d[n] == db[n])
    decreases |gs|
  {
    hide Print, Named, Taken;
    if gs != [] {
      var next := if take(Print(gs[0])) then Sset(db, Again(gs[0], readOnly, clock(i)), clock(i), false) else db;
      LoadedNames(gs[1..], next, take, readOnly, clock, i + 1, n);
      NamedFirst(gs, take, n);
    } else {
      NamedNone(take, n);
    }
  }

  lemma NamedNone(take: seq<byte> -> bool, n: seq<byte>)
    ensures !Named([], n) && !Taken([], take, n)
  {
  }

  lemma NamedFirst(gs: seq<Info>, take: seq<byte> -> bool, n: seq<byte>)
    requires gs != []
    ensures Named(gs, n) <==> gs[0].name == n || Named(gs[1..], n)
    ensures Taken(gs, take, n) <==> (gs[0].name == n && take(Print(gs[0]))) || Taken(gs[1..], take, n)
  {
    hide Print;
    assert forall x :: 0 < x < |gs| ==> gs[x] == gs[1..][x - 1];
    assert forall x :: 0 <= x < |gs[1..]| ==> gs[1..][x] == gs[x + 1];
  }

  /** d is what a database has of group g after it was read from g's line. */
  ghost predicate Reread(d: Info, g: Info, readOnly: bool, clock: nat -> nat) {
    && d.name == g.name && d.fst == g.fst && d.lst == g.lst
    && d.n == (if g.fst > g.lst then 0 else (g.lst - g.fst + 1) % TWO32)
    && d.flag == (if readOnly then 'n' as int else g.flag)
    && exists i :: d.ctime == d.mtime == clock(i)
  }

  lemma {:induction false} LoadedSame(gs: seq<Info>, db: Db, take: seq<byte> -> bool, readOnly: bool,
                                      clock: nat -> nat, i: nat, x: nat)
    requires Distinct(gs) && x < |gs| && take(Print(gs[x])) && gs[x].name !in db
    ensures var d := Loaded(gs, db, take, readOnly, clock, i);
      gs[x].name in d && Reread(d[gs[x].name], gs[x], readOnly, clock)
    decreases |gs|
  {
    hide Print, Reread;
    var g := Again(gs[0], readOnly, clock(i));
    var next := if take(Print(gs[0])) then Sset(db, g, clock(i), false) else db;
    if x == 0 {
      LoadedNames(gs[1..], next, take, readOnly, clock, i + 1, gs[0].name);
      AgainIs(gs[0], readOnly, clock, i);
    } else {
      LoadedSame(gs[1..], next, take, readOnly, clock, i + 1, x - 1);
    }
  }

  lemma AgainIs(g: Info, readOnly: bool, clock: nat -> nat, i: nat)
    ensures Reread(Again(g, readOnly, clock(i)).(ctime := clock(i)), g, readOnly, clock)
  {
  }

  lemma {:induction false} NewerOf(gs: seq<Info>, since: nat, pick: seq<byte> -> bool)
    ensures forall g :: g in Newer(gs, since, pick) <==> g in gs && since < g.ctime && pick(g.name)
    ensures Distinct(gs) ==> Distinct(Newer(gs, since, pick))
  {
    if gs != [] {
      NewerOf(gs[..|gs| - 1], since, pick);
      assert gs == gs[..|gs| - 1] + [gs[|gs| - 1]];
      var front := Newer(gs[..|gs| - 1], since, pick);
      forall x | 0 <= x < |front|
        ensures exists y :: 0 <= y < |gs| - 1 && gs[y] == front[x]
      {
        assert front[x] in gs[..|gs| - 1];
      }
    }
  }

  /** gs written from the time `since` on for the names that are picked, closed by a dot and read
      into an empty database, gives exactly the groups of db that are newer, picked and taken, each
      with the numbers and the flag it had. What follows the dot stays in the stream. */
  ghost predicate DumpRereads(gs: seq<Info>, db: Db, since: nat, pick: seq<byte> -> bool, take: seq<byte> -> bool,
                              readOnly: bool, clock: nat -> nat) {
    forall rest ::
      var text := Dump(gs, since, Active, pick) + (DOT + [CR, NL] + rest);
      && Listing(text) && Behind(text) == rest
      && var (d, ok) := ReadAll(text, map[], take, readOnly, clock, 0);
      && ok && (forall n :: n in d <==> n in db && since < db[n].ctime && pick(n) && take(Print(db[n])))
      && (forall n :: n in d ==> Reread(d[n], db[n], readOnly, clock))
  }

  ghost predicate AllPrintable(db: Db) {
    forall n :: n in db ==> Printable(db[n])
  }

  lemma DumpThenRead(content: seq<seq<seq<byte>>>, db: Db, since: nat, pick: seq<byte> -> bool,
                     take: seq<byte> -> bool, readOnly: bool, clock: nat -> nat)
    requires Stored(content, db) && AllPrintable(db)
    ensures forall x :: 0 <= x < |Flat(content)| ==> |Flat(content)[x]| >= 30
    ensures DumpRereads(Infos(Flat(content)), db, since, pick, take, readOnly, clock)
  {
    hide Stored, Flat, Infos, Printable, Fits, DumpRereads, Distinct, Named;
    FlatSizes(content, db);
    FlatEnumerates(content, db);
    StoredOk(content, db);
    DumpThenReadList(Infos(Flat(content)), db, since, pick, take, readOnly, clock);
  }

  /** The same for any list of the groups of db. */
  lemma DumpThenReadList(gs: seq<Info>, db: Db, since: nat, pick: seq<byte> -> bool, take: seq<byte> -> bool,
                         readOnly: bool, clock: nat -> nat)
    requires Enumerates(gs, db) && DbOk(db) && AllPrintable(db)
    ensures DumpRereads(gs, db, since, pick, take, readOnly, clock)
  {
    hide Dump, Lines, Newer, Listing, ReadAll, Loaded, Printable, Fits, Reread, Behind, Print;
    var ns := Newer(gs, since, pick);
    DumpLines(gs, since, Active, pick);
    NewerOf(gs, since, pick);
    forall x | 0 <= x < |ns|
      ensures Fits(ns[x]) && Printable(ns[x])
    {
      assert ns[x] in gs;
    }
    var d := Loaded(ns, map[], take, readOnly, clock, 0);
    forall n
      ensures n in d <==> n in db && since < db[n].ctime && pick(n) && take(Print(db[n]))
      ensures n in d ==> Reread(d[n], db[n], readOnly, clock)
    {
      LoadedNewer(gs, db, since, pick, take, readOnly, clock, n);
    }
    forall rest
      ensures var text := Lines(ns, Active) + (DOT + [CR, NL] + rest);
        Listing(text) && Behind(text) == rest && ReadAll(text, map[], take, readOnly, clock, 0) == (d, true)
    {
      ReadDot(rest, d, take, readOnly, clock, |ns|);
      ReadLines(ns, DOT + [CR, NL] + rest, map[], take, readOnly, clock, 0);
    }
  }

  lemma LoadedNewer(gs: seq<Info>, db: Db, since: nat, pick: seq<byte> -> bool, take: seq<byte> -> bool,
                    readOnly: bool, clock: nat -> nat, n: seq<byte>)
    requires Enumerates(gs, db)
    ensures var d := Loaded(Newer(gs, since, pick), map[], take, readOnly, clock, 0);
      && (n in d <==> n in db && since < db[n].ctime && pick(n) && take(Print(db[n])))
      && (n in d ==> Reread(d[n], db[n], readOnly, clock))
  {
    hide Newer, Loaded, Reread, Print;
    var ns := Newer(gs, since, pick);
    NewerOf(gs, since, pick);
    LoadedNames(ns, map[], take, readOnly, clock, 0, n);
    if n in db && since < db[n].ctime && pick(n) {
      var x :| 0 <= x < |gs| && gs[x].name == n;
      assert gs[x] in ns;
    }
    if Taken(ns, take, n) {
      var x :| 0 <= x < |ns| && ns[x].name == n && take(Print(ns[x]));
      assert ns[x] in gs;
      LoadedSame(ns, map[], take, readOnly, clock, 0, x);
    }
  }

  /** What set() accepts, print gives back. */
  lemma ParsePrintable(s: seq<byte>, ctime: nat, now: nat, flag: byte)
    requires Scannable(s) && Parse(s, ctime, now).Ok? && !IsSpace(flag) && flag != 0
    ensures var g := Parse(s, ctime, now).value; Printable(g) && Printable(g.(flag := flag))
  {
    hide Strtol, WordEnd, SkipSpace, CString, IsSpace;
    assert !IsSpace('y' as int) by { FlagSpace(); }
  }

  lemma FlagSpace()
    ensures !IsSpace('y' as int) && !IsSpace('n' as int)
  {
  }

  /** read() keeps every group printable, whatever list it gets and wherever it stops. */
  lemma {:induction false} ReadPrintable(text: seq<byte>, db: Db, take: seq<byte> -> bool, readOnly: bool,
                                         clock: nat -> nat, i: nat)
    requires Listing(text) && AllPrintable(db)
    ensures AllPrintable(ReadAll(text, db, take, readOnly, clock, i).0)
    decreases |text|
  {
    hide Scannable, Strip, LineEnd, Parse, Printable, IsSpace;
    var e := LineEnd(text);
    var line, rest := Strip(text[..e]), text[e + 1..];
    if line == DOT {
    } else if !take(line) {
      ReadPrintable(rest, db, take, readOnly, clock, i + 1);
    } else if Parse(line, 0, clock(i)).Ok? {
      var g := Parse(line, 0, clock(i)).value;
      var f := if readOnly then g.(flag := 'n' as int) else g;
      FlagSpace();
      ParsePrintable(line, 0, clock(i), 'n' as int);
      SsetPrintable(db, f, clock(i));
      ReadPrintable(rest, Sset(db, f, clock(i), false), take, readOnly, clock, i + 1);
    }
  }

  lemma SsetPrintable(db: Db, g: Info, now: nat)
    requires AllPrintable(db) && Printable(g)
    ensures AllPrintable(Sset(db, g, now, false))
  {
  }

  /** A database filled by read(), from any list, dumps and reads back without any condition on the
      names or flags in it. */
  lemma ReadDumpRead(text: seq<byte>, take: seq<byte> -> bool, readOnly: bool, first: nat -> nat,
                     content: seq<seq<seq<byte>>>, since: nat, pick: seq<byte> -> bool, again: seq<byte> -> bool,
                     clock: nat -> nat)
    requires Listing(text) && Stored(content, ReadAll(text, map[], take, readOnly, first, 0).0)
    ensures forall x :: 0 <= x < |Flat(content)| ==> |Flat(content)[x]| >= 30
    ensures var db := ReadAll(text, map[], take, readOnly, first, 0).0;
      DumpRereads(Infos(Flat(content)), db, since, pick, again, readOnly, clock)
  {
    hide Listing, Stored, ReadAll, DumpRereads, Flat, Infos;
    ReadPrintable(text, map[], take, readOnly, first, 0);
    DumpThenRead(content, ReadAll(text, map[], take, readOnly, first, 0).0, since, pick, again, readOnly, clock);
  }
}
