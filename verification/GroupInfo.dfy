/** The record of one newsgroup and its two forms: the raw bytes kept in the container and the
    line of the active list. NServer-0.9.1/GroupInfo.h. */
module GroupInfos {
  import opened Bytes

  const SPACE: byte := 32
  /** sizeof(_name), the terminating NUL included. */
  const NAME_SIZE: nat := 512
  /** The sizes of the other fields, added up. */
  const HEAD_SIZE: nat := 29

  datatype Info = Info(ctime: nat, mtime: nat, fst: nat, lst: nat, n: nat, flag: byte, name: seq<byte>)

  predicate Fits(g: Info) {
    && g.ctime < TWO64 && g.mtime < TWO64 && g.fst < TWO32 && g.lst < TWO32 && g.n < TWO32
    && |g.name| < NAME_SIZE && 0 !in g.name
  }

  // ----- raw form -----

  /** The bytes of the object, up to and including the NUL of its name. */
  function Raw(g: Info): (r: seq<byte>)
    ensures |r| == 30 + |g.name|
  {
    UnpackWord(g.ctime, 8) + UnpackWord(g.mtime, 8) + UnpackWord(g.fst, 4) + UnpackWord(g.lst, 4)
    + UnpackWord(g.n, 4) + [g.flag] + g.name + [0]
  }

  /** The C string that starts a byte sequence. */
  function CString(s: seq<byte>): (r: seq<byte>)
    ensures |r| <= |s| && r == s[..|r|] && 0 !in r && (|r| < |s| ==> s[|r|] == 0)
  {
    if s == [] || s[0] == 0 then [] else [s[0]] + CString(s[1..])
  }

  function RawName(b: seq<byte>): seq<byte> {
    if |b| < 29 then [] else CString(b[29..])
  }

  function FromRaw(b: seq<byte>): Info
    requires |b| >= 30
  {
    Info(PackWord(b[..8]), PackWord(b[8..16]), PackWord(b[16..20]), PackWord(b[20..24]), PackWord(b[24..28]),
         b[28], RawName(b))
  }

  lemma {:induction false} CStringOf(s: seq<byte>, rest: seq<byte>)
    requires 0 !in s
    ensures CString(s + [0] + rest) == s
  {
    if s == [] {
      assert (s + [0] + rest)[0] == 0;
    } else {
      assert (s + [0] + rest)[1..] == s[1..] + [0] + rest;
      CStringOf(s[1..], rest);
    }
  }

  lemma Powers()
    ensures Power256(4) == TWO32 && Power256(8) == TWO64
  {
    assert Power256(4) == 256 * (256 * (256 * (256 * Power256(0))));
    assert Power256(8) == 256 * (256 * (256 * (256 * Power256(4))));
  }

  /** What getraw writes, setraw reads back. */
  lemma RawRoundTrip(g: Info)
    requires Fits(g)
    ensures FromRaw(Raw(g)) == g && RawName(Raw(g)) == g.name
  {
    hide PackWord, UnpackWord, CString, Power256;
    var b := Raw(g);
    Powers();
    assert b[..8] == UnpackWord(g.ctime, 8);
    PackUnpackWord(g.ctime, 8);
    assert b[8..16] == UnpackWord(g.mtime, 8);
    PackUnpackWord(g.mtime, 8);
    assert b[16..20] == UnpackWord(g.fst, 4);
    PackUnpackWord(g.fst, 4);
    assert b[20..24] == UnpackWord(g.lst, 4);
    PackUnpackWord(g.lst, 4);
    assert b[24..28] == UnpackWord(g.n, 4);
    PackUnpackWord(g.n, 4);
    assert b[29..] == g.name + [0] + [];
    CStringOf(g.name, []);
  }

  /** The bytes of n, low-order first, lie from off on. */
  predicate Little(b: seq<byte>, off: nat, n: nat, len: nat)
    requires off + len <= |b|
  {
    forall i :: 0 <= i < len ==> b[off + i] == n / Power256(i) % 256
  }

  /** The layout of the object in memory. */
  lemma RawLayout(g: Info)
    ensures var b := Raw(g);
      && Little(b, 0, g.ctime, 8) && Little(b, 8, g.mtime, 8)
      && Little(b, 16, g.fst, 4) && Little(b, 20, g.lst, 4) && Little(b, 24, g.n, 4)
      && b[28] == g.flag && b[29..] == g.name + [0]
  {
    hide UnpackWord, Power256;
    forall n: nat, len: nat, i: nat | i < len
      ensures UnpackWord(n, len)[i] == n / Power256(i) % 256
    {
      UnpackAt(n, len, i);
    }
  }

  // ----- decimal numbers -----

  /** isspace in the C locale. */
  predicate IsSpace(b: byte) {
    b == 32 || 9 <= b <= 13
  }

  predicate IsDigit(b: byte) {
    48 <= b <= 57
  }

  function Digit(d: nat): byte
    requires d < 10
  {
    48 + d
  }

  function Dec(n: nat): (ds: seq<byte>)
    ensures ds != [] && forall i :: 0 <= i < |ds| ==> IsDigit(ds[i])
  {
    if n < 10 then [Digit(n)] else Dec(n / 10) + [Digit(n % 10)]
  }

  function DecValue(ds: seq<byte>): nat
    requires forall i :: 0 <= i < |ds| ==> IsDigit(ds[i])
  {
    if ds == [] then 0
    else
      assert IsDigit(ds[|ds| - 1]);
      10 * DecValue(ds[..|ds| - 1]) + (ds[|ds| - 1] as int - 48)
  }

  lemma {:induction false} DecValueDec(n: nat)
    ensures DecValue(Dec(n)) == n
  {
    var ds := Dec(n);
    if n < 10 {
      assert ds[..|ds| - 1] == [];
    } else {
      assert ds[..|ds| - 1] == Dec(n / 10);
      DecValueDec(n / 10);
    }
  }

  // ----- strtol -----

  /** p[i] of a C string: its NUL follows the last character. */
  function At(s: seq<byte>, i: nat): byte {
    if i < |s| then s[i] else 0
  }

  function SkipSpace(s: seq<byte>, i: nat): (j: nat)
    requires i <= |s|
    ensures i <= j <= |s| && (forall k :: i <= k < j ==> IsSpace(s[k])) && !IsSpace(At(s, j))
    decreases |s| - i
  {
    if IsSpace(At(s, i)) then SkipSpace(s, i + 1) else i
  }

  function DigitsEnd(s: seq<byte>, i: nat): (j: nat)
    requires i <= |s|
    ensures i <= j <= |s| && (forall k :: i <= k < j ==> IsDigit(s[k])) && !IsDigit(At(s, j))
    decreases |s| - i
  {
    if IsDigit(At(s, i)) then DigitsEnd(s, i + 1) else i
  }

  /** A long is 64 bits wide; strtol saturates. */
  function Clamp(x: int): int {
    if x > 0x7FFF_FFFF_FFFF_FFFF then 0x7FFF_FFFF_FFFF_FFFF
    else if x < -0x8000_0000_0000_0000 then -0x8000_0000_0000_0000
    else x
  }

  /** The number at i and where it ends; (0, i) when there is none. */
  function Strtol(s: seq<byte>, i: nat): (r: (int, nat))
    requires i <= |s|
    ensures i <= r.1 <= |s|
  {
    var j := SkipSpace(s, i);
    var d := if At(s, j) == 43 || At(s, j) == 45 then j + 1 else j;
    var e := DigitsEnd(s, d);
    if e == d then (0, i)
    else (Clamp(if At(s, j) == 45 then 0 - DecValue(s[d..e]) as int else DecValue(s[d..e])), e)
  }

  /** A number after one space, followed by a space. */
  lemma StrtolAt(s: seq<byte>, i: nat, n: nat)
    requires n < TWO32 && i + 1 + |Dec(n)| < |s| && s[i] == SPACE
    requires s[i + 1..i + 1 + |Dec(n)|] == Dec(n) && s[i + 1 + |Dec(n)|] == SPACE
    ensures Strtol(s, i) == (n, i + 1 + |Dec(n)|)
  {
    hide Dec, DecValue;
    var ds := Dec(n);
    forall k | 0 <= k < |ds|
      ensures s[i + 1 + k] == ds[k]
    {
      assert s[i + 1..i + 1 + |ds|][k] == ds[k];
    }
    assert s[i + 1] == ds[0];
    var j := SkipSpace(s, i);
    SkipIs(s, i, i + 1);
    DigitsIs(s, i + 1, i + 1 + |ds|);
    DecValueDec(n);
  }

  // ----- any number that strtol reads -----

  /** Digits that stand for n: maybe with zeros in front. */
  predicate DigitsOf(ds: seq<byte>, n: nat) {
    exists z: nat :: z <= |ds| && ds[z..] == Dec(n) && forall i :: 0 <= i < z ==> ds[i] == 48
  }

  lemma {:induction false} StandsFor(ds: seq<byte>, z: nat, n: nat)
    requires z <= |ds| && ds[z..] == Dec(n) && forall i :: 0 <= i < z ==> ds[i] == 48
    ensures (forall i :: 0 <= i < |ds| ==> IsDigit(ds[i])) && ds != [] && DecValue(ds) == n
  {
    hide DecValue, Dec;
    assert forall i :: z <= i < |ds| ==> ds[i] == ds[z..][i - z];
    if z == 0 {
      assert ds[0..] == ds;
      DecValueDec(n);
    } else {
      StandsFor(ds[1..], z - 1, n);
      ZeroFirst(ds);
    }
  }

  lemma {:induction false} ZeroFirst(ds: seq<byte>)
    requires ds != [] && ds[0] == 48 && forall i :: 0 <= i < |ds| ==> IsDigit(ds[i])
    ensures DecValue(ds) == DecValue(ds[1..])
  {
    var n := |ds| - 1;
    if n > 0 {
      ZeroFirst(ds[..n]);
      assert ds[1..][..n - 1] == ds[..n][1..];
    }
  }

  /** White space up to j, maybe a sign, digits up to e: the value, kept within a long. */
  lemma StrtolIs(s: seq<byte>, i: nat, j: nat, d: nat, e: nat, n: nat)
    requires i <= j <= d < e <= |s| && (forall k :: i <= k < j ==> s[k] in WHITE)
    requires d == j || (d == j + 1 && (s[j] == 43 || s[j] == 45))
    requires DigitsOf(s[d..e], n) && (e < |s| ==> !(48 <= s[e] <= 57))
    ensures var v: int := if d > j && s[j] == 45 then 0 - n as int else n;
      Strtol(s, i) == (if v > 0x7FFF_FFFF_FFFF_FFFF then 0x7FFF_FFFF_FFFF_FFFF
                       else if v < -0x8000_0000_0000_0000 then -0x8000_0000_0000_0000 else v, e)
  {
    hide SkipSpace, DigitsEnd, DecValue, DigitsOf, IsSpace;
    DigitRun(s, d, e, n);
    WhiteRun(s, i, j);
  }

  lemma DigitRun(s: seq<byte>, d: nat, e: nat, n: nat)
    requires d < e <= |s| && DigitsOf(s[d..e], n) && (e < |s| ==> !(48 <= s[e] <= 57))
    ensures DigitsEnd(s, d) == e && IsDigit(s[d])
    ensures (forall i :: 0 <= i < e - d ==> IsDigit(s[d..e][i])) && DecValue(s[d..e]) == n
  {
    hide Dec, DecValue, DigitsEnd;
    var ds := s[d..e];
    var z: nat :| z <= |ds| && ds[z..] == Dec(n) && forall i :: 0 <= i < z ==> ds[i] == 48;
    StandsFor(ds, z, n);
    forall k | d <= k < e
      ensures IsDigit(s[k])
    {
      assert s[k] == ds[k - d];
    }
    DigitsIs(s, d, e);
  }

  lemma WhiteRun(s: seq<byte>, i: nat, j: nat)
    requires i <= j <= |s| && (forall k :: i <= k < j ==> s[k] in WHITE) && (j < |s| ==> s[j] !in WHITE)
    ensures SkipSpace(s, i) == j
  {
    hide SkipSpace;
    SkipIs(s, i, j);
  }

  lemma {:induction false} SkipIs(s: seq<byte>, i: nat, j: nat)
    requires i <= j <= |s| && (forall k :: i <= k < j ==> IsSpace(s[k])) && !IsSpace(At(s, j))
    ensures SkipSpace(s, i) == j
    decreases j - i
  {
    if i < j {
      SkipIs(s, i + 1, j);
    }
  }

  lemma {:induction false} DigitsIs(s: seq<byte>, i: nat, j: nat)
    requires i <= j <= |s| && (forall k :: i <= k < j ==> IsDigit(s[k])) && !IsDigit(At(s, j))
    ensures DigitsEnd(s, i) == j
    decreases j - i
  {
    if i < j {
      DigitsIs(s, i + 1, j);
    }
  }

  // ----- the line of the active list -----

  datatype Result<T> = Ok(value: T) | NameTooLong | BadForm

  function Print(g: Info): seq<byte> {
    g.name + [SPACE] + Dec(g.lst) + [SPACE] + Dec(g.fst) + [SPACE] + [g.flag]
  }

  /** Length of the word that starts the line. */
  function WordEnd(s: seq<byte>): (e: nat)
    ensures e <= |s| && (forall k :: 0 <= k < e ==> !IsSpace(s[k])) && (e < |s| ==> IsSpace(s[e]))
  {
    if s == [] || IsSpace(s[0]) then 0 else 1 + WordEnd(s[1..])
  }

  lemma {:induction false} WordIs(s: seq<byte>, e: nat)
    requires e <= |s| && (forall k :: 0 <= k < e ==> !IsSpace(s[k])) && (e < |s| ==> IsSpace(s[e]))
    ensures WordEnd(s) == e
  {
    if e > 0 {
      WordIs(s[1..], e - 1);
    }
  }

  /** set() looks for white space and for nothing else: the end of the string does not stop it
      before the name buffer is full. */
  predicate Scannable(s: seq<byte>) {
    WordEnd(s) < |s| || |s| >= NAME_SIZE - 1
  }

  function Count(fst: nat, lst: nat): nat {
    if fst > lst then 0 else (lst - fst + 1) % TWO32
  }

  /** set(const char *): what the fields other than ctime become. */
  function Parse(s: seq<byte>, ctime: nat, now: nat): (r: Result<Info>)
    requires Scannable(s)
  {
    var e := WordEnd(s);
    if e >= NAME_SIZE || e == |s| then NameTooLong
    else
      var (lst, e1) := Strtol(s, e);
      var (fst, e2) := Strtol(s, e1);
      if e2 == e1 then BadForm
      else
        var f := SkipSpace(s, e2);
        Ok(Info(ctime, now, fst % TWO32, lst % TWO32, Count(fst % TWO32, lst % TWO32),
                if At(s, f) != 0 then At(s, f) else 'y' as int, CString(s[..e])))
  }

  /** A name or flag that set() could not read back. */
  predicate Printable(g: Info) {
    (forall k :: 0 <= k < |g.name| ==> !IsSpace(g.name[k])) && !IsSpace(g.flag) && g.flag != 0
  }

  /** Tab, newline, vertical tab, form feed, carriage return and blank. */
  const WHITE: set<byte> := {9, 10, 11, 12, 13, 32}

  predicate SameGroup(a: Info, b: Info) {
    a.name == b.name && a.fst == b.fst && a.lst == b.lst && a.flag == b.flag
  }

  lemma PrintWord(g: Info)
    ensures WordEnd(Print(g)) <= |g.name| && WordEnd(Print(g)) < |Print(g)|
    ensures (forall k :: 0 <= k < |g.name| ==> !IsSpace(g.name[k])) <==> WordEnd(Print(g)) == |g.name|
  {
    hide Dec;
    var s := Print(g);
    var e := WordEnd(s);
    assert s[|g.name|] == SPACE;
    assert forall k :: 0 <= k < |g.name| ==> s[k] == g.name[k];
    WordStops(s, |g.name|);
  }

  lemma WordStops(s: seq<byte>, n: nat)
    requires n < |s| && IsSpace(s[n])
    ensures WordEnd(s) <= n
  {
    hide IsSpace;
  }

  lemma PrintParse(g: Info, ctime: nat, now: nat)
    requires Fits(g) && forall k :: 0 <= k < |g.name| ==> !IsSpace(g.name[k])
    ensures Scannable(Print(g))
    ensures Parse(Print(g), ctime, now)
         == Ok(Info(ctime, now, g.fst, g.lst, if g.fst > g.lst then 0 else (g.lst - g.fst + 1) % TWO32,
                    if IsSpace(g.flag) || g.flag == 0 then 'y' as int else g.flag, g.name))
  {
    hide Dec, Strtol, SkipSpace, WordEnd, CString, IsSpace;
    var s := Print(g);
    PrintWord(g);
    PrintNumbers(g);
    var e := |g.name|;
    var e2 := e + 1 + |Dec(g.lst)| + 1 + |Dec(g.fst)|;
    assert s[..e] == g.name;
    CStringWhole(g.name);
    PrintFlag(s, e2, g.flag);
  }

  /** Any line of the list: a name, two numbers and the flag, if there is one, each after as much
      white space as it likes. */
  lemma ParseLine(s: seq<byte>, n: nat, a: nat, b: nat, c: nat, d: nat, f: nat, lst: nat, fst: nat,
                  ctime: nat, now: nat)
    requires 0 !in s && n < a < b < c < d <= f <= |s| && n < NAME_SIZE
    requires forall k :: 0 <= k < n ==> s[k] !in WHITE
    requires forall k :: n <= k < a || b <= k < c || d <= k < f ==> s[k] in WHITE
    requires DigitsOf(s[a..b], lst) && DigitsOf(s[c..d], fst)
    requires lst < 0x8000_0000_0000_0000 && fst < 0x8000_0000_0000_0000
    requires f == d ==> d == |s|
    requires f < |s| ==> s[f] !in WHITE
    ensures Scannable(s)
    ensures Parse(s, ctime, now)
         == Ok(Info(ctime, now, fst % TWO32, lst % TWO32,
                    if fst % TWO32 > lst % TWO32 then 0 else (lst % TWO32 - fst % TWO32 + 1) % TWO32,
                    if f < |s| then s[f] else 121, s[..n]))
  {
    hide Strtol, SkipSpace, WordEnd, CString, DigitsOf;
    assert forall b: byte :: IsSpace(b) <==> b in WHITE;
    WordIs(s, n);
    CStringWhole(s[..n]);
    StrtolIs(s, n, a, a, b, lst);
    StrtolIs(s, b, c, c, d, fst);
    SkipIs(s, d, f);
  }

  lemma CStringWhole(s: seq<byte>)
    requires 0 !in s
    ensures CString(s) == s
  {
    assert |CString(s)| < |s| ==> 0 in s;
  }

  lemma PrintNumbers(g: Info)
    requires g.fst < TWO32 && g.lst < TWO32
    ensures var s, e := Print(g), |g.name|;
      var e1 := e + 1 + |Dec(g.lst)|;
      var e2 := e1 + 1 + |Dec(g.fst)|;
      && Strtol(s, e) == (g.lst, e1) && Strtol(s, e1) == (g.fst, e2)
      && |s| == e2 + 2 && s[e2] == SPACE && s[e2 + 1] == g.flag
  {
    hide Dec, Strtol;
    var s, e := Print(g), |g.name|;
    var e1 := e + 1 + |Dec(g.lst)|;
    assert s[e + 1..e1] == Dec(g.lst);
    StrtolAt(s, e, g.lst);
    assert s[e1 + 1..e1 + 1 + |Dec(g.fst)|] == Dec(g.fst);
    StrtolAt(s, e1, g.fst);
  }

  lemma PrintFlag(s: seq<byte>, e: nat, flag: byte)
    requires |s| == e + 2 && s[e] == SPACE && s[e + 1] == flag
    ensures At(s, SkipSpace(s, e)) == if IsSpace(flag) then 0 else flag
  {
    SkipIs(s, e, if IsSpace(flag) then e + 2 else e + 1);
  }

  /** A line reads back to the group it was printed from exactly for the printable groups. */
  lemma PrintParseIff(g: Info, ctime: nat, now: nat)
    requires Fits(g)
    ensures Scannable(Print(g))
    ensures var r := Parse(Print(g), ctime, now);
      && ((r.Ok? && SameGroup(r.value, g)) <==> Printable(g))
      && (Printable(g) <==> (forall b :: b in g.name ==> b !in WHITE) && g.flag !in WHITE && g.flag != 0)
  {
    hide Print, CString, Strtol, SkipSpace, Dec, WordEnd;
    assert forall b: byte :: IsSpace(b) <==> b in WHITE;
    PrintWord(g);
    if forall k :: 0 <= k < |g.name| ==> !IsSpace(g.name[k]) {
      PrintParse(g, ctime, now);
    }
  }

  /** The name "a 7" with the numbers 5 and 1: the line reads back as another group, named "a". */
  lemma SpacedName(ctime: nat, now: nat)
    ensures var g := Info(ctime, now, 1, 5, 5, 'y' as int, [97, SPACE, 55]);
      && Print(g) == [97, SPACE, 55, SPACE, 53, SPACE, 49, SPACE, 121]
      && Scannable(Print(g))
      && Parse(Print(g), ctime, now) == Ok(Info(ctime, now, 5, 7, 3, 49, [97]))
  {
    hide Strtol, SkipSpace, WordEnd, CString;
    assert Dec(5) == [53] && Dec(1) == [49];
    var s := [97, SPACE, 55, SPACE, 53, SPACE, 49, SPACE, 121];
    WordIs(s, 1);
    OneDigit(s, 1);
    OneDigit(s, 3);
    SkipIs(s, 5, 6);
    assert s[..1] == [97];
    CStringWhole([97]);
  }

  /** A space, one digit, a space. */
  lemma OneDigit(s: seq<byte>, i: nat)
    requires i + 2 < |s| && s[i] == SPACE && IsDigit(s[i + 1]) && s[i + 2] == SPACE
    ensures Strtol(s, i) == (s[i + 1] as int - 48, i + 2)
  {
    hide DecValue;
    SkipIs(s, i, i + 1);
    DigitsIs(s, i + 1, i + 2);
    DecOne(s[i + 1..i + 2]);
  }

  lemma DecOne(ds: seq<byte>)
    requires |ds| == 1 && IsDigit(ds[0])
    ensures DecValue(ds) == ds[0] - 48
  {
    assert DecValue(ds[..0]) == 0;
  }

  // ----- the object -----

  class GroupInfo {
    var v: Info

    constructor ()
      ensures v == Info(0, 0, 0, 0, 0, 'y' as int, []) && Fits(v)
    {
      v := Info(0, 0, 0, 0, 0, 'y' as int, []);
    }

    /** setraw: false when the buffer is larger than the object, which then stays as it was. What
        getraw wrote for a group becomes that group again. */
    method Setraw(buf: seq<byte>) returns (ok: bool)
      requires |buf| > HEAD_SIZE && RawName(buf) + [0] <= buf[HEAD_SIZE..]
      modifies this
      ensures ok <==> |buf| <= HEAD_SIZE + NAME_SIZE
      ensures if ok then v == FromRaw(buf) else v == old(v)
      ensures ok ==> forall g :: Fits(g) && Raw(g) == buf ==> v == g
    {
      if |buf| > HEAD_SIZE + NAME_SIZE {
        return false;
      }
      v := FromRaw(buf);
      ok := true;
      forall g | Fits(g) && Raw(g) == buf
        ensures v == g
      {
        RawRoundTrip(g);
      }
    }

    method Setctime(ctime: nat)
      modifies this
      ensures v == old(v).(ctime := ctime)
    {
      v := v.(ctime := ctime);
    }

    method Setflag(fl: byte)
      modifies this
      ensures v == old(v).(flag := fl)
    {
      v := v.(flag := fl);
    }

    /** set(const char *). The fields are written one by one, so a line that is refused leaves
        the object with what was read before the fault. */
    method Set(gd: seq<byte>, now: nat) returns (r: Result<()>)
      requires Scannable(gd)
      modifies this
      ensures match Parse(gd, old(v).ctime, now)
        case Ok(g) => r == Ok(()) && v == g
        case NameTooLong => r == NameTooLong && v == old(v).(name := v.name)
        case BadForm => r == BadForm && v == old(v).(name := v.name, fst := v.fst, lst := v.lst)
    {
      hide CString, Strtol, SkipSpace, WordEnd, IsSpace;
      var i := Word(gd);
      if i == NAME_SIZE || i == |gd| {
        return NameTooLong;
      }
      v := v.(name := CString(gd[..i]));
      var lst, e := ReadLong(gd, i);
      v := v.(lst := lst % TWO32);
      var fst, p := ReadLong(gd, e);
      v := v.(fst := fst % TWO32);
      if e == p {
        return BadForm;
      }
      v := v.(n := if v.fst > v.lst then 0 else (v.lst - v.fst + 1) % TWO32);
      p := OverSpace(gd, p);
      v := v.(flag := if At(gd, p) != 0 then At(gd, p) else 'y' as int, mtime := now);
      return Ok(());
    }
  }

  /** The word that starts the line, or as much of it as the name buffer holds. */
  method Word(gd: seq<byte>) returns (i: nat)
    ensures i == if WordEnd(gd) < NAME_SIZE then WordEnd(gd) else NAME_SIZE
  {
    i := 0;
    while i < NAME_SIZE && i < |gd| && !IsSpace(gd[i])
      invariant i <= NAME_SIZE && i <= WordEnd(gd)
    {
      i := i + 1;
    }
  }

  method OverSpace(s: seq<byte>, start: nat) returns (i: nat)
    requires start <= |s|
    ensures i == SkipSpace(s, start)
  {
    i := start;
    while IsSpace(At(s, i))
      invariant i <= |s| && SkipSpace(s, i) == SkipSpace(s, start)
      decreases |s| - i
    {
      i := i + 1;
    }
  }

  /** The digits at first, and their value. */
  method ReadDigits(s: seq<byte>, first: nat) returns (x: int, i: nat)
    requires first <= |s|
    ensures i == DigitsEnd(s, first) && x == DecValue(s[first..i])
  {
    i := first;
    x := 0;
    while IsDigit(At(s, i))
      invariant first <= i <= |s| && DigitsEnd(s, i) == DigitsEnd(s, first)
      invariant forall k :: first <= k < i ==> IsDigit(s[k])
      invariant x == DecValue(s[first..i])
      decreases |s| - i
    {
      DecNext(s, first, i);
      x := 10 * x + (s[i] as int - 48);
      i := i + 1;
    }
  }

  lemma DecNext(s: seq<byte>, first: nat, i: nat)
    requires first <= i < |s| && forall k :: first <= k <= i ==> IsDigit(s[k])
    ensures DecValue(s[first..i + 1]) == 10 * DecValue(s[first..i]) + (s[i] as int - 48)
  {
    assert s[first..i + 1][..i - first] == s[first..i];
  }

  /** strtol in base 10. */
  method ReadLong(s: seq<byte>, start: nat) returns (value: int, end: nat)
    requires start <= |s|
    ensures (value, end) == Strtol(s, start)
  {
    hide DecValue, DigitsEnd;
    var i := OverSpace(s, start);
    var negative := At(s, i) == 45;
    if At(s, i) == 43 || At(s, i) == 45 {
      i := i + 1;
    }
    var x, e := ReadDigits(s, i);
    if e == i {
      return 0, start;
    }
    return Clamp(if negative then -x else x), e;
  }
}
