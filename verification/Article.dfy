/** Header lookup and update in the text of an article: NServer-0.9.1/Article.cc. Positions in the
    text stand for the source's pointers. */
module Articles {
  import opened Bytes
  import opened Readline
  import GroupInfos

  // ----- what the loops compute, for any text -----

  predicate Eol(b: byte) {
    b == CR || b == NL
  }

  predicate Blank(b: byte) {
    b == 32 || b == 9
  }

  function Lower(b: byte): byte {
    if 65 <= b <= 90 then b + 32 else b
  }

  function At(s: seq<byte>, i: nat): byte {
    GroupInfos.At(s, i)
  }

  /** The text as a C string: up to its first NUL byte. */
  function CStr(s: seq<byte>): (c: seq<byte>)
    ensures |c| <= |s| && c == s[..|c|] && 0 !in c && (|c| < |s| ==> s[|c|] == 0)
  {
    if s == [] || s[0] == 0 then [] else [s[0]] + CStr(s[1..])
  }

  /** Up to the end of the line. */
  function LineStop(s: seq<byte>, i: nat): (j: nat)
    requires i <= |s|
    ensures i <= j <= |s| && (forall k :: i <= k < j ==> !Eol(s[k])) && (j < |s| ==> Eol(s[j]))
    decreases |s| - i
  {
    if i < |s| && !Eol(s[i]) then LineStop(s, i + 1) else i
  }

  function SkipBlank(s: seq<byte>, i: nat): (j: nat)
    requires i <= |s|
    ensures i <= j <= |s| && (forall k :: i <= k < j ==> Blank(s[k])) && (j < |s| ==> !Blank(s[j]))
    decreases |s| - i
  {
    if i < |s| && Blank(s[i]) then SkipBlank(s, i + 1) else i
  }

  predicate PrefixAt(s: seq<byte>, i: nat, fld: seq<byte>) {
    i + |fld| <= |s| && forall k :: 0 <= k < |fld| ==> Lower(s[i + k]) == Lower(fld[k])
  }

  /** How much of the name agrees with the text at i. */
  function Agreeing(s: seq<byte>, i: nat, fld: seq<byte>): (n: nat)
    requires i <= |s|
    ensures n <= |fld| && i + n <= |s| && forall k :: 0 <= k < n ==> Lower(s[i + k]) == Lower(fld[k])
    ensures n < |fld| && i + n < |s| ==> Lower(s[i + n]) != Lower(fld[n])
    decreases |fld|
  {
    if fld == [] || i == |s| || Lower(s[i]) != Lower(fld[0]) then 0 else 1 + Agreeing(s, i + 1, fld[1..])
  }

  datatype Result<T> = Ok(value: T) | NoSuchField | InvalidArticle

  /** find_field: the first line that starts with the name, or the empty line. The end of a line is
      looked for behind what agrees. */
  function Find(s: seq<byte>, i: nat, fld: seq<byte>): (r: Result<nat>)
    requires i <= |s|
    ensures r.Ok? ==> i <= r.value <= |s| && (PrefixAt(s, r.value, fld) || Eol(At(s, r.value)))
    ensures !r.NoSuchField?
    decreases |s| - i
  {
    if PrefixAt(s, i, fld) then Ok(i)
    else
      var q := LineStop(s, i + Agreeing(s, i, fld));
      if q == |s| || !(s[q] == NL || At(s, q + 1) == NL) then InvalidArticle
      else
        var n := if s[q] == NL then q + 1 else q + 2;
        if Eol(At(s, n)) then Ok(n) else Find(s, n, fld)
  }

  /** sizeof(hdrbuf) - 1. */
  const NAME_BUFFER: nat := 512

  /** What find_field keeps of a name: one character less than fits, when it is too long. */
  function Cut(fld: seq<byte>): (r: seq<byte>)
    ensures |fld| < NAME_BUFFER ==> r == fld
  {
    if |fld| >= NAME_BUFFER then fld[..NAME_BUFFER - 1] else fld
  }

  /** Over the end of the line at e; a lone CR is an error. */
  function AfterEol(s: seq<byte>, e: nat): (r: Result<nat>)
    requires e <= |s|
    ensures r.Ok? ==> e <= r.value <= |s| && (e < |s| ==> e < r.value)
    ensures !r.NoSuchField?
  {
    if e == |s| then Ok(e)
    else if s[e] != CR then Ok(e + 1)
    else if At(s, e + 1) == NL then Ok(e + 2)
    else InvalidArticle
  }

  function Prepend(a: seq<byte>, r: Result<seq<byte>>): Result<seq<byte>> {
    if r.Ok? then Ok(a + r.value) else r
  }

  lemma PrependTwo(a: seq<byte>, b: seq<byte>, r: Result<seq<byte>>)
    ensures Prepend(a, Prepend(b, r)) == Prepend(a + b, r) && Prepend([], r) == r
  {
    if r.Ok? {
      assert a + (b + r.value) == a + b + r.value && [] + r.value == r.value;
    }
  }

  /** The folded lines that follow, without their indentation. */
  function Unfold(s: seq<byte>, p: nat): Result<seq<byte>>
    requires p <= |s|
    decreases |s| - p
  {
    if p == |s| then InvalidArticle
    else if !Blank(s[p]) then Ok([])
    else
      var d := SkipBlank(s, p);
      var e := LineStop(s, d);
      match AfterEol(s, e)
      case Ok(n) => Prepend(s[d..e], Unfold(s, n))
      case _ => InvalidArticle
  }

  /** The field whose line starts at f, with its content from d on. */
  function Content(s: seq<byte>, f: nat, d: nat): Result<seq<byte>>
    requires f <= d <= |s|
  {
    var e := LineStop(s, d);
    match AfterEol(s, e)
    case Ok(n) => Prepend(s[f..e], Unfold(s, n))
    case _ => InvalidArticle
  }

  predicate SameName(f: seq<byte>, g: seq<byte>) {
    |f| == |g| && forall k :: 0 <= k < |f| ==> Lower(f[k]) == Lower(g[k])
  }

  /** "bytes:", the name that stands for the length of the article. */
  const BYTES: seq<byte> := [98, 121, 116, 101, 115, 58]

  /** getfield. full: with the name. */
  function GetField(s: seq<byte>, fld: seq<byte>, full: bool): Result<seq<byte>> {
    if SameName(fld, BYTES) then Ok(GroupInfos.Dec(|s|)) else GetHeader(CStr(s), fld, full)
  }

  function GetHeader(s: seq<byte>, fld: seq<byte>, full: bool): Result<seq<byte>> {
    match Find(s, 0, Cut(fld))
    case Ok(f) =>
      if Eol(At(s, f)) || f + |fld| > |s| then NoSuchField
      else
        var d := SkipBlank(s, f + |fld|);
        Content(s, if full then f else d, d)
    case _ => InvalidArticle
  }

  /** Over one line end: a newline, and after that a CRLF. */
  function PassEol(s: seq<byte>, p: nat): (q: nat)
    requires p <= |s|
    ensures p <= q <= |s|
  {
    var n := if At(s, p) == NL then p + 1 else p;
    if At(s, n) == CR && At(s, n + 1) == NL then n + 2 else n
  }

  /** Up to the end of the line, or of the C string. */
  function CLineStop(s: seq<byte>, i: nat): (j: nat)
    requires i <= |s|
    ensures i <= j <= |s| && (i < |s| && s[i] != 0 && !Eol(s[i]) ==> i < j)
    decreases |s| - i
  {
    if i < |s| && s[i] != 0 && !Eol(s[i]) then CLineStop(s, i + 1) else i
  }

  /** Over one line, as setfield does. isspace also skips line ends, and in a folded line a NUL byte
      does not stop the scan. */
  function SetNext(s: seq<byte>, p: nat, folded: bool): (n: nat)
    requires p <= |s|
    ensures p <= n <= |s|
  {
    var i := GroupInfos.SkipSpace(s, p);
    PassEol(s, if folded then LineStop(s, i) else CLineStop(s, i))
  }

  /** Where setfield takes the field to end. */
  function SetEnd(s: seq<byte>, p: nat, folded: bool): (q: nat)
    requires p <= |s|
    ensures p <= q <= |s|
    decreases |s| - p
  {
    var n := SetNext(s, p, folded);
    if n > p && FoldedAt(s, n) then SetEnd(s, n, true) else n
  }

  predicate FoldedAt(s: seq<byte>, n: nat) {
    GroupInfos.IsSpace(At(s, n)) && !Eol(At(s, n))
  }

  /** data: a C string. */
  function SetField(s: seq<byte>, fld: seq<byte>, data: seq<byte>): Result<seq<byte>> {
    match Find(CStr(s), 0, Cut(fld))
    case Ok(f) => Ok(s[..f] + data + s[FieldUpTo(s, fld, f)..])
    case _ => InvalidArticle
  }

  /** Where what the data replaces ends: nothing is replaced at the empty line. */
  function FieldUpTo(s: seq<byte>, fld: seq<byte>, f: nat): (e: nat)
    requires f <= |s|
    ensures f <= e <= |s|
  {
    if Eol(At(s, f)) || f + |fld| > |CStr(s)| then f else SetEnd(s, f + |fld|, false)
  }

  // ----- the lines of a well-formed article -----

  function Join(lines: seq<seq<byte>>): seq<byte> {
    if lines == [] then [] else lines[0] + CRLF + Join(lines[1..])
  }

  function Text(lines: seq<seq<byte>>, body: seq<byte>): seq<byte> {
    Join(lines) + CRLF + body
  }

  function Off(lines: seq<seq<byte>>, k: nat): nat
    requires k <= |lines|
  {
    |Join(lines[..k])|
  }

  /** No line is empty, and none holds a NUL, a line end or another vertical control character. */
  predicate Proper(line: seq<byte>) {
    line != [] && forall i :: 0 <= i < |line| ==> line[i] != 0 && !(10 <= line[i] <= 13)
  }

  predicate AllProper(lines: seq<seq<byte>>) {
    forall k :: 0 <= k < |lines| ==> Proper(lines[k])
  }

  /** A field name with its colon, short enough for the buffer of find_field. */
  predicate Name(fld: seq<byte>) {
    && 0 < |fld| < NAME_BUFFER && fld[|fld| - 1] == 58
    && forall i :: 0 <= i < |fld| - 1 ==> fld[i] != 58 && !Blank(fld[i]) && fld[i] != 0 && !(10 <= fld[i] <= 13)
  }

  predicate Match(line: seq<byte>, fld: seq<byte>) {
    PrefixAt(line, 0, fld)
  }

  function First(lines: seq<seq<byte>>, fld: seq<byte>): (k: nat)
    ensures k <= |lines|
    ensures forall i :: 0 <= i < k ==> !Match(lines[i], fld)
    ensures k < |lines| ==> Match(lines[k], fld)
  {
    if lines == [] || Match(lines[0], fld) then 0 else 1 + First(lines[1..], fld)
  }

  predicate Folded(line: seq<byte>) {
    line != [] && Blank(line[0])
  }

  /** Where the lines folded onto line j - 1 end. */
  function FoldEnd(lines: seq<seq<byte>>, j: nat): (e: nat)
    requires j <= |lines|
    ensures j <= e <= |lines| && (forall i :: j <= i < e ==> Folded(lines[i])) && (e < |lines| ==> !Folded(lines[e]))
    decreases |lines| - j
  {
    if j < |lines| && Folded(lines[j]) then FoldEnd(lines, j + 1) else j
  }

  function Trim(s: seq<byte>): seq<byte> {
    s[SkipBlank(s, 0)..]
  }

  function Unfolded(lines: seq<seq<byte>>, j: nat): seq<byte>
    requires j <= |lines|
    decreases |lines| - j
  {
    if j < |lines| && Folded(lines[j]) then Trim(lines[j]) + Unfolded(lines, j + 1) else []
  }

  function Value(lines: seq<seq<byte>>, fld: seq<byte>): Result<seq<byte>> {
    var k := First(lines, fld);
    if k == |lines| then NoSuchField else Ok(Trim(lines[k][|fld|..]) + Unfolded(lines, k + 1))
  }

  /** The field's first line as it is, and the lines folded onto it. */
  function Whole(lines: seq<seq<byte>>, fld: seq<byte>): Result<seq<byte>> {
    var k := First(lines, fld);
    if k == |lines| then NoSuchField else Ok(lines[k] + Unfolded(lines, k + 1))
  }

  lemma {:induction false} JoinTwo(a: seq<seq<byte>>, b: seq<seq<byte>>)
    ensures Join(a + b) == Join(a) + Join(b)
  {
    if a == [] {
      assert a + b == b;
    } else {
      assert (a + b)[1..] == a[1..] + b;
      JoinTwo(a[1..], b);
    }
  }

  /** Where line k is in the text, and what surrounds it. */
  lemma LineAt(lines: seq<seq<byte>>, body: seq<byte>, k: nat)
    requires k < |lines|
    ensures var s, o, line := Text(lines, body), Off(lines, k), lines[k];
      && o + |line| + 4 <= |s| && Off(lines, k + 1) == o + |line| + 2
      && s[o..o + |line|] == line && s[o + |line|] == CR && s[o + |line| + 1] == NL
  {
    hide Join;
    var front, rest := lines[..k], lines[k + 1..];
    assert lines == front + ([lines[k]] + rest);
    JoinTwo(front, [lines[k]] + rest);
    JoinTwo([lines[k]], rest);
    JoinOne(lines[k]);
    assert lines[..k + 1] == front + [lines[k]];
    JoinTwo(front, [lines[k]]);
    assert Text(lines, body) == Join(front) + lines[k] + CRLF + (Join(rest) + CRLF + body);
  }

  /** The C string of a well-formed article ends in the body. */
  lemma CStrText(lines: seq<seq<byte>>, body: seq<byte>)
    requires AllProper(lines)
    ensures CStr(Text(lines, body)) == Text(lines, CStr(body))
  {
    hide CStr;
    JoinNoNul(lines);
    var s, c, h := Text(lines, body), CStr(body), Join(lines) + CRLF;
    assert s == h + body && Text(lines, c) == h + c;
    CStrIs(s, |h| + |c|);
  }

  lemma {:induction false} JoinNoNul(lines: seq<seq<byte>>)
    requires AllProper(lines)
    ensures 0 !in Join(lines)
  {
    if lines != [] {
      assert Proper(lines[0]);
      JoinNoNul(lines[1..]);
    }
  }

  lemma CStrIs(s: seq<byte>, n: nat)
    requires n <= |s| && 0 !in s[..n] && (n < |s| ==> s[n] == 0)
    ensures CStr(s) == s[..n]
  {
    hide CStr;
    var c := CStr(s);
    forall y | 0 <= y < n
      ensures s[y] != 0
    {
      assert s[..n][y] == s[y];
    }
    forall y | 0 <= y < |c|
      ensures s[y] != 0
    {
      assert c[y] == s[y];
    }
  }

  lemma JoinOne(line: seq<byte>)
    ensures Join([line]) == line + CRLF
  {
    assert [line][1..] == [];
    assert Join([line]) == line + CRLF + Join([]);
  }

  lemma CharAt(lines: seq<seq<byte>>, body: seq<byte>, k: nat, x: nat)
    requires k < |lines| && x < |lines[k]|
    ensures Off(lines, k) + x < |Text(lines, body)| && Text(lines, body)[Off(lines, k) + x] == lines[k][x]
  {
    hide Text, Off;
    LineAt(lines, body, k);
    var o := Off(lines, k);
    assert Text(lines, body)[o..o + |lines[k]|][x] == lines[k][x];
  }

  lemma EmptyLineAt(lines: seq<seq<byte>>, body: seq<byte>)
    ensures var s, o := Text(lines, body), Off(lines, |lines|);
      o + 2 <= |s| && s[o] == CR && s[o + 1] == NL && s[..o] == Join(lines) && s[o + 2..] == body
  {
    hide Join;
    assert lines[..|lines|] == lines;
  }

  lemma {:induction false} StopIs(s: seq<byte>, i: nat, j: nat)
    requires i <= j <= |s| && (forall k :: i <= k < j ==> !Eol(s[k])) && (j < |s| ==> Eol(s[j]))
    ensures LineStop(s, i) == j
    decreases j - i
  {
    if i < j {
      StopIs(s, i + 1, j);
    }
  }

  lemma {:induction false} BlankIs(s: seq<byte>, i: nat, j: nat)
    requires i <= j <= |s| && (forall k :: i <= k < j ==> Blank(s[k])) && (j < |s| ==> !Blank(s[j]))
    ensures SkipBlank(s, i) == j
    decreases j - i
  {
    if i < j {
      BlankIs(s, i + 1, j);
    }
  }

  /** From inside line k, the end of the line is the end of line k. */
  lemma StopAt(lines: seq<seq<byte>>, body: seq<byte>, k: nat, x: nat)
    requires AllProper(lines) && k < |lines| && x <= |lines[k]|
    ensures Off(lines, k) + x <= |Text(lines, body)|
    ensures LineStop(Text(lines, body), Off(lines, k) + x) == Off(lines, k) + |lines[k]|
  {
    hide Text, Off;
    var s, o := Text(lines, body), Off(lines, k);
    LineAt(lines, body, k);
    assert Proper(lines[k]);
    forall y | o + x <= y < o + |lines[k]|
      ensures !Eol(s[y])
    {
      CharAt(lines, body, k, y - o);
    }
    StopIs(s, o + x, o + |lines[k]|);
  }

  lemma TrimAt(lines: seq<seq<byte>>, body: seq<byte>, k: nat, x: nat)
    requires k < |lines| && x <= |lines[k]|
    ensures var s, o := Text(lines, body), Off(lines, k);
      && o + |lines[k]| <= |s|
      && var d := SkipBlank(s, o + x); d <= o + |lines[k]| && s[d..o + |lines[k]|] == Trim(lines[k][x..])
  {
    hide *;
    LineAt(lines, body, k);
    NotBlank();
    TrimIn(Text(lines, body), Off(lines, k), x, lines[k]);
  }

  lemma NotBlank()
    ensures !Blank(CR) && !Blank(NL)
  {
  }

  /** The blanks skipped in a line are those in front of what is left of it. */
  lemma TrimIn(s: seq<byte>, o: nat, x: nat, line: seq<byte>)
    requires o + |line| < |s| && s[o..o + |line|] == line && x <= |line| && !Blank(s[o + |line|])
    ensures var d := SkipBlank(s, o + x); d <= o + |line| && s[d..o + |line|] == Trim(line[x..])
  {
    hide Blank, SkipBlank;
    var n := SkipBlank(line[x..], 0);
    forall y | 0 <= y < |line|
      ensures s[o + y] == line[y]
    {
      assert s[o..o + |line|][y] == line[y];
    }
    forall y | o + x <= y < o + x + n
      ensures Blank(s[y])
    {
      assert line[x..][y - o - x] == line[y - o] == s[o + (y - o)];
    }
    assert n < |line| - x ==> line[x..][n] == line[x + n] == s[o + (x + n)];
    BlankIs(s, o + x, o + x + n);
    assert s[o + x + n..o + |line|] == line[x..][n..];
  }

  /** A name cannot match across the end of a line. */
  lemma MatchAt(lines: seq<seq<byte>>, body: seq<byte>, k: nat, fld: seq<byte>)
    requires AllProper(lines) && k < |lines| && Name(fld)
    ensures PrefixAt(Text(lines, body), Off(lines, k), fld) <==> Match(lines[k], fld)
  {
    hide Text, Off;
    var s, o, line := Text(lines, body), Off(lines, k), lines[k];
    LineAt(lines, body, k);
    forall x | 0 <= x < |line|
      ensures s[o + x] == line[x]
    {
      CharAt(lines, body, k, x);
    }
    if |fld| > |line| {
      assert Lower(s[o + |line|]) != Lower(fld[|line|]);
    }
  }

  lemma FindHere(s: seq<byte>, i: nat, fld: seq<byte>)
    requires i <= |s| && PrefixAt(s, i, fld)
    ensures Find(s, i, fld) == Ok(i)
  {
  }

  lemma FindStep(s: seq<byte>, i: nat, fld: seq<byte>, q: nat)
    requires i <= q && q + 2 < |s| && !PrefixAt(s, i, fld) && LineStop(s, i) == q && s[q] == CR && s[q + 1] == NL
    requires NoEol(fld)
    ensures Find(s, i, fld) == if Eol(s[q + 2]) then Ok(q + 2) else Find(s, q + 2, fld)
  {
    hide PrefixAt, LineStop, NoEol;
    StopBehind(s, i, fld);
  }

  predicate NoEol(fld: seq<byte>) {
    forall k :: 0 <= k < |fld| ==> !Eol(fld[k])
  }

  lemma NameNoEol(fld: seq<byte>)
    requires Name(fld)
    ensures NoEol(fld)
  {
  }

  /** A name without line ends does not lead past one. */
  lemma StopBehind(s: seq<byte>, i: nat, fld: seq<byte>)
    requires i <= |s| && NoEol(fld)
    ensures LineStop(s, i + Agreeing(s, i, fld)) == LineStop(s, i)
  {
    var n := Agreeing(s, i, fld);
    forall k | i <= k < i + n
      ensures !Eol(s[k])
    {
      assert Lower(s[i + (k - i)]) == Lower(fld[k - i]);
    }
    StopIs(s, i, LineStop(s, i + n));
  }

  lemma {:induction false} FindAt(lines: seq<seq<byte>>, body: seq<byte>, k: nat, fld: seq<byte>)
    requires AllProper(lines) && k < |lines| && Name(fld)
    ensures Off(lines, k) <= |Text(lines, body)|
    ensures Find(Text(lines, body), Off(lines, k), fld) == Ok(Off(lines, k + First(lines[k..], fld)))
    decreases |lines| - k
  {
    hide Text, Off, Match, PrefixAt, Find, LineStop, Name, NoEol;
    var s, o := Text(lines, body), Off(lines, k);
    LineAt(lines, body, k);
    NameNoEol(fld);
    MatchAt(lines, body, k, fld);
    StopAt(lines, body, k, 0);
    assert lines[k..][1..] == lines[k + 1..];
    if Match(lines[k], fld) {
      FindHere(s, o, fld);
    } else {
      FindStep(s, o, fld, o + |lines[k]|);
      if k + 1 < |lines| {
        LineAt(lines, body, k + 1);
        assert Proper(lines[k + 1]);
        CharAt(lines, body, k + 1, 0);
        FindAt(lines, body, k + 1, fld);
      } else {
        EmptyLineAt(lines, body);
      }
    }
  }

  lemma UnfoldStep(s: seq<byte>, p: nat, n: nat, rest: seq<byte>)
    requires p < |s| && n <= |s|
    requires Blank(s[p]) && AfterEol(s, LineStop(s, SkipBlank(s, p))) == Ok(n) && n > p && Unfold(s, n) == Ok(rest)
    ensures Unfold(s, p) == Ok(s[SkipBlank(s, p)..LineStop(s, SkipBlank(s, p))] + rest)
  {
    hide SkipBlank, LineStop, AfterEol;
  }

  lemma UnfoldStop(s: seq<byte>, p: nat)
    requires p < |s| && !Blank(s[p])
    ensures Unfold(s, p) == Ok([])
  {
  }

  lemma {:induction false} UnfoldAt(lines: seq<seq<byte>>, body: seq<byte>, j: nat)
    requires AllProper(lines) && j <= |lines|
    ensures Off(lines, j) <= |Text(lines, body)|
    ensures Unfold(Text(lines, body), Off(lines, j)) == Ok(Unfolded(lines, j))
    decreases |lines| - j
  {
    hide Text, Off, Trim, SkipBlank, LineStop, Unfold;
    var s, o := Text(lines, body), Off(lines, j);
    if j == |lines| {
      EmptyLineAt(lines, body);
      UnfoldStop(s, o);
    } else {
      LineAt(lines, body, j);
      assert Proper(lines[j]);
      CharAt(lines, body, j, 0);
      if Folded(lines[j]) {
        TrimAt(lines, body, j, 0);
        assert lines[j][0..] == lines[j];
        StopAt(lines, body, j, SkipBlank(s, o) - o);
        UnfoldAt(lines, body, j + 1);
        UnfoldStep(s, o, Off(lines, j + 1), Unfolded(lines, j + 1));
      } else {
        UnfoldStop(s, o);
      }
    }
  }

  lemma ContentAt(lines: seq<seq<byte>>, body: seq<byte>, k: nat, x: nat)
    requires AllProper(lines) && k < |lines| && x <= |lines[k]|
    ensures Off(lines, k) + x <= |Text(lines, body)|
    ensures var s := Text(lines, body);
      var d := SkipBlank(s, Off(lines, k) + x);
      && Content(s, d, d) == Ok(Trim(lines[k][x..]) + Unfolded(lines, k + 1))
      && Content(s, Off(lines, k), d) == Ok(lines[k] + Unfolded(lines, k + 1))
  {
    hide Text, Off, Trim, Unfold, Unfolded;
    var s, o := Text(lines, body), Off(lines, k);
    LineAt(lines, body, k);
    TrimAt(lines, body, k, x);
    var d := SkipBlank(s, o + x);
    StopAt(lines, body, k, d - o);
    UnfoldAt(lines, body, k + 1);
  }

  /** getfield on a well-formed article: its length for "bytes:", and otherwise the content of the
      first line with that name, folded lines included; with the name and what follows it when the
      whole field is asked for. */
  lemma GetAt(lines: seq<seq<byte>>, body: seq<byte>, fld: seq<byte>, full: bool)
    requires lines != [] && AllProper(lines) && Name(fld)
    ensures GetField(Text(lines, body), fld, full)
         == if SameName(fld, BYTES) then Ok(GroupInfos.Dec(|Text(lines, body)|))
            else if full then Whole(lines, fld) else Value(lines, fld)
  {
    hide GetHeader, Value, Whole, Text, SameName, CStr;
    CStrText(lines, body);
    HeaderAt(lines, CStr(body), fld, full);
  }

  lemma HeaderAt(lines: seq<seq<byte>>, body: seq<byte>, fld: seq<byte>, full: bool)
    requires lines != [] && AllProper(lines) && Name(fld)
    ensures GetHeader(Text(lines, body), fld, full) == if full then Whole(lines, fld) else Value(lines, fld)
  {
    hide Text, Off, Trim, Match, PrefixAt, Join, Content, Find, SkipBlank, Unfolded;
    var s, k := Text(lines, body), First(lines, fld);
    OffZero(lines);
    FindAt(lines, body, 0, fld);
    assert lines[0..] == lines;
    if k == |lines| {
      EmptyLineAt(lines, body);
    } else {
      LineAt(lines, body, k);
      MatchLength(lines[k], fld);
      ContentAt(lines, body, k, |fld|);
      assert Proper(lines[k]);
      CharAt(lines, body, k, 0);
    }
  }

  lemma OffZero(lines: seq<seq<byte>>)
    ensures Off(lines, 0) == 0
  {
  }

  lemma MatchLength(line: seq<byte>, fld: seq<byte>)
    requires Match(line, fld)
    ensures |fld| <= |line|
  {
  }

  // ----- where setfield takes a field to end -----

  predicate NonBlank(c: seq<byte>) {
    exists i :: 0 <= i < |c| && !Blank(c[i])
  }

  lemma SetEndIs(s: seq<byte>, p: nat, folded: bool)
    requires p <= |s|
    ensures var n := SetNext(s, p, folded);
      SetEnd(s, p, folded) == if n > p && FoldedAt(s, n) then SetEnd(s, n, true) else n
  {
    hide SetNext, FoldedAt;
  }

  lemma {:induction false} CStopIs(s: seq<byte>, i: nat, j: nat)
    requires i <= j <= |s| && (forall k :: i <= k < j ==> s[k] != 0 && !Eol(s[k])) && Eol(At(s, j))
    ensures CLineStop(s, i) == j
    decreases j - i
  {
    if i < j {
      CStopIs(s, i + 1, j);
    }
  }

  /** Over the line end of line k. */
  lemma PassAt(lines: seq<seq<byte>>, body: seq<byte>, k: nat)
    requires k < |lines|
    ensures Off(lines, k) + |lines[k]| <= |Text(lines, body)|
    ensures PassEol(Text(lines, body), Off(lines, k) + |lines[k]|) == Off(lines, k + 1)
  {
    hide Text, Off;
    LineAt(lines, body, k);
  }

  /** A nonblank line: the space skipped ends within it. */
  lemma SkipIn(lines: seq<seq<byte>>, body: seq<byte>, k: nat, x: nat)
    requires AllProper(lines) && k < |lines| && x <= |lines[k]| && NonBlank(lines[k][x..])
    ensures var n := SkipBlank(lines[k][x..], 0);
      && x + n < |lines[k]| && Off(lines, k) + |lines[k]| <= |Text(lines, body)|
      && GroupInfos.SkipSpace(Text(lines, body), Off(lines, k) + x) == Off(lines, k) + x + n
  {
    hide Text, Off;
    var s, o, c := Text(lines, body), Off(lines, k), lines[k][x..];
    LineAt(lines, body, k);
    assert Proper(lines[k]);
    var n := SkipBlank(c, 0);
    var i :| 0 <= i < |c| && !Blank(c[i]);
    assert n < |c|;
    forall y | o + x <= y < o + x + n
      ensures GroupInfos.IsSpace(s[y])
    {
      CharAt(lines, body, k, y - o);
      assert s[y] == c[y - o - x];
    }
    CharAt(lines, body, k, x + n);
    assert s[o + x + n] == c[n] == lines[k][x + n];
    GroupInfos.SkipIs(s, o + x, o + x + n);
  }

  lemma CStopAt(lines: seq<seq<byte>>, body: seq<byte>, k: nat, x: nat)
    requires AllProper(lines) && k < |lines| && x <= |lines[k]|
    ensures Off(lines, k) + |lines[k]| <= |Text(lines, body)|
    ensures CLineStop(Text(lines, body), Off(lines, k) + x) == Off(lines, k) + |lines[k]|
  {
    hide Text, Off, CLineStop;
    var s, o := Text(lines, body), Off(lines, k);
    LineAt(lines, body, k);
    assert Proper(lines[k]);
    forall y | o + x <= y < o + |lines[k]|
      ensures s[y] != 0 && !Eol(s[y])
    {
      CharAt(lines, body, k, y - o);
    }
    CStopIs(s, o + x, o + |lines[k]|);
  }

  lemma SetNextIn(lines: seq<seq<byte>>, body: seq<byte>, k: nat, x: nat, folded: bool)
    requires AllProper(lines) && k < |lines| && x <= |lines[k]| && NonBlank(lines[k][x..])
    ensures Off(lines, k) + x <= |Text(lines, body)|
    ensures SetNext(Text(lines, body), Off(lines, k) + x, folded) == Off(lines, k + 1)
  {
    hide Text, Off, PassEol, LineStop, CLineStop, SkipBlank, AllProper, NonBlank, GroupInfos.SkipSpace;
    SkipIn(lines, body, k, x);
    StopAt(lines, body, k, x + SkipBlank(lines[k][x..], 0));
    CStopAt(lines, body, k, x + SkipBlank(lines[k][x..], 0));
    PassAt(lines, body, k);
  }

  /** A blank one: the space skipped goes on into the next line. */
  lemma SetNextOn(lines: seq<seq<byte>>, body: seq<byte>, k: nat, x: nat, folded: bool)
    requires AllProper(lines) && k < |lines| && x <= |lines[k]| && !NonBlank(lines[k][x..])
    ensures Off(lines, k) + x < Off(lines, k + 1) < |Text(lines, body)|
    ensures var s := Text(lines, body);
      SetNext(s, Off(lines, k) + x, folded) == SetNext(s, Off(lines, k + 1), folded)
  {
    hide Text, Off, PassEol, LineStop, CLineStop;
    var s, o, c := Text(lines, body), Off(lines, k), lines[k][x..];
    LineAt(lines, body, k);
    forall y | o + x <= y < o + |lines[k]| + 2
      ensures GroupInfos.IsSpace(At(s, y))
    {
      if y < o + |lines[k]| {
        CharAt(lines, body, k, y - o);
        assert s[y] == c[y - o - x];
      }
    }
    SkipThrough(s, o + x, o + |lines[k]| + 2);
  }

  lemma {:induction false} SkipThrough(s: seq<byte>, i: nat, j: nat)
    requires i <= j <= |s| && forall y :: i <= y < j ==> GroupInfos.IsSpace(At(s, y))
    ensures GroupInfos.SkipSpace(s, i) == GroupInfos.SkipSpace(s, j)
    decreases j - i
  {
    if i < j {
      assert GroupInfos.IsSpace(At(s, i));
      SkipThrough(s, i + 1, j);
    }
  }

  /** What follows the header lines up to j, as setfield sees it. */
  lemma NextStart(lines: seq<seq<byte>>, body: seq<byte>, j: nat, folded: bool)
    requires AllProper(lines) && j <= |lines|
    ensures var s, o := Text(lines, body), Off(lines, j);
      && o < |s| && SetNext(s, o, folded) > o
      && (FoldedAt(s, o) <==> j < |lines| && Folded(lines[j]))
  {
    hide Text, Off, PassEol;
    var s, o := Text(lines, body), Off(lines, j);
    if j < |lines| {
      LineAt(lines, body, j);
      assert Proper(lines[j]);
      CharAt(lines, body, j, 0);
      assert At(s, o) == lines[j][0];
      assert GroupInfos.SkipSpace(s, o) == o ==> LineStop(s, o) > o && CLineStop(s, o) > o;
    } else {
      EmptyLineAt(lines, body);
      assert GroupInfos.SkipSpace(s, o) > o;
    }
  }

  /** From a point in line j, whose folded lines end at e, setfield ends the field there exactly
      when the last line of it is not blank. Otherwise it takes the line after it as well. */
  lemma {:induction false} SetEndAt(lines: seq<seq<byte>>, body: seq<byte>, j: nat, x: nat, folded: bool)
    requires AllProper(lines) && j < |lines| && x <= |lines[j]|
    ensures Off(lines, j) + x <= |Text(lines, body)|
    ensures var e := FoldEnd(lines, j + 1);
      var end := SetEnd(Text(lines, body), Off(lines, j) + x, folded);
      if NonBlank(if e == j + 1 then lines[j][x..] else lines[e - 1]) then end == Off(lines, e) else end > Off(lines, e)
    decreases |lines| - j
  {
    hide Text, Off, SetNext, NonBlank, SetEnd, Folded, FoldedAt;
    var s, p, e := Text(lines, body), Off(lines, j) + x, FoldEnd(lines, j + 1);
    LineAt(lines, body, j);
    NextStart(lines, body, j + 1, folded);
    SetEndIs(s, p, folded);
    SetEndIs(s, Off(lines, j + 1), folded);
    if NonBlank(lines[j][x..]) {
      SetNextIn(lines, body, j, x, folded);
    } else {
      SetNextOn(lines, body, j, x, folded);
    }
    if e > j + 1 {
      assert lines[j + 1][0..] == lines[j + 1];
      SetEndAt(lines, body, j + 1, 0, folded || NonBlank(lines[j][x..]));
    }
  }

  // ----- setfield, then getfield -----

  /** The last line of the field that starts at line k, its name aside. */
  function LastOf(lines: seq<seq<byte>>, k: nat, fld: seq<byte>): seq<byte>
    requires k < |lines| && |fld| <= |lines[k]|
  {
    var e := FoldEnd(lines, k + 1);
    if e == k + 1 then lines[k][|fld|..] else lines[e - 1]
  }

  function Replaced(lines: seq<seq<byte>>, k: nat, new_lines: seq<seq<byte>>): seq<seq<byte>>
    requires k <= |lines|
  {
    lines[..k] + new_lines + lines[FieldEnd(lines, k)..]
  }

  lemma TextSplit(lines: seq<seq<byte>>, body: seq<byte>, k: nat)
    requires k <= |lines|
    ensures var s, o := Text(lines, body), Off(lines, k);
      o <= |s| && s[..o] == Join(lines[..k]) && s[o..] == Text(lines[k..], body)
  {
    hide Join;
    assert lines == lines[..k] + lines[k..];
    JoinTwo(lines[..k], lines[k..]);
    assert Text(lines, body) == Join(lines[..k]) + Text(lines[k..], body);
  }

  lemma ReplacedText(lines: seq<seq<byte>>, body: seq<byte>, k: nat, e: nat, new_lines: seq<seq<byte>>)
    requires k <= e <= |lines|
    ensures var s := Text(lines, body);
      && Off(lines, k) <= |s| && Off(lines, e) <= |s|
      && s[..Off(lines, k)] + Join(new_lines) + s[Off(lines, e)..] == Text(lines[..k] + new_lines + lines[e..], body)
  {
    hide Join;
    TextSplit(lines, body, k);
    TextSplit(lines, body, e);
    JoinTwo(lines[..k] + new_lines, lines[e..]);
    JoinTwo(lines[..k], new_lines);
  }

  lemma SetFieldIs(s: seq<byte>, fld: seq<byte>, f: nat, data: seq<byte>)
    requires f < |s| && Find(CStr(s), 0, Cut(fld)) == Ok(f)
    ensures Eol(s[f]) ==> SetField(s, fld, data) == Ok(s[..f] + data + s[f..])
    ensures !Eol(s[f]) && f + |fld| <= |CStr(s)| ==>
      SetField(s, fld, data) == Ok(s[..f] + data + s[SetEnd(s, f + |fld|, false)..])
  {
    hide Find, SetEnd, CStr, Cut;
  }

  lemma FindFirst(lines: seq<seq<byte>>, body: seq<byte>, fld: seq<byte>)
    requires lines != [] && AllProper(lines) && Name(fld)
    ensures var s, k := Text(lines, body), First(lines, fld);
      && Off(lines, k) < |s| && Find(CStr(s), 0, fld) == Ok(Off(lines, k))
      && (Eol(s[Off(lines, k)]) <==> k == |lines|)
      && (k < |lines| ==> Off(lines, k) + |lines[k]| <= |CStr(s)|)
      && Cut(fld) == fld
  {
    hide Text, Off, Match, Find, CStr;
    var k := First(lines, fld);
    CStrText(lines, body);
    OffZero(lines);
    FindAt(lines, CStr(body), 0, fld);
    assert lines[0..] == lines;
    if k == |lines| {
      EmptyLineAt(lines, body);
    } else {
      assert Proper(lines[k]);
      LineAt(lines, CStr(body), k);
      CharAt(lines, body, k, 0);
    }
  }

  /** setfield replaces exactly the field, or adds it after the last one, if and only if there is
      no such field yet or its last line is not blank. */
  lemma SetAt(lines: seq<seq<byte>>, body: seq<byte>, fld: seq<byte>, new_lines: seq<seq<byte>>)
    requires lines != [] && AllProper(lines) && Name(fld)
    ensures var k := First(lines, fld);
      && (k < |lines| ==> |fld| <= |lines[k]|)
      && (SetField(Text(lines, body), fld, Join(new_lines)) == Ok(Text(Replaced(lines, k, new_lines), body))
          <==> k == |lines| || NonBlank(LastOf(lines, k, fld)))
  {
    hide Text, Off, Join, Match, AllProper, Find, SetEnd, SetField, NonBlank, Name, FoldEnd, CStr;
    var s, k := Text(lines, body), First(lines, fld);
    FindFirst(lines, body, fld);
    SetFieldIs(s, fld, Off(lines, k), Join(new_lines));
    if k == |lines| {
      ReplacedText(lines, body, k, k, new_lines);
    } else {
      MatchLength(lines[k], fld);
      SetEndAt(lines, body, k, |fld|, false);
      ReplacedText(lines, body, k, FoldEnd(lines, k + 1), new_lines);
      SetLength(s, Off(lines, k), Off(lines, FoldEnd(lines, k + 1)), SetEnd(s, Off(lines, k) + |fld|, false),
                Join(new_lines));
    }
  }

  /** Cutting further out leaves a shorter text. */
  lemma SetLength(s: seq<byte>, f: nat, e: nat, end: nat, data: seq<byte>)
    requires f <= |s| && e <= end <= |s|
    ensures s[..f] + data + s[end..] == s[..f] + data + s[e..] <==> end == e
  {
    assert |s[..f] + data + s[end..]| == f + |data| + |s| - end;
    assert |s[..f] + data + s[e..]| == f + |data| + |s| - e;
  }

  lemma ColonAt(line: seq<byte>, f: seq<byte>, g: seq<byte>)
    requires Name(f) && Match(line, f) && Match(line, g) && |f| <= |g|
    ensures g[|f| - 1] == 58
  {
    assert Lower(line[0 + (|f| - 1)]) == Lower(f[|f| - 1]);
    assert Lower(line[0 + (|f| - 1)]) == Lower(g[|f| - 1]);
  }

  lemma OneName(line: seq<byte>, f: seq<byte>, g: seq<byte>)
    requires Name(f) && Name(g) && Match(line, f) && Match(line, g)
    ensures SameName(f, g)
  {
    if |f| <= |g| {
      ColonAt(line, f, g);
    }
    if |g| <= |f| {
      ColonAt(line, g, f);
    }
    forall k | 0 <= k < |f|
      ensures Lower(f[k]) == Lower(g[k])
    {
      assert Lower(line[0 + k]) == Lower(f[k]);
    }
  }

  lemma NotFolded(line: seq<byte>, f: seq<byte>)
    requires Name(f) && Match(line, f)
    ensures !Folded(line)
  {
    assert Lower(line[0]) == Lower(f[0]);
  }

  /** A header field as one gives it to setfield: a line with the name, and folded lines. */
  predicate IsField(new_lines: seq<seq<byte>>, fld: seq<byte>) {
    && new_lines != [] && AllProper(new_lines) && Match(new_lines[0], fld)
    && forall i :: 0 < i < |new_lines| ==> Folded(new_lines[i])
  }

  /** n lines that are the same in both, then the end of a field. */
  lemma {:induction false} UnfoldedSame(a: seq<seq<byte>>, i: nat, b: seq<seq<byte>>, j: nat, n: nat)
    requires i + n <= |a| && j + n <= |b| && forall y :: i <= y < i + n ==> a[y] == b[y - i + j]
    requires (i + n < |a| ==> !Folded(a[i + n])) && (j + n < |b| ==> !Folded(b[j + n]))
    ensures Unfolded(a, i) == Unfolded(b, j)
    decreases n
  {
    hide Folded;
    if n > 0 {
      assert a[i] == b[j];
      UnfoldedSame(a, i + 1, b, j + 1, n - 1);
    }
  }

  lemma {:induction false} FirstIs(lines: seq<seq<byte>>, fld: seq<byte>, k: nat)
    requires k <= |lines| && forall i :: 0 <= i < k ==> !Match(lines[i], fld)
    requires k < |lines| ==> Match(lines[k], fld)
    ensures First(lines, fld) == k
  {
    hide Match;
    if k > 0 {
      FirstIs(lines[1..], fld, k - 1);
    }
  }

  function FieldEnd(lines: seq<seq<byte>>, k: nat): (e: nat)
    requires k <= |lines|
    ensures k <= e <= |lines|
  {
    if k == |lines| then k else FoldEnd(lines, k + 1)
  }

  lemma ReplacedIs(lines: seq<seq<byte>>, k: nat, new_lines: seq<seq<byte>>)
    requires k <= |lines|
    ensures var r, e, n := Replaced(lines, k, new_lines), FieldEnd(lines, k), |new_lines|;
      && |r| == k + n + |lines| - e && (e < |lines| ==> !Folded(lines[e])) && forall i :: k < i < e ==> Folded(lines[i])
  {
  }

  lemma ReplacedEnd(lines: seq<seq<byte>>, new_lines: seq<seq<byte>>)
    ensures Replaced(lines, |lines|, new_lines) == lines + new_lines
  {
  }

  /** Line i after the replacement. */
  lemma ReplacedAt(lines: seq<seq<byte>>, k: nat, new_lines: seq<seq<byte>>, i: nat)
    requires k <= |lines| && i < |Replaced(lines, k, new_lines)|
    ensures var r, e, n := Replaced(lines, k, new_lines), FieldEnd(lines, k), |new_lines|;
      if i < k then r[i] == lines[i]
      else if i < k + n then r[i] == new_lines[i - k]
      else i - k - n + e < |lines| && r[i] == lines[i - k - n + e]
  {
    hide FieldEnd;
  }

  /** The new field is read back. */
  lemma ReplacedNew(lines: seq<seq<byte>>, fld: seq<byte>, new_lines: seq<seq<byte>>)
    requires Name(fld) && IsField(new_lines, fld)
    ensures |fld| <= |new_lines[0]|
    ensures Value(Replaced(lines, First(lines, fld), new_lines), fld)
         == Ok(Trim(new_lines[0][|fld|..]) + Unfolded(new_lines, 1))
  {
    hide Match, Trim, Folded, Unfolded, Replaced, FieldEnd, Name, AllProper, First;
    var k, n := First(lines, fld), |new_lines|;
    var r := Replaced(lines, k, new_lines);
    ReplacedIs(lines, k, new_lines);
    MatchLength(new_lines[0], fld);
    forall i | 0 <= i < k
      ensures !Match(r[i], fld)
    {
      ReplacedAt(lines, k, new_lines, i);
    }
    ReplacedAt(lines, k, new_lines, k);
    FirstIs(r, fld, k);
    forall y | k + 1 <= y < k + n
      ensures r[y] == new_lines[y - k]
    {
      ReplacedAt(lines, k, new_lines, y);
    }
    if k + n < |r| {
      ReplacedAt(lines, k, new_lines, k + n);
    }
    UnfoldedSame(r, k + 1, new_lines, 1, n - 1);
  }

  /** Where the first line with another name is after the replacement. */
  lemma ReplacedFirst(lines: seq<seq<byte>>, fld: seq<byte>, new_lines: seq<seq<byte>>, g: seq<byte>)
    requires Name(fld) && Name(g) && !SameName(fld, g) && IsField(new_lines, fld)
    ensures var k, m := First(lines, fld), First(lines, g);
      var e := FieldEnd(lines, k);
      && (m < k || m >= e)
      && First(Replaced(lines, k, new_lines), g) == if m < k then m else m - e + k + |new_lines|
  {
    hide Match, Folded, Replaced, FieldEnd, Name, SameName, AllProper, IsField, First;
    var k, m, n := First(lines, fld), First(lines, g), |new_lines|;
    var e, r := FieldEnd(lines, k), Replaced(lines, k, new_lines);
    ReplacedIs(lines, k, new_lines);
    forall i | 0 <= i < n
      ensures !Match(new_lines[i], g)
    {
      NoMatch(new_lines, i, fld, g);
    }
    forall i | k <= i < e
      ensures !Match(lines[i], g)
    {
      if i == k {
        OtherLine(lines[k], fld, g);
      } else {
        FoldedLine(lines[i], g);
      }
    }
    var at := if m < k then m else m - e + k + n;
    forall i | 0 <= i < at
      ensures !Match(r[i], g)
    {
      ReplacedAt(lines, k, new_lines, i);
    }
    if at < |r| {
      ReplacedAt(lines, k, new_lines, at);
    }
    FirstIs(r, g, at);
  }

  /** A field before the replaced one. */
  lemma ReplacedBefore(lines: seq<seq<byte>>, k: nat, new_lines: seq<seq<byte>>, m: nat)
    requires m < k <= |lines| && (k < |lines| ==> !Folded(lines[k])) && new_lines != [] && !Folded(new_lines[0])
    ensures var r := Replaced(lines, k, new_lines);
      m < |r| && r[m] == lines[m] && Unfolded(r, m + 1) == Unfolded(lines, m + 1)
  {
    hide Folded, Unfolded, Replaced, FieldEnd;
    var r, f, n := Replaced(lines, k, new_lines), FoldEnd(lines, m + 1), |new_lines|;
    ReplacedIs(lines, k, new_lines);
    FoldStops(lines, m + 1, k);
    ReplacedAt(lines, k, new_lines, k);
    ReplacedAt(lines, k, new_lines, m);
    forall y | m + 1 <= y < f
      ensures r[y] == lines[y]
    {
      ReplacedAt(lines, k, new_lines, y);
    }
    if f < k {
      ReplacedAt(lines, k, new_lines, f);
    }
    UnfoldedSame(r, m + 1, lines, m + 1, f - (m + 1));
  }

  /** A field after it. */
  lemma ReplacedAfter(lines: seq<seq<byte>>, k: nat, new_lines: seq<seq<byte>>, m: nat)
    requires k <= |lines| && FieldEnd(lines, k) <= m < |lines|
    ensures var r, at := Replaced(lines, k, new_lines), m - FieldEnd(lines, k) + k + |new_lines|;
      at < |r| && r[at] == lines[m] && Unfolded(r, at + 1) == Unfolded(lines, m + 1)
  {
    hide Folded, Unfolded, Replaced, FieldEnd;
    var r, e, n := Replaced(lines, k, new_lines), FieldEnd(lines, k), |new_lines|;
    ReplacedIs(lines, k, new_lines);
    var at, f := m - e + k + n, FoldEnd(lines, m + 1);
    ReplacedAt(lines, k, new_lines, at);
    forall y | at + 1 <= y < at + f - m
      ensures r[y] == lines[y - (at + 1) + (m + 1)]
    {
      ReplacedAt(lines, k, new_lines, y);
    }
    if f < |lines| {
      ReplacedAt(lines, k, new_lines, at + f - m);
    }
    UnfoldedSame(r, at + 1, lines, m + 1, f - (m + 1));
  }

  /** Every other field reads as before. */
  lemma ReplacedOther(lines: seq<seq<byte>>, fld: seq<byte>, new_lines: seq<seq<byte>>, g: seq<byte>)
    requires Name(fld) && Name(g) && !SameName(fld, g) && IsField(new_lines, fld)
    ensures Value(Replaced(lines, First(lines, fld), new_lines), g) == Value(lines, g)
  {
    hide Match, Trim, Folded, Unfolded, SameName, Name, Replaced, FieldEnd, AllProper, First;
    var k, m, n := First(lines, fld), First(lines, g), |new_lines|;
    ReplacedIs(lines, k, new_lines);
    ReplacedFirst(lines, fld, new_lines, g);
    NotFolded(new_lines[0], fld);
    if m < k {
      if k < |lines| {
        NotFolded(lines[k], fld);
      }
      ReplacedBefore(lines, k, new_lines, m);
    } else if m < |lines| {
      ReplacedAfter(lines, k, new_lines, m);
    }
  }

  lemma FoldStops(lines: seq<seq<byte>>, j: nat, k: nat)
    requires j <= k <= |lines| && (k < |lines| ==> !Folded(lines[k]))
    ensures FoldEnd(lines, j) <= k
  {
  }

  lemma OtherLine(line: seq<byte>, fld: seq<byte>, g: seq<byte>)
    requires Name(fld) && Name(g) && !SameName(fld, g) && Match(line, fld)
    ensures !Match(line, g)
  {
    if Match(line, g) {
      OneName(line, fld, g);
    }
  }

  lemma FoldedLine(line: seq<byte>, g: seq<byte>)
    requires Name(g) && Folded(line)
    ensures !Match(line, g)
  {
    if Match(line, g) {
      NotFolded(line, g);
    }
  }

  lemma NoMatch(new_lines: seq<seq<byte>>, i: nat, fld: seq<byte>, g: seq<byte>)
    requires Name(fld) && Name(g) && !SameName(fld, g) && IsField(new_lines, fld) && i < |new_lines|
    ensures !Match(new_lines[i], g)
  {
    if i == 0 {
      OtherLine(new_lines[0], fld, g);
    } else {
      FoldedLine(new_lines[i], g);
    }
  }

  lemma ReplacedProper(lines: seq<seq<byte>>, k: nat, new_lines: seq<seq<byte>>)
    requires k <= |lines| && AllProper(lines) && AllProper(new_lines) && new_lines != []
    ensures AllProper(Replaced(lines, k, new_lines)) && Replaced(lines, k, new_lines) != []
  {
    hide Proper;
  }

  /** setfield, then getfield: the field has the new value and every other one the value it had.
      The name "bytes:" keeps giving the length of the article, whatever was set. */
  lemma SetThenGet(lines: seq<seq<byte>>, body: seq<byte>, fld: seq<byte>, new_lines: seq<seq<byte>>, g: seq<byte>)
    requires lines != [] && AllProper(lines) && Name(fld) && IsField(new_lines, fld) && Name(g)
    requires var k := First(lines, fld);
      (k < |lines| ==> |fld| <= |lines[k]|) && (k == |lines| || NonBlank(LastOf(lines, k, fld)))
    ensures var r := SetField(Text(lines, body), fld, Join(new_lines));
      && r.Ok? && |fld| <= |new_lines[0]|
      && (GetField(r.value, fld, false)
          == if SameName(fld, BYTES) then Ok(GroupInfos.Dec(|r.value|))
             else Ok(Trim(new_lines[0][|fld|..]) + Unfolded(new_lines, 1)))
      && (!SameName(fld, g) && !SameName(g, BYTES) ==>
            GetField(r.value, g, false) == GetField(Text(lines, body), g, false))
      && (SameName(g, BYTES) ==>
            (GetField(r.value, g, false) == GetField(Text(lines, body), g, false)
             <==> |r.value| == |Text(lines, body)|))
  {
    hide *;
    FieldParts(new_lines, fld);
    SetAt(lines, body, fld, new_lines);
    var k := First(lines, fld);
    ReplacedProper(lines, k, new_lines);
    GetAt(Replaced(lines, k, new_lines), body, fld, false);
    ReplacedNew(lines, fld, new_lines);
    GetAt(Replaced(lines, k, new_lines), body, g, false);
    GetAt(lines, body, g, false);
    if SameName(g, BYTES) {
      GroupInfos.DecValueDec(|Text(lines, body)|);
      GroupInfos.DecValueDec(|Text(Replaced(lines, k, new_lines), body)|);
    } else if !SameName(fld, g) {
      ReplacedOther(lines, fld, new_lines, g);
    }
  }

  /** Setting "bytes:9" in the article of one line "a:1" adds the line, and the field reads "16". */
  lemma BytesIsLength()
    ensures var r := SetField(Text([[97, 58, 49]], []), BYTES, BYTES + [57] + CRLF);
      && r == Ok(Text([[97, 58, 49], BYTES + [57]], []))
      && GetField(r.value, BYTES, false) == Ok([49, 54])
  {
    hide SetField, GetField, Text, Name, Join, Match, First, Replaced, SameName;
    var lines: seq<seq<byte>>, line := [[97, 58, 49]], BYTES + [57];
    BytesName();
    assert !Match(lines[0], BYTES) by { BytesOther(); }
    FirstIs(lines, BYTES, 1);
    SetAt(lines, [], BYTES, [line]);
    JoinOne(line);
    ReplacedEnd(lines, [line]);
    assert Replaced(lines, 1, [line]) == [[97, 58, 49], line];
    BytesLength(line);
    GetAt([[97, 58, 49], line], [], BYTES, false);
    BytesSame();
  }

  lemma BytesName()
    ensures Name(BYTES)
  {
  }

  lemma BytesSame()
    ensures SameName(BYTES, BYTES) && GroupInfos.Dec(16) == [49, 54]
  {
    assert GroupInfos.Dec(1) == [49];
  }

  lemma BytesOther()
    ensures !Match([97, 58, 49], BYTES)
  {
  }

  lemma BytesLength(line: seq<byte>)
    requires |line| == 7
    ensures |Text([[97, 58, 49], line], [])| == 16
  {
    var lines: seq<seq<byte>> := [[97, 58, 49], line];
    JoinOne(line);
    assert lines[1..] == [line];
  }

  lemma FieldParts(new_lines: seq<seq<byte>>, fld: seq<byte>)
    requires IsField(new_lines, fld)
    ensures new_lines != [] && AllProper(new_lines)
  {
    hide Proper;
  }

  /** An article whose field "a:" is blank, followed by the field "b:1". */
  const BLANK_FIELD: seq<byte> := [97, 58, 13, 10, 98, 58, 49, 13, 10, 13, 10]

  /** Setting the blank field removes the field after it. */
  lemma BlankSwallowsNext()
    ensures GetField(BLANK_FIELD, [98, 58], false) == Ok([49])
    ensures SetField(BLANK_FIELD, [97, 58], [97, 58, 50, 13, 10]) == Ok([97, 58, 50, 13, 10, 13, 10])
    ensures GetField([97, 58, 50, 13, 10, 13, 10], [98, 58], false) == NoSuchField
  {
    hide GetField, SetField, Text, Join;
    var lines: seq<seq<byte>> := [[97, 58], [98, 58, 49]];
    SwallowText(lines);
    SwallowGet(lines);
    SwallowSet();
    SwallowGone();
  }

  lemma SwallowText(lines: seq<seq<byte>>)
    requires lines == [[97, 58], [98, 58, 49]]
    ensures Text(lines, []) == BLANK_FIELD
  {
    assert lines[1..] == [[98, 58, 49]] && lines[1..][1..] == [];
    assert Join(lines) == [97, 58] + CRLF + Join(lines[1..]);
    assert Join(lines[1..]) == [98, 58, 49] + CRLF + Join([]);
  }

  lemma SwallowGet(lines: seq<seq<byte>>)
    requires lines == [[97, 58], [98, 58, 49]]
    ensures GetField(Text(lines, []), [98, 58], false) == Ok([49])
  {
    hide Text, GetField, Join;
    GetAt(lines, [], [98, 58], false);
    assert !Match(lines[0], [98, 58]) && Match(lines[1], [98, 58]);
    FirstIs(lines, [98, 58], 1);
    assert lines[1][2..] == [49];
    BlankIs([49], 0, 0);
    assert Trim([49]) == [49] && Unfolded(lines, 2) == [];
    assert [49] + [] == [49];
  }

  lemma SwallowSet()
    ensures SetField(BLANK_FIELD, [97, 58], [97, 58, 50, 13, 10]) == Ok([97, 58, 50, 13, 10, 13, 10])
  {
    hide CLineStop, GroupInfos.SkipSpace, SetEnd, Find, CStr;
    var s := BLANK_FIELD;
    GroupInfos.SkipIs(s, 2, 4);
    CStopIs(s, 4, 7);
    SetEndIs(s, 2, false);
    assert SetNext(s, 2, false) == 9 && Eol(At(s, 9));
    CStrIs(s, 11);
    assert CStr(s) == s;
    assert PrefixAt(s, 0, [97, 58]);
    FindHere(s, 0, [97, 58]);
    SetFieldIs(s, [97, 58], 0, [97, 58, 50, 13, 10]);
    assert s[..0] + [97, 58, 50, 13, 10] + s[9..] == [97, 58, 50, 13, 10, 13, 10];
  }

  lemma SwallowGone()
    ensures GetField([97, 58, 50, 13, 10, 13, 10], [98, 58], false) == NoSuchField
  {
    hide LineStop, Content, Find, CStr;
    var t: seq<byte> := [97, 58, 50, 13, 10, 13, 10];
    CStrIs(t, 7);
    assert CStr(t) == t;
    StopIs(t, 0, 3);
    assert !PrefixAt(t, 0, [98, 58]) by {
      assert Lower(t[0 + 0]) != Lower([98, 58][0]);
    }
    FindStep(t, 0, [98, 58], 3);
  }

  // ----- case and white space -----

  /** The same letter, or a capital and its small letter. */
  predicate SameLetter(a: byte, b: byte) {
    a == b || (65 <= a <= 90 && b == a + 32) || (65 <= b <= 90 && a == b + 32)
  }

  /** The case of the letters in a name makes no difference. */
  lemma CaseBlind(s: seq<byte>, f: seq<byte>, g: seq<byte>, full: bool, data: seq<byte>)
    requires |f| == |g| && forall k :: 0 <= k < |f| ==> SameLetter(f[k], g[k])
    ensures GetField(s, f, full) == GetField(s, g, full) && SetField(s, f, data) == SetField(s, g, data)
  {
    hide Find, SetEnd, CStr, Content, SkipBlank;
    assert forall k :: 0 <= k < |f| ==> Lower(f[k]) == Lower(g[k]);
    FindBlind(CStr(s), 0, Cut(f), Cut(g));
  }

  lemma {:induction false} FindBlind(s: seq<byte>, i: nat, f: seq<byte>, g: seq<byte>)
    requires i <= |s| && |f| == |g| && forall k :: 0 <= k < |f| ==> Lower(f[k]) == Lower(g[k])
    ensures Find(s, i, f) == Find(s, i, g)
    decreases |s| - i
  {
    hide LineStop, Lower, Agreeing, Find, Eol, PrefixAt;
    var n := Agreeing(s, i, f);
    AgreeingIs(s, i, g, n);
    FindIs(s, i, f);
    FindIs(s, i, g);
    if n < |f| {
      var q := LineStop(s, i + n);
      if q < |s| && s[q] == NL && !Eol(At(s, q + 1)) {
        FindBlind(s, q + 1, f, g);
      } else if q < |s| && s[q] == CR && At(s, q + 1) == NL && !Eol(At(s, q + 2)) {
        FindBlind(s, q + 2, f, g);
      }
    }
  }

  /** No others are taken for each other: a field is found only where each character of the name is
      the same letter. */
  lemma FoundSame(s: seq<byte>, fld: seq<byte>)
    ensures var r := Find(s, 0, fld);
      r.Ok? && !Eol(At(s, r.value)) ==>
        r.value + |fld| <= |s| && forall k :: 0 <= k < |fld| ==> SameLetter(s[r.value + k], fld[k])
  {
    hide Find;
  }

  /** A line is folded onto the one before it if it starts with a blank or a tab, and all of them
      at its start are left out. */
  lemma Indented(line: seq<byte>) returns (n: nat)
    ensures Folded(line) <==> line != [] && (line[0] == 32 || line[0] == 9)
    ensures n <= |line| && Trim(line) == line[n..] && (forall k :: 0 <= k < n ==> line[k] == 32 || line[k] == 9)
    ensures n < |line| ==> line[n] != 32 && line[n] != 9
  {
    n := SkipBlank(line, 0);
  }

  // ----- bare newlines, and articles that are cut off -----

  /** One step of find_field over a line that does not start as the name does. */
  lemma FindOver(s: seq<byte>, i: nat, fld: seq<byte>, q: nat)
    requires i <= q <= |s| && fld != [] && (i < |s| ==> Lower(s[i]) != Lower(fld[0]))
    requires (forall k :: i <= k < q ==> !Eol(s[k])) && (q < |s| ==> Eol(s[q]))
    ensures q == |s| ==> Find(s, i, fld) == InvalidArticle
    ensures q < |s| && s[q] == NL ==> Find(s, i, fld) == if Eol(At(s, q + 1)) then Ok(q + 1) else Find(s, q + 1, fld)
    ensures q < |s| && s[q] == CR && At(s, q + 1) != NL ==> Find(s, i, fld) == InvalidArticle
  {
    hide LineStop, Find;
    StopIs(s, i, q);
    FindIs(s, i, fld);
  }

  /** "a:1", a folded line "2", "b:3", an empty line and "x", all ended by bare newlines. */
  const BARE: seq<byte> := [97, 58, 49, 10, 32, 50, 10, 98, 58, 51, 10, 10, 120]

  /** getfield and setfield take bare newlines as well. */
  lemma BareFields()
    ensures GetField(BARE, [97, 58], false) == Ok([49, 50]) && GetField(BARE, [98, 58], false) == Ok([51])
    ensures GetField(BARE, [99, 58], false) == NoSuchField
    ensures SetField(BARE, [97, 58], [97, 58, 52, 10]) == Ok([97, 58, 52, 10, 98, 58, 51, 10, 10, 120])
  {
    hide GetField, SetField;
    BareFirst();
    BareSecond();
    BareThird();
    BareSet();
  }

  lemma BareFirst()
    ensures GetField(BARE, [97, 58], false) == Ok([49, 50])
  {
    hide Find, LineStop, SkipBlank, CStr, Unfold;
    var s := BARE;
    BareOver([98, 58]);
    FindHere(s, 0, [97, 58]);
    BlankIs(s, 2, 2);
    StopIs(s, 2, 3);
    BareFolded();
    assert s[2..3] == [49] && [49] + [50] == [49, 50];
  }

  lemma BareFolded()
    ensures Unfold(BARE, 4) == Ok([50])
  {
    hide LineStop, SkipBlank, Unfold;
    var s := BARE;
    BlankIs(s, 4, 5);
    StopIs(s, 5, 6);
    UnfoldStop(s, 7);
    UnfoldStep(s, 4, 7, []);
    assert s[5..6] + [] == [50];
  }

  lemma BareSecond()
    ensures GetField(BARE, [98, 58], false) == Ok([51])
  {
    hide Find, LineStop, SkipBlank, CStr, Unfold;
    var s := BARE;
    BareOver([98, 58]);
    FindHere(s, 7, [98, 58]);
    BlankIs(s, 9, 9);
    StopIs(s, 9, 10);
    UnfoldStop(s, 11);
    assert s[9..10] + [] == [51];
  }

  lemma BareThird()
    ensures GetField(BARE, [99, 58], false) == NoSuchField
  {
    hide Find, LineStop, SkipBlank, CStr, Unfold;
    BareOver([99, 58]);
    FindOver(BARE, 7, [99, 58], 10);
  }

  lemma BareOver(fld: seq<byte>)
    requires fld == [98, 58] || fld == [99, 58]
    ensures CStr(BARE) == BARE && Find(BARE, 0, fld) == Find(BARE, 7, fld)
  {
    hide Find, CStr;
    CStrIs(BARE, 13);
    assert BARE[..13] == BARE;
    FindOver(BARE, 0, fld, 3);
    FindOver(BARE, 4, fld, 6);
  }

  lemma BareSet()
    ensures SetField(BARE, [97, 58], [97, 58, 52, 10]) == Ok([97, 58, 52, 10, 98, 58, 51, 10, 10, 120])
  {
    hide SetEnd, Find, CStr, SetField;
    BareOver([98, 58]);
    FindHere(BARE, 0, [97, 58]);
    BareEnd();
    SetFieldIs(BARE, [97, 58], 0, [97, 58, 52, 10]);
    var data: seq<byte>, rest: seq<byte> := [97, 58, 52, 10], [98, 58, 51, 10, 10, 120];
    assert BARE[..0] == [] && BARE[7..] == rest;
    assert [] + data + rest == [97, 58, 52, 10, 98, 58, 51, 10, 10, 120];
  }

  lemma BareEnd()
    ensures SetEnd(BARE, 2, false) == 7
  {
    hide LineStop, CLineStop, GroupInfos.SkipSpace, SetEnd;
    var s := BARE;
    GroupInfos.SkipIs(s, 2, 2);
    CStopIs(s, 2, 3);
    SetEndIs(s, 2, false);
    GroupInfos.SkipIs(s, 4, 5);
    StopIs(s, 5, 6);
    SetEndIs(s, 4, true);
  }

  /** A text that ends within a line, one that ends behind its last field, and one with a lone
      carriage return: none is a valid article, whether its field "a:" is asked for or another. */
  lemma CutOff()
    ensures GetField([97, 58, 49], [97, 58], false) == GetField([97, 58, 49], [98, 58], false) == InvalidArticle
    ensures GetField([97, 58, 49, 13, 10], [97, 58], false) == InvalidArticle
    ensures GetField([97, 58, 49, 10], [98, 58], false) == InvalidArticle
    ensures GetField([97, 58, 49, 13, 120, 10, 10], [97, 58], false) == InvalidArticle
    ensures GetField([97, 58, 49, 13, 120, 10, 10], [98, 58], false) == InvalidArticle
    ensures SetField([97, 58, 49], [98, 58], []) == InvalidArticle
  {
    hide GetField, SetField;
    CutInLine([97, 58, 49]);
    CutBehind([97, 58, 49, 13, 10]);
    CutBehind([97, 58, 49, 10]);
    LoneCr([97, 58, 49, 13, 120, 10, 10]);
  }

  lemma CutInLine(s: seq<byte>)
    requires s == [97, 58, 49]
    ensures GetField(s, [97, 58], false) == GetField(s, [98, 58], false) == InvalidArticle
    ensures SetField(s, [98, 58], []) == InvalidArticle
  {
    hide Find, LineStop, SkipBlank, CStr;
    CStrIs(s, 3);
    assert CStr(s) == s;
    FindHere(s, 0, [97, 58]);
    BlankIs(s, 2, 2);
    StopIs(s, 2, 3);
    FindOver(s, 0, [98, 58], 3);
  }

  lemma CutBehind(s: seq<byte>)
    requires s == [97, 58, 49, 13, 10] || s == [97, 58, 49, 10]
    ensures GetField(s, [97, 58], false) == InvalidArticle
    ensures s[3] == NL ==> GetField(s, [98, 58], false) == InvalidArticle
  {
    hide Find, LineStop, SkipBlank, CStr;
    CStrIs(s, |s|);
    assert CStr(s) == s;
    FindHere(s, 0, [97, 58]);
    BlankIs(s, 2, 2);
    StopIs(s, 2, 3);
    FindOver(s, 0, [98, 58], 3);
    FindOver(s, |s|, [98, 58], |s|);
  }

  lemma LoneCr(s: seq<byte>)
    requires s == [97, 58, 49, 13, 120, 10, 10]
    ensures GetField(s, [97, 58], false) == GetField(s, [98, 58], false) == InvalidArticle
  {
    hide Find, LineStop, SkipBlank, CStr;
    CStrIs(s, 7);
    assert CStr(s) == s;
    FindHere(s, 0, [97, 58]);
    BlankIs(s, 2, 2);
    StopIs(s, 2, 3);
    FindOver(s, 0, [98, 58], 3);
  }

  // ----- head and body -----

  function SkipEols(s: seq<byte>, i: nat): (j: nat)
    requires i <= |s|
    ensures i <= j <= |s|
    decreases |s| - i
  {
    if i < |s| && Eol(s[i]) then SkipEols(s, i + 1) else i
  }

  /** write: the end of the head, after the CRLF of its last line. */
  function HeadEnd(s: seq<byte>, q: nat): (e: nat)
    requires q <= |s|
    ensures q <= e <= |s|
    decreases |s| - q
  {
    var e := LineStop(s, q);
    if e == |s| then e
    else if s[e] == CR && At(s, e + 1) == NL && At(s, e + 2) == CR && At(s, e + 3) == NL then e + 2
    else if s[e] == NL && At(s, e + 1) == NL then e + 1
    else HeadEnd(s, SkipEols(s, e + 1))
  }

  /** Where the head ends; a NUL byte ends it as well. */
  function BodyStart(s: seq<byte>): (q: nat)
    ensures q <= |CStr(s)|
  {
    HeadEnd(CStr(s), 0)
  }

  function Head(s: seq<byte>): seq<byte> {
    s[..BodyStart(s)]
  }

  /** The body as write sends it: all the rest, NUL bytes included. Behind a bare newline it goes
      wrong: the newline stays, and one byte too many is sent, the NUL behind the text. */
  function Body(s: seq<byte>): seq<byte> {
    var q := BodyStart(s);
    if At(s, q) == NL then s[q..] + [0]
    else s[if At(s, q) == CR && At(s, q + 1) == NL then q + 2 else q..]
  }

  /** What is sent is a part of the article exactly when no bare newline ends the head. */
  lemma BodyInText(s: seq<byte>)
    ensures (exists i :: 0 <= i <= |s| && Body(s) == s[i..]) <==> At(s, BodyStart(s)) != NL
  {
    hide BodyStart;
    var q := BodyStart(s);
    if At(s, q) == NL {
      forall i | 0 <= i <= |s|
        ensures Body(s) != s[i..]
      {
        NotShifted(s, q, i);
      }
    } else {
      var i := if At(s, q) == CR && At(s, q + 1) == NL then q + 2 else q;
      assert 0 <= i <= |s| && Body(s) == s[i..];
    }
  }

  /** From a newline on, a text and its NUL are not the text moved by one. */
  lemma NotShifted(s: seq<byte>, q: nat, i: nat)
    requires q < |s| && s[q] == NL && i <= |s|
    ensures s[q..] + [0] != s[i..]
  {
    var k := LastNewline(s, q);
    assert (s[q..] + [0])[k + 1 - q] != NL;
    assert i + 1 == q ==> s[i..][k + 1 - q] == s[k];
    assert |s[q..] + [0]| == |s| - q + 1;
  }

  lemma {:induction false} LastNewline(s: seq<byte>, q: nat) returns (k: nat)
    requires q < |s| && s[q] == NL
    ensures q <= k < |s| && s[k] == NL && (k + 1 < |s| ==> s[k + 1] != NL)
    decreases |s| - q
  {
    k := q;
    if q + 1 < |s| && s[q + 1] == NL {
      k := LastNewline(s, q + 1);
    }
  }

  /** "a:1", a bare newline, an empty line and "b". */
  lemma BareNewlineBody()
    ensures Head([97, 58, 49, 10, 10, 98]) == [97, 58, 49, 10] && Body([97, 58, 49, 10, 10, 98]) == [10, 98, 0]
  {
    hide LineStop;
    var s: seq<byte> := [97, 58, 49, 10, 10, 98];
    StopIs(s, 0, 3);
    CStrIs(s, 6);
    assert CStr(s) == s && HeadEnd(s, 0) == 4;
  }

  lemma HeadStep(s: seq<byte>, q: nat, e: nat)
    requires q <= e && e + 2 < |s| && LineStop(s, q) == e && s[e] == CR && s[e + 1] == NL
    ensures s[e + 2] == CR && At(s, e + 3) == NL ==> HeadEnd(s, q) == e + 2
    ensures !Eol(s[e + 2]) ==> HeadEnd(s, q) == HeadEnd(s, e + 2)
  {
    hide LineStop;
    assert !Eol(s[e + 2]) ==> SkipEols(s, e + 1) == SkipEols(s, e + 2) == e + 2;
  }

  lemma {:induction false} HeadEndAt(lines: seq<seq<byte>>, body: seq<byte>, k: nat)
    requires AllProper(lines) && k < |lines|
    ensures Off(lines, k) <= |Text(lines, body)|
    ensures HeadEnd(Text(lines, body), Off(lines, k)) == Off(lines, |lines|)
    decreases |lines| - k
  {
    hide Text, Off, LineStop, HeadEnd;
    var s, o := Text(lines, body), Off(lines, k);
    LineAt(lines, body, k);
    StopAt(lines, body, k, 0);
    HeadStep(s, o, o + |lines[k]|);
    if k + 1 == |lines| {
      EmptyLineAt(lines, body);
    } else {
      LineAt(lines, body, k + 1);
      assert Proper(lines[k + 1]);
      CharAt(lines, body, k + 1, 0);
      HeadEndAt(lines, body, k + 1);
    }
  }

  /** Head and body are the two parts, and with an empty line between them the whole text. */
  lemma HeadBody(lines: seq<seq<byte>>, body: seq<byte>)
    requires lines != [] && AllProper(lines)
    ensures Head(Text(lines, body)) == Join(lines) && Body(Text(lines, body)) == body
    ensures Head(Text(lines, body)) + CRLF + Body(Text(lines, body)) == Text(lines, body)
  {
    hide Text, Off, Join, HeadEnd, CStr;
    CStrText(lines, body);
    OffZero(lines);
    HeadEndAt(lines, CStr(body), 0);
    EmptyLineAt(lines, body);
    TextIs(lines, body);
  }

  lemma TextIs(lines: seq<seq<byte>>, body: seq<byte>)
    ensures Text(lines, body) == Join(lines) + CRLF + body
  {
  }

  // ----- the object -----

  /** The name as a C string does not lead past the text where it is found, which a name that was
      cut can do. */
  predicate InText(s: seq<byte>, fld: seq<byte>) {
    0 !in fld && (Find(s, 0, Cut(fld)).Ok? ==>
      var f := Find(s, 0, Cut(fld)).value; Eol(At(s, f)) || f + |fld| <= |s|)
  }

  /** Every name that fits the buffer does. */
  lemma ShortInText(s: seq<byte>, fld: seq<byte>)
    requires 0 !in fld && |fld| < NAME_BUFFER
    ensures InText(s, fld)
  {
    hide Find;
  }

  lemma {:induction false} AgreesAll(s: seq<byte>, i: nat, fld: seq<byte>)
    requires i <= |s| && |s| - i <= |fld| && s[i..] == fld[..|s| - i]
    ensures Agreeing(s, i, fld) == |s| - i
    decreases |fld|
  {
    if i < |s| {
      assert s[i] == s[i..][0] == fld[0];
      assert s[i + 1..] == s[i..][1..] == fld[1..][..|s| - i - 1];
      AgreesAll(s, i + 1, fld[1..]);
    }
  }

  /** find_field looks for the name it is given exactly when it fits the buffer. */
  lemma CutIff(fld: seq<byte>)
    ensures (forall s :: Find(s, 0, Cut(fld)) == Find(s, 0, fld)) <==> |fld| < NAME_BUFFER
  {
    hide LineStop;
    if |fld| >= NAME_BUFFER {
      var s := fld[..NAME_BUFFER - 1];
      assert PrefixAt(s, 0, Cut(fld));
      AgreesAll(s, 0, fld);
      assert Find(s, 0, fld) == InvalidArticle;
    }
  }

  /** A name of 512 letters and a colon is found in a line that only starts with 511 of them. */
  lemma LongNameFound(rest: seq<byte>)
    ensures var fld: seq<byte> := seq(512, _ => 97) + [58];
      var s: seq<byte> := seq(511, _ => 97) + [58] + rest;
      !PrefixAt(s, 0, fld) && Find(s, 0, Cut(fld)) == Ok(0)
  {
    var fld: seq<byte> := seq(512, _ => 97) + [58];
    var s: seq<byte> := seq(511, _ => 97) + [58] + rest;
    assert Lower(s[0 + 511]) != Lower(fld[511]);
    assert PrefixAt(s, 0, Cut(fld));
  }

  class Article {
    var text: seq<byte>
    /** What the source's _ctext leads to. */
    var ctext: seq<byte>

    ghost predicate Valid()
      reads this
    {
      ctext == CStr(text)
    }

    constructor (text: seq<byte>)
      ensures Valid() && this.text == text
    {
      this.text, ctext := text, CStr(text);
    }

    /** The first line that starts with the name, whatever the case of its letters. */
    method FindField(ifld: seq<byte>) returns (r: Result<nat>)
      requires 0 !in ifld
      ensures r == Find(ctext, 0, Cut(ifld))
    {
      hide LineStop, Cut, Agreeing, Find, PrefixAt, Eol, Lower;
      var hdrbuf := NameBuffer(ifld);
      var q := 0;
      while true
        invariant q <= |ctext| && Find(ctext, q, hdrbuf) == Find(ctext, 0, hdrbuf)
        decreases |ctext| - q
      {
        var fld := q;
        var p := Compare(fld, hdrbuf);
        FindIs(ctext, fld, hdrbuf);
        if p == |hdrbuf| {
          return Ok(fld);
        }
        q := ToEol(fld + p);
        if q == |ctext| {
          return InvalidArticle;
        }
        if ctext[q] == CR && At(ctext, q + 1) == NL {
          q := q + 2;
        } else if ctext[q] == NL {
          q := q + 1;
        } else {
          return InvalidArticle;
        }
        if Eol(At(ctext, q)) {
          return Ok(q);
        }
      }
    }

    /** The loop that copies the name. */
    method NameBuffer(ifld: seq<byte>) returns (hdrbuf: seq<byte>)
      ensures hdrbuf == Cut(ifld)
    {
      hdrbuf := [];
      while |hdrbuf| < NAME_BUFFER && |hdrbuf| < |ifld|
        invariant |hdrbuf| <= NAME_BUFFER && |hdrbuf| <= |ifld| && hdrbuf == ifld[..|hdrbuf|]
        decreases NAME_BUFFER - |hdrbuf|
      {
        hdrbuf := hdrbuf + [ifld[|hdrbuf|]];
      }
      if |hdrbuf| == NAME_BUFFER {
        hdrbuf := hdrbuf[..NAME_BUFFER - 1];
      }
    }

    method Compare(fld: nat, hdrbuf: seq<byte>) returns (p: nat)
      requires fld <= |ctext|
      ensures p == Agreeing(ctext, fld, hdrbuf)
    {
      hide Agreeing, Lower;
      p := 0;
      while p < |hdrbuf| && fld + p < |ctext| && Lower(hdrbuf[p]) == Lower(ctext[fld + p])
        invariant p <= |hdrbuf| && fld + p <= |ctext|
        invariant forall k :: 0 <= k < p ==> Lower(ctext[fld + k]) == Lower(hdrbuf[k])
      {
        p := p + 1;
      }
      AgreeingIs(ctext, fld, hdrbuf, p);
    }

    method ToEol(i: nat) returns (q: nat)
      requires i <= |ctext|
      ensures q == LineStop(ctext, i)
    {
      q := i;
      while q < |ctext| && !Eol(ctext[q])
        invariant i <= q <= |ctext| && LineStop(ctext, q) == LineStop(ctext, i)
      {
        q := q + 1;
      }
    }

    method OverBlank(i: nat) returns (q: nat)
      requires i <= |ctext|
      ensures q == SkipBlank(ctext, i)
    {
      q := i;
      while q < |ctext| && Blank(ctext[q])
        invariant i <= q <= |ctext| && SkipBlank(ctext, q) == SkipBlank(ctext, i)
      {
        q := q + 1;
      }
    }

    method Getfield(ifld: seq<byte>, full: bool) returns (r: Result<seq<byte>>)
      requires Valid() && InText(ctext, ifld)
      ensures r == GetField(text, ifld, full)
    {
      hide Find, LineStop, SkipBlank, Unfold, Cut, CStr;
      if SameName(ifld, BYTES) {
        return Ok(GroupInfos.Dec(|text|));
      }
      var found := FindField(ifld);
      if !found.Ok? {
        return InvalidArticle;
      }
      var fld := found.value;
      if Eol(At(ctext, fld)) || fld + |ifld| > |ctext| {
        return NoSuchField;
      }
      var p := OverBlank(fld + |ifld|);
      if !full {
        fld := p;
      }
      var e := ToEol(p);
      var n := AfterEol(ctext, e);
      if !n.Ok? {
        return InvalidArticle;
      }
      var rest := Lines(n.value);
      return if rest.Ok? then Ok(ctext[fld..e] + rest.value) else rest;
    }

    /** The loop over the folded lines. */
    method Lines(start: nat) returns (r: Result<seq<byte>>)
      requires start <= |ctext|
      ensures r == Unfold(ctext, start)
    {
      hide LineStop, SkipBlank;
      var p, acc := start, [];
      PrependTwo([], [], Unfold(ctext, start));
      while p < |ctext| && Blank(ctext[p])
        invariant start <= p <= |ctext|
        invariant Unfold(ctext, start) == Prepend(acc, Unfold(ctext, p))
        decreases |ctext| - p
      {
        var d := OverBlank(p);
        var e := ToEol(d);
        var n := AfterEol(ctext, e);
        if !n.Ok? {
          return InvalidArticle;
        }
        UnfoldNext(ctext, p, n.value);
        PrependTwo(acc, ctext[d..e], Unfold(ctext, n.value));
        acc := acc + ctext[d..e];
        p := n.value;
      }
      if p == |ctext| {
        return InvalidArticle;
      }
      assert acc + [] == acc;
      return Ok(acc);
    }

    /** data: a whole header field, its line ends included. */
    method Setfield(ifld: seq<byte>, data: seq<byte>) returns (r: Result<()>)
      requires Valid() && InText(ctext, ifld) && 0 !in data
      modifies this
      ensures Valid()
      ensures match SetField(old(text), ifld, data)
        case Ok(t) => r == Ok(()) && text == t
        case NoSuchField => false
        case InvalidArticle => r == InvalidArticle && text == old(text)
    {
      hide Find, SetEnd, Cut, CStr;
      var found := FindField(ifld);
      if !found.Ok? {
        return InvalidArticle;
      }
      var fld := found.value;
      if Eol(At(text, fld)) || fld + |ifld| > |ctext| {
        text := text[..fld] + data + text[fld..];
        ctext := CStr(text);
        return Ok(());
      }
      var p := ToFieldEnd(fld + |ifld|);
      text := text[..fld] + data + text[p..];
      ctext := CStr(text);
      return Ok(());
    }

    /** Over the rest of the field's line and the lines folded onto it. */
    method ToFieldEnd(start: nat) returns (p: nat)
      requires start <= |text|
      ensures p == SetEnd(text, start, false)
    {
      hide LineStop, CLineStop, PassEol, SetEnd, GroupInfos.SkipSpace;
      p := OverSpace(start);
      while p < |text| && text[p] != 0 && !Eol(text[p])
        invariant p <= |text| && CLineStop(text, p) == CLineStop(text, GroupInfos.SkipSpace(text, start))
      {
        CStopStep(text, p);
        p := p + 1;
      }
      CStopStep(text, p);
      p := PassEol(text, p);
      SetEndIs(text, start, false);
      while FoldedAt(text, p)
        invariant p <= |text| && (FoldedAt(text, p) ==> SetEnd(text, p, true) == SetEnd(text, start, false))
        invariant !FoldedAt(text, p) ==> p == SetEnd(text, start, false)
        decreases |text| - p
      {
        SetEndIs(text, p, true);
        SpaceOn(text, p);
        p := OverSpace(p);
        p := OverLine(p);
        p := PassEol(text, p);
      }
    }

    method OverSpace(i: nat) returns (p: nat)
      requires i <= |text|
      ensures p == GroupInfos.SkipSpace(text, i)
    {
      p := i;
      while GroupInfos.IsSpace(At(text, p))
        invariant i <= p <= |text| && GroupInfos.SkipSpace(text, p) == GroupInfos.SkipSpace(text, i)
        decreases |text| - p
      {
        p := p + 1;
      }
    }

    /** The loop over a folded line, which looks for no NUL byte. */
    method OverLine(i: nat) returns (p: nat)
      requires i <= |text|
      ensures p == LineStop(text, i)
    {
      p := i;
      while p < |text| && !Eol(text[p])
        invariant i <= p <= |text| && LineStop(text, p) == LineStop(text, i)
      {
        p := p + 1;
      }
    }

    /** The loop of write: the end of the head. */
    method ToBody() returns (q: nat)
      ensures q == HeadEnd(ctext, 0)
    {
      hide LineStop, SkipEols, HeadEnd;
      q := 0;
      while true
        invariant q <= |ctext| && HeadEnd(ctext, q) == HeadEnd(ctext, 0)
        decreases |ctext| - q
      {
        ghost var was := q;
        q := ToEol(q);
        HeadEndIs(ctext, was, q);
        if q == |ctext| {
          return;
        }
        if ctext[q] == CR && At(ctext, q + 1) == NL && At(ctext, q + 2) == CR && At(ctext, q + 3) == NL {
          q := q + 2;
          return;
        }
        if ctext[q] == NL && At(ctext, q + 1) == NL {
          q := q + 1;
          return;
        }
        q := OverEols(q + 1);
      }
    }

    method OverEols(i: nat) returns (q: nat)
      requires i <= |ctext|
      ensures q == SkipEols(ctext, i) >= i
    {
      q := i;
      while q < |ctext| && Eol(ctext[q])
        invariant i <= q <= |ctext| && SkipEols(ctext, q) == SkipEols(ctext, i)
      {
        q := q + 1;
      }
    }

    /** write: one part of the article, or all of it. */
    method Write(head: bool, body: bool) returns (out: seq<byte>)
      requires Valid() && (head || body)
      ensures out == if head && body then text else if head then Head(text) else Body(text)
    {
      hide HeadEnd, CStr;
      if head && body {
        return text;
      }
      var q := ToBody();
      if head {
        return text[..q];
      }
      if At(ctext, q) == NL {
        return text[q..] + [0];
      }
      if At(ctext, q) == CR && At(ctext, q + 1) == NL {
        q := q + 2;
      }
      return text[q..];
    }
  }

  lemma CStopStep(s: seq<byte>, p: nat)
    requires p <= |s|
    ensures CLineStop(s, p) == if p < |s| && s[p] != 0 && !Eol(s[p]) then CLineStop(s, p + 1) else p
  {
  }

  lemma SpaceOn(s: seq<byte>, p: nat)
    requires FoldedAt(s, p)
    ensures p < |s| && SetNext(s, p, true) > p
  {
    hide PassEol, LineStop;
  }

  lemma AgreeingIs(s: seq<byte>, i: nat, fld: seq<byte>, n: nat)
    requires i + n <= |s| && n <= |fld| && forall k :: 0 <= k < n ==> Lower(s[i + k]) == Lower(fld[k])
    requires n < |fld| && i + n < |s| ==> Lower(s[i + n]) != Lower(fld[n])
    ensures Agreeing(s, i, fld) == n
  {
    hide Agreeing, Lower;
    var m := Agreeing(s, i, fld);
    assert forall k :: 0 <= k < m ==> Lower(s[i + k]) == Lower(fld[k]);
  }

  /** One turn of the loop of find_field. */
  lemma FindIs(s: seq<byte>, i: nat, fld: seq<byte>)
    requires i <= |s|
    ensures var p := Agreeing(s, i, fld);
      var q := LineStop(s, i + p);
      var r := Find(s, i, fld);
      if p == |fld| then r == Ok(i)
      else if q == |s| then r == InvalidArticle
      else
        && (s[q] == CR && At(s, q + 1) == NL ==>
              r == if Eol(At(s, q + 2)) then Ok(q + 2) else Find(s, q + 2, fld))
        && (s[q] == NL ==> r == if Eol(At(s, q + 1)) then Ok(q + 1) else Find(s, q + 1, fld))
        && (s[q] != NL && !(s[q] == CR && At(s, q + 1) == NL) ==> r == InvalidArticle)
  {
    hide LineStop;
    var n := Agreeing(s, i, fld);
    assert n < |fld| && i + |fld| <= |s| ==> Lower(s[i + n]) != Lower(fld[n]);
  }

  lemma HeadEndIs(s: seq<byte>, q: nat, e: nat)
    requires q <= |s| && e == LineStop(s, q)
    ensures HeadEnd(s, q) ==
      if e == |s| then e
      else if s[e] == CR && At(s, e + 1) == NL && At(s, e + 2) == CR && At(s, e + 3) == NL then e + 2
      else if s[e] == NL && At(s, e + 1) == NL then e + 1
      else HeadEnd(s, SkipEols(s, e + 1))
  {
    hide LineStop, SkipEols;
  }

  lemma UnfoldNext(s: seq<byte>, p: nat, n: nat)
    requires p < |s| && n <= |s| && Blank(s[p]) && AfterEol(s, LineStop(s, SkipBlank(s, p))) == Ok(n)
    ensures n > p
    ensures Unfold(s, p) == Prepend(s[SkipBlank(s, p)..LineStop(s, SkipBlank(s, p))], Unfold(s, n))
  {
  }
}
