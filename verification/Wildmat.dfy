/** Shell-style matching, NServer-0.9.1/wildmat.c: DoMatch returns TRUE, FALSE or ABORT, and
    ABORT ends every star loop at once. */
module Wildmat {
  import opened MatchGroup
  import opened Wrappers

  // ----- what a pattern means -----

  datatype Item = One(c: char) | Range(lo: char, hi: char)

  /** Never: a backslash with nothing after it. */
  datatype Token = Literal(c: char) | Any | Star | Class(neg: bool, items: seq<Item>) | Never

  datatype Parsed = Malformed | Items(items: seq<Item>, rest: string)

  /** The members of a class up to its closing bracket; last is the character before. */
  function ParseItems(q: string, last: char): (r: Parsed)
    ensures r.Items? ==> |r.rest| < |q| && r.rest == q[|q| - |r.rest|..]
  {
    if q == "" then Malformed
    else if q[0] == ']' then Items([], q[1..])
    else if q[0] == '-' && (|q| == 1 || q[1] != ']') then
      if |q| == 1 then Malformed
      else
        match ParseItems(q[2..], q[1])
        case Malformed => Malformed
        case Items(items, rest) => Items([Range(last, q[1])] + items, rest)
    else
      match ParseItems(q[1..], q[0])
      case Malformed => Malformed
      case Items(items, rest) => Items([One(q[0])] + items, rest)
  }

  /** The same after the opening bracket or caret, where ']' and '-' stand for themselves. */
  function ParseMembers(q: string): (r: Parsed)
    ensures r.Items? ==> |r.rest| < |q| && r.rest == q[|q| - |r.rest|..]
  {
    if q != "" && (q[0] == ']' || q[0] == '-') then
      match ParseItems(q[1..], q[0])
      case Malformed => Malformed
      case Items(items, rest) => Items([One(q[0])] + items, rest)
    else ParseItems(q, '[')
  }

  /** The first token and what follows it. */
  function ParseToken(p: string): (r: Option<(Token, string)>)
    requires p != ""
    ensures r.Some? ==> |r.value.1| < |p| && r.value.1 == p[|p| - |r.value.1|..]
  {
    match p[0]
    case '*' => Some((Star, p[1..]))
    case '?' => Some((Any, p[1..]))
    case '\\' => if |p| == 1 then Some((Never, "")) else Some((Literal(p[1]), p[2..]))
    case '[' =>
      var neg := |p| > 1 && p[1] == '^';
      (match ParseMembers(if neg then p[2..] else p[1..])
       case Malformed => None
       case Items(items, rest) => Some((Class(neg, items), rest)))
    case c => Some((Literal(c), p[1..]))
  }

  function Parse(p: string): Option<seq<Token>> {
    if p == "" then Some([])
    else
      match ParseToken(p)
      case None => None
      case Some((tok, rest)) =>
        match Parse(rest)
        case None => None
        case Some(toks) => Some([tok] + toks)
  }

  predicate InItems(c: char, items: seq<Item>) {
    exists i :: 0 <= i < |items| &&
      match items[i] case One(d) => c == d case Range(lo, hi) => lo <= c <= hi
  }

  predicate Fits(c: char, tok: Token) {
    match tok
    case Literal(d) => c == d
    case Any => true
    case Class(neg, items) => InItems(c, items) != neg
    case _ => false
  }

  /** A star stands for any characters, every other token for one. */
  ghost predicate Matches(text: string, toks: seq<Token>)
    decreases toks
  {
    if toks == [] then text == ""
    else if toks[0] == Star then exists k :: 0 <= k <= |text| && Matches(text[k..], toks[1..])
    else text != "" && Fits(text[0], toks[0]) && Matches(text[1..], toks[1..])
  }

  ghost predicate NoSuffixMatches(text: string, toks: seq<Token>) {
    forall k :: 0 <= k <= |text| ==> !Matches(text[k..], toks)
  }

  // ----- the rules of wildmat, on text -----

  ghost predicate Means(text: string, p: string) {
    Parse(p).Some? && Matches(text, Parse(p).value)
  }

  /** Nothing matches nothing, a star any beginning, a question mark any character, a backslash the
      character behind it, and what is not special itself. */
  lemma OneCharacter(text: string, c: char, p: string)
    requires Parse(p).Some?
    ensures Means(text, "") <==> text == ""
    ensures Means(text, "*" + p) <==> exists k :: 0 <= k <= |text| && Means(text[k..], p)
    ensures Means(text, "?" + p) <==> text != "" && Means(text[1..], p)
    ensures Means(text, ['\\', c] + p) <==> text != "" && text[0] == c && Means(text[1..], p)
    ensures c !in {'*', '?', '\\', '['} ==>
      (Means(text, [c] + p) <==> text != "" && text[0] == c && Means(text[1..], p))
  {
    assert ("*" + p)[1..] == p && ("?" + p)[1..] == p && ([c] + p)[1..] == p && (['\\', c] + p)[2..] == p;
    OneToken(text, "*" + p, Star, p);
    OneToken(text, "?" + p, Any, p);
    OneToken(text, ['\\', c] + p, Literal(c), p);
    if c !in {'*', '?', '\\', '['} {
      OneToken(text, [c] + p, Literal(c), p);
    }
  }

  lemma OneToken(text: string, p: string, tok: Token, rest: string)
    requires p != "" && ParseToken(p) == Some((tok, rest)) && Parse(rest).Some?
    ensures tok == Star ==> (Means(text, p) <==> exists k :: 0 <= k <= |text| && Means(text[k..], rest))
    ensures tok != Star ==> (Means(text, p) <==> text != "" && Fits(text[0], tok) && Means(text[1..], rest))
  {
    hide ParseToken, Fits;
    var toks := Parse(rest).value;
    assert Parse(p) == Some([tok] + toks);
    assert ([tok] + toks)[1..] == toks;
    assert forall k :: 0 <= k <= |text| ==> (Means(text[k..], rest) <==> Matches(text[k..], toks));
  }

  /** A class of single characters: one of them, or after a caret one that is none of them. A bracket
      that comes first stands for itself. */
  lemma OneOf(text: string, cs: string, neg: bool, p: string)
    requires Parse(p).Some? && cs != "" && '-' !in cs && (!neg ==> cs[0] != '^')
    requires forall i :: 0 < i < |cs| ==> cs[i] != ']'
    ensures Means(text, (if neg then "[^" else "[") + cs + "]" + p)
      <==> text != "" && (if neg then text[0] !in cs else text[0] in cs) && Means(text[1..], p)
  {
    hide ParseToken, ParseItems, InItems, Matches, Parse;
    OnesToken(cs, neg, p);
    var open := if neg then "[^" else "[";
    OneToken(text, open + cs + "]" + p, Class(neg, Ones(cs)), p);
    if text != "" {
      InOnes(text[0], cs);
    }
  }

  lemma OnesToken(cs: string, neg: bool, p: string)
    requires cs != "" && '-' !in cs && (!neg ==> cs[0] != '^') && forall i :: 0 < i < |cs| ==> cs[i] != ']'
    ensures ParseToken((if neg then "[^" else "[") + cs + "]" + p) == Some((Class(neg, Ones(cs)), p))
  {
    hide *;
    var open, inner := if neg then "[^" else "[", cs + "]" + p;
    Grouped(open, cs, "]", p);
    OnesMembers(cs, p);
    assert open[0] == '[' && (neg ==> open[1] == '^');
    ClassToken(open, inner, neg);
  }

  lemma Grouped(a: string, b: string, c: string, d: string)
    ensures a + b + c + d == a + (b + c + d)
  {
  }

  lemma ClassToken(open: string, inner: string, neg: bool)
    requires open == (if neg then "[^" else "[") && inner != "" && (!neg ==> inner[0] != '^')
    ensures var members := ParseMembers(inner);
      members.Items? ==> ParseToken(open + inner) == Some((Class(neg, members.items), members.rest))
  {
    hide ParseMembers;
    assert (open + inner)[|open|..] == inner;
  }

  lemma OnesMembers(cs: string, p: string)
    requires cs != "" && '-' !in cs && forall i :: 0 < i < |cs| ==> cs[i] != ']'
    ensures ParseMembers(cs + "]" + p) == Items(Ones(cs), p)
  {
    hide *;
    var inner := cs + "]" + p;
    Grouped([cs[0]], cs[1..], "]", p);
    assert [cs[0]] + cs[1..] == cs;
    FirstOf(cs[0], cs[1..] + "]" + p);
    if cs[0] == ']' {
      ParseOnes(cs[1..], p, ']');
    } else {
      ParseOnes(cs, p, '[');
    }
    FirstMember(inner);
    OnesFirst(cs);
  }

  lemma FirstOf(c: char, rest: string)
    ensures ([c] + rest)[0] == c && ([c] + rest)[1..] == rest
  {
  }

  lemma FirstMember(q: string)
    requires q != ""
    ensures var tail := ParseItems(q[1..], q[0]);
      (q[0] == ']' || q[0] == '-') && tail.Items? ==> ParseMembers(q) == Items([One(q[0])] + tail.items, tail.rest)
    ensures !(q[0] == ']' || q[0] == '-') ==> ParseMembers(q) == ParseItems(q, '[')
  {
    hide ParseItems;
  }

  lemma OnesFirst(cs: string)
    requires cs != ""
    ensures Ones(cs) == [One(cs[0])] + Ones(cs[1..])
  {
  }

  function Ones(cs: string): seq<Item> {
    if cs == "" then [] else [One(cs[0])] + Ones(cs[1..])
  }

  lemma {:induction false} ParseOnes(cs: string, p: string, last: char)
    requires ']' !in cs && '-' !in cs
    ensures ParseItems(cs + "]" + p, last) == Items(Ones(cs), p)
  {
    if cs == "" {
      assert cs + "]" + p == [']'] + p;
      FirstOf(']', p);
    } else {
      ParseOnes(cs[1..], p, cs[0]);
      Grouped([cs[0]], cs[1..], "]", p);
      assert [cs[0]] + cs[1..] == cs;
      FirstOf(cs[0], cs[1..] + "]" + p);
    }
  }

  lemma {:induction false} InOnes(c: char, cs: string)
    ensures InItems(c, Ones(cs)) <==> c in cs
  {
    if cs != "" {
      InOnes(c, cs[1..]);
      var items := Ones(cs);
      assert items[0] == One(cs[0]) && forall i :: 0 < i < |items| ==> items[i] == Ones(cs[1..])[i - 1];
      assert forall i :: 0 <= i < |Ones(cs[1..])| ==> Ones(cs[1..])[i] == items[i + 1];
    }
  }

  /** A range: all characters from the first to the last, and the first one in any case. */
  lemma OneRange(text: string, lo: char, hi: char, p: string)
    requires Parse(p).Some? && lo !in {']', '-', '^'} && hi != ']'
    ensures Means(text, ['[', lo, '-', hi, ']'] + p)
      <==> text != "" && (text[0] == lo || lo <= text[0] <= hi) && Means(text[1..], p)
  {
    hide ParseToken, ParseItems, Matches, Parse;
    RangeToken(lo, hi, p);
    var items := [One(lo), Range(lo, hi)];
    OneToken(text, ['[', lo, '-', hi, ']'] + p, Class(false, items), p);
    assert items[0] == One(lo) && items[1] == Range(lo, hi);
  }

  lemma RangeToken(lo: char, hi: char, p: string)
    requires lo !in {']', '-', '^'} && hi != ']'
    ensures ParseToken(['[', lo, '-', hi, ']'] + p) == Some((Class(false, [One(lo), Range(lo, hi)]), p))
  {
    hide ParseItems;
    var all, q := ['[', lo, '-', hi, ']'] + p, [lo, '-', hi, ']'] + p;
    assert all[1..] == q && all[1] == lo;
    RangeItems(lo, hi, p);
  }

  lemma RangeItems(lo: char, hi: char, p: string)
    requires lo != ']' && lo != '-' && hi != ']'
    ensures ParseItems([lo, '-', hi, ']'] + p, '[') == Items([One(lo), Range(lo, hi)], p)
  {
    var q := [lo, '-', hi, ']'] + p;
    var r := ['-', hi, ']'] + p;
    var s := [']'] + p;
    assert q[1..] == r && r[2..] == s && s[1..] == p;
    assert ParseItems(s, hi) == Items([], p);
    assert ParseItems(r, lo) == Items([Range(lo, hi)] + [], p);
    assert [Range(lo, hi)] + [] == [Range(lo, hi)];
  }

  // ----- facts about it -----

  /** After n tokens that are no stars: where a match can only continue. */
  ghost predicate Consumed(text: string, toks: seq<Token>, n: nat) {
    && n <= |toks| && n <= |text|
    && (Matches(text, toks) <==> Matches(text[n..], toks[n..]))
    && forall k :: 0 <= k <= |text| && Matches(text[k..], toks) ==>
         k + n <= |text| && Matches(text[k + n..], toks[n..])
  }

  lemma ConsumedNone(text: string, toks: seq<Token>)
    ensures Consumed(text, toks, 0)
  {
    assert text[0..] == text && toks[0..] == toks;
  }

  lemma ConsumedOne(text: string, toks: seq<Token>, n: nat)
    requires Consumed(text, toks, n) && n < |text| && n < |toks| && toks[n] != Star && Fits(text[n], toks[n])
    ensures Consumed(text, toks, n + 1)
  {
    assert text[n..][1..] == text[n + 1..] && toks[n..][1..] == toks[n + 1..];
    forall k | 0 <= k <= |text| && Matches(text[k..], toks)
      ensures k + n + 1 <= |text| && Matches(text[k + n + 1..], toks[n + 1..])
    {
      assert text[k + n..] != "" && text[k + n..][1..] == text[k + n + 1..];
    }
  }

  /** No text is left for a token that needs a character. */
  lemma ConsumedShort(text: string, toks: seq<Token>, n: nat)
    requires Consumed(text, toks, n) && n == |text| && n < |toks| && toks[n] != Star
    ensures NoSuffixMatches(text, toks)
  {
    forall k | 0 <= k <= |text|
      ensures !Matches(text[k..], toks)
    {
      assert Matches(text[k..], toks) ==> k == 0;
      assert text[n..] == "";
    }
  }

  lemma NotFits(text: string, toks: seq<Token>, n: nat)
    requires Consumed(text, toks, n) && n < |text| && n < |toks| && toks[n] != Star && !Fits(text[n], toks[n])
    ensures !Matches(text, toks)
  {
    assert text[n..][0] == text[n] && toks[n..][0] == toks[n];
  }

  /** Some suffix matches. */
  ghost predicate SuffixMatches(text: string, toks: seq<Token>) {
    exists k :: 0 <= k <= |text| && Matches(text[k..], toks)
  }

  lemma SuffixAt(text: string, toks: seq<Token>, j: nat)
    requires j <= |text| && SuffixMatches(text[j..], toks)
    ensures SuffixMatches(text, toks)
  {
    var k :| 0 <= k <= |text[j..]| && Matches(text[j..][k..], toks);
    assert text[j..][k..] == text[j + k..];
  }

  /** Consecutive stars act like one. */
  lemma {:induction false} Stars(text: string, toks: seq<Token>, m: nat)
    requires 0 < m <= |toks| && forall i :: 0 <= i < m ==> toks[i] == Star
    ensures Matches(text, toks) <==> SuffixMatches(text, toks[m..])
    decreases toks
  {
    if m > 1 {
      hide SuffixMatches;
      assert toks[1..][m - 1..] == toks[m..];
      if Matches(text, toks) {
        var j :| 0 <= j <= |text| && Matches(text[j..], toks[1..]);
        Stars(text[j..], toks[1..], m - 1);
        SuffixAt(text, toks[m..], j);
      }
      if SuffixMatches(text, toks[m..]) {
        Stars(text, toks[1..], m - 1);
        assert text[0..] == text;
      }
    }
  }

  /** A match across the stars has a part that matches what follows them. */
  lemma StarSplit(text: string, toks: seq<Token>, n: nat, m: nat, k: nat) returns (j: nat)
    requires Consumed(text, toks, n) && 0 < m && n + m <= |toks|
    requires forall i :: n <= i < n + m ==> toks[i] == Star
    requires k <= |text| && Matches(text[k..], toks)
    ensures n <= j <= |text| && Matches(text[j..], toks[n + m..])
  {
    var rest := text[k + n..];
    Stars(rest, toks[n..], m);
    assert toks[n..][m..] == toks[n + m..];
    var d :| 0 <= d <= |rest| && Matches(rest[d..], toks[n..][m..]);
    j := k + n + d;
    assert rest[d..] == text[j..];
  }

  /** When nothing from position n on matches what follows the stars, nothing matches. */
  lemma StarFails(text: string, toks: seq<Token>, n: nat, m: nat)
    requires Consumed(text, toks, n) && 0 < m && n + m <= |toks|
    requires forall i :: n <= i < n + m ==> toks[i] == Star
    requires forall k :: n <= k <= |text| ==> !Matches(text[k..], toks[n + m..])
    ensures NoSuffixMatches(text, toks)
  {
    forall k | 0 <= k <= |text|
      ensures !Matches(text[k..], toks)
    {
      if Matches(text[k..], toks) {
        var j := StarSplit(text, toks, n, m, k);
      }
    }
  }

  lemma StarFinds(text: string, toks: seq<Token>, n: nat, m: nat, k: nat)
    requires Consumed(text, toks, n) && 0 < m && n + m <= |toks|
    requires forall i :: n <= i < n + m ==> toks[i] == Star
    requires n <= k <= |text| && Matches(text[k..], toks[n + m..])
    ensures Matches(text, toks)
  {
    Stars(text[n..], toks[n..], m);
    assert toks[n..][m..] == toks[n + m..];
    assert text[n..][k - n..] == text[k..];
  }

  // ----- the program -----

  const TRUE := 1
  const FALSE := 0
  const ABORT := -1

  /** Members seen so far and members still to come, from p[j] on, are those of the class. */
  ghost predicate Scanned(all: Parsed, p: string, j: nat, last: char, seen: seq<Item>) {
    && all.Items? && j <= |p| && ParseItems(p[j..], last).Items?
    && seen + ParseItems(p[j..], last).items == all.items
    && ParseItems(p[j..], last).rest == all.rest
  }

  lemma ScannedNone(p: string, j: nat, last: char)
    requires j <= |p| && ParseItems(p[j..], last).Items?
    ensures Scanned(ParseItems(p[j..], last), p, j, last, [])
  {
    hide ParseItems;
  }

  lemma ScannedStep(all: Parsed, p: string, j: nat, last: char, seen: seq<Item>)
    requires Scanned(all, p, j, last, seen) && j < |p| && p[j] != ']'
    ensures if p[j] == '-' && At(p, j + 1) != ']'
      then j + 1 < |p| && Scanned(all, p, j + 2, p[j + 1], seen + [Range(last, p[j + 1])])
      else Scanned(all, p, j + 1, p[j], seen + [One(p[j])])
  {
    hide ParseItems;
    ItemsStep(p[j..], last);
    assert p[j..][1..] == p[j + 1..];
    if j + 1 < |p| {
      assert p[j..][2..] == p[j + 2..];
    }
  }

  lemma ScannedEnd(all: Parsed, p: string, j: nat, last: char, seen: seq<Item>)
    requires Scanned(all, p, j, last, seen) && (j < |p| ==> p[j] == ']')
    ensures j < |p| && seen == all.items && p[j + 1..] == all.rest
  {
    ItemsEnd(p[j..], last);
  }

  /** The loop over the members of a class from p[first] on. */
  method ScanItems(c: char, p: string, first: nat, before: char, found: bool) returns (matched: bool, j: nat)
    requires first <= |p| && CString(p) && ParseItems(p[first..], before).Items?
    ensures first <= j < |p| && p[j + 1..] == ParseItems(p[first..], before).rest
    ensures matched <==> found || InItems(c, ParseItems(p[first..], before).items)
  {
    hide ParseItems, InItems, Scanned;
    ghost var all := ParseItems(p[first..], before);
    ghost var seen: seq<Item> := [];
    InItemsNone(c);
    var last := before;
    matched, j := found, first;
    ScannedNone(p, j, last);
    while At(p, j) != '\0' && At(p, j) != ']'
      invariant first <= j <= |p| && Scanned(all, p, j, last, seen)
      invariant matched <==> found || InItems(c, seen)
      decreases |p| - j
    {
      ScannedStep(all, p, j, last, seen);
      if p[j] == '-' && At(p, j + 1) != ']' {
        InItemsSnoc(c, seen, Range(last, p[j + 1]));
        seen := seen + [Range(last, p[j + 1])];
        j := j + 1;
        if c <= p[j] && c >= last {
          matched := true;
        }
      } else {
        InItemsSnoc(c, seen, One(p[j]));
        seen := seen + [One(p[j])];
        if c == p[j] {
          matched := true;
        }
      }
      last := p[j];
      j := j + 1;
    }
    ScannedEnd(all, p, j, last, seen);
  }

  /** A bracket or dash right after the opening stands for itself. */
  method ScanMembers(c: char, p: string, first: nat, before: char) returns (matched: bool, j: nat)
    requires first <= |p| && CString(p) && ParseMembers(p[first..]).Items?
    ensures first <= j < |p| && p[j + 1..] == ParseMembers(p[first..]).rest
    ensures matched <==> InItems(c, ParseMembers(p[first..]).items)
  {
    hide *;
    ghost var q := p[first..];
    ghost var all := ParseMembers(q);
    MembersAre(p, first);
    if At(p, first) == ']' || At(p, first) == '-' {
      ghost var tail := ParseItems(p[first + 1..], p[first]);
      InItemsCons(c, One(p[first]), tail.items);
      matched, j := ScanItems(c, p, first + 1, p[first], p[first] == c);
      assert p[j + 1..] == tail.rest == all.rest;
    } else {
      SameLast(q, before, '[');
      matched, j := ScanItems(c, p, first, before, false);
      assert p[j + 1..] == all.rest;
    }
  }

  lemma MembersAre(p: string, first: nat)
    requires first <= |p| && ParseMembers(p[first..]).Items?
    ensures var r := ParseMembers(p[first..]);
      if At(p, first) == ']' || At(p, first) == '-' then
        && first < |p|
        && var tail := ParseItems(p[first + 1..], p[first]);
           tail.Items? && r == Items([One(p[first])] + tail.items, tail.rest)
      else r == ParseItems(p[first..], '[') && (p[first..] == "" || p[first..][0] != '-')
  {
    hide ParseItems;
    if first < |p| {
      assert p[first..][1..] == p[first + 1..];
    }
  }

  /** The inline code for a class that opens at p[start]: whether c fits it, and where it closes. */
  method ScanClass(c: char, p: string, start: nat) returns (fits: bool, j: nat)
    requires start < |p| && p[start] == '[' && CString(p) && ParseToken(p[start..]).Some?
    ensures start < j < |p| && p[j + 1..] == ParseToken(p[start..]).value.1
    ensures fits <==> Fits(c, ParseToken(p[start..]).value.0)
  {
    hide ParseMembers, InItems;
    assert p[start..][1..] == p[start + 1..];
    j := start;
    var reverse := At(p, j + 1) == '^';
    if reverse {
      assert p[start..][2..] == p[start + 2..];
      j := j + 1;
    }
    var matched, k := ScanMembers(c, p, j + 1, p[j]);
    fits, j := matched != reverse, k;
  }

  /** Unless a class begins with '-', what stands before its first member does not matter. */
  lemma SameLast(q: string, a: char, b: char)
    ensures q == "" || q[0] != '-' ==> ParseItems(q, a) == ParseItems(q, b)
  {
  }

  lemma InItemsNone(c: char)
    ensures !InItems(c, [])
  {
  }

  lemma InItemsCons(c: char, item: Item, items: seq<Item>)
    ensures InItems(c, [item] + items) <==>
      InItems(c, items) || match item case One(d) => c == d case Range(lo, hi) => lo <= c <= hi
  {
    var all := [item] + items;
    if InItems(c, items) {
      var i :| 0 <= i < |items| && match items[i] case One(d) => c == d case Range(lo, hi) => lo <= c <= hi;
      assert all[i + 1] == items[i];
    }
    assert all[0] == item;
    assert forall i :: 1 <= i < |all| ==> all[i] == items[i - 1];
  }

  lemma InItemsSnoc(c: char, items: seq<Item>, item: Item)
    ensures InItems(c, items + [item]) <==>
      InItems(c, items) || match item case One(d) => c == d case Range(lo, hi) => lo <= c <= hi
  {
    var all := items + [item];
    if InItems(c, items) {
      var i :| 0 <= i < |items| && match items[i] case One(d) => c == d case Range(lo, hi) => lo <= c <= hi;
      assert all[i] == items[i];
    }
    assert all[|items|] == item;
  }

  lemma ItemsStep(q: string, last: char)
    requires q != "" && q[0] != ']' && ParseItems(q, last).Items?
    ensures var range := q[0] == '-' && (|q| == 1 || q[1] != ']');
      var n, item := if range then 2 else 1, if range && |q| > 1 then Range(last, q[1]) else One(q[0]);
      && n <= |q|
      && ParseItems(q[n..], q[n - 1]).Items?
      && ParseItems(q, last).items == [item] + ParseItems(q[n..], q[n - 1]).items
      && ParseItems(q, last).rest == ParseItems(q[n..], q[n - 1]).rest
  {
  }

  lemma ItemsEnd(q: string, last: char)
    requires (q == "" || q[0] == ']') && ParseItems(q, last).Items?
    ensures q != "" && ParseItems(q, last) == Items([], q[1..])
  {
  }

  /** Where DoMatch stands: i characters consumed by as many tokens, none a star, and the rest of
      the pattern starting at p[j]. */
  ghost predicate Reached(text: string, p: string, toks: seq<Token>, i: nat, j: nat) {
    && i <= |toks| && i <= |text| && j <= |p|
    && Consumed(text, toks, i) && Parse(p[j..]) == Some(toks[i..])
    && forall k :: 0 <= k < i ==> toks[k] != Star
  }

  /** One token that is no star: what it is, and where the next one starts. */
  lemma ReachedToken(text: string, p: string, toks: seq<Token>, i: nat, j: nat)
    requires Reached(text, p, toks, i, j) && j < |p| && p[j] != '*'
    ensures ParseToken(p[j..]).Some? && i < |toks| && toks[i] == ParseToken(p[j..]).value.0 && toks[i] != Star
    ensures i == |text| ==> NoSuffixMatches(text, toks)
    ensures i < |text| && !Fits(text[i], toks[i]) ==> !Matches(text, toks)
    ensures forall n :: j < n <= |p| && p[n..] == ParseToken(p[j..]).value.1 && i < |text| && Fits(text[i], toks[i]) ==>
      Reached(text, p, toks, i + 1, n)
  {
    hide Consumed, Matches;
    var (tok, rest) := ParseToken(p[j..]).value;
    assert toks[i..] == [tok] + Parse(rest).value;
    assert i < |toks| && toks[i] == toks[i..][0];
    assert toks[i..][1..] == toks[i + 1..];
    if i == |text| {
      ConsumedShort(text, toks, i);
    } else if Fits(text[i], toks[i]) {
      ConsumedOne(text, toks, i);
    } else {
      NotFits(text, toks, i);
    }
  }

  lemma ReachedEnd(text: string, p: string, toks: seq<Token>, i: nat, j: nat)
    requires Reached(text, p, toks, i, j) && j == |p|
    ensures Matches(text, toks) <==> i == |text|
  {
    assert p[j..] == "";
  }

  /** Bound on the calls of DoMatch: one per character, and one more if a star comes first. */
  function CallBound(text: string, p: string): nat {
    if p != "" && p[0] == '*' then |text| + 1 else if text == "" then 1 else |text|
  }

  /** m stars from token i on, the pattern after them starting at p[j]. */
  ghost predicate AfterStars(text: string, p: string, toks: seq<Token>, i: nat, m: nat, j: nat) {
    && i + m <= |toks| && i <= |text| && j <= |p| && Consumed(text, toks, i) && Parse(p[j..]) == Some(toks[i + m..])
    && forall k :: i <= k < i + m ==> toks[k] == Star
  }

  lemma OneStar(text: string, p: string, toks: seq<Token>, i: nat, m: nat, j: nat)
    requires AfterStars(text, p, toks, i, m, j) && j < |p| && p[j] == '*'
    ensures AfterStars(text, p, toks, i, m + 1, j + 1)
  {
    hide Consumed;
    assert p[j..][1..] == p[j + 1..];
    assert ParseToken(p[j..]) == Some((Star, p[j + 1..]));
    assert toks[i + m..] == [Star] + Parse(p[j + 1..]).value;
    assert i + m < |toks| && toks[i + m] == toks[i + m..][0];
    assert toks[i + m..][1..] == toks[i + m + 1..];
  }

  method DoMatch(text: string, p: string) returns (r: int, ghost calls: nat)
    requires CString(text) && CString(p) && Parse(p).Some?
    ensures r == TRUE || r == FALSE || r == ABORT
    ensures r == TRUE <==> Matches(text, Parse(p).value)
    ensures r == ABORT ==> NoSuffixMatches(text, Parse(p).value)
    ensures r == FALSE ==> calls == 1
    ensures 1 <= calls <= CallBound(text, p)
    decreases |p|
  {
    hide Parse, ParseToken, Consumed, Matches;
    ghost var toks := Parse(p).value;
    calls := 1;
    var i, j := 0, 0;
    assert p[0..] == p && toks[0..] == toks;
    ConsumedNone(text, toks);
    while At(p, j) != '\0'
      invariant Reached(text, p, toks, i, j)
      invariant j > 0 ==> i > 0 && p[0] != '*'
      decreases |p| - j
    {
      if At(text, i) == '\0' && p[j] != '*' {
        ReachedToken(text, p, toks, i, j);
        return ABORT, 1;
      }
      if p[j] == '*' {
        r, calls := StarLoop(text, p, i, j);
        return;
      }
      ReachedToken(text, p, toks, i, j);
      TokenShape(p, j);
      if p[j] == '[' {
        var fits, k := ScanClass(text[i], p, j);
        if !fits {
          return FALSE, 1;
        }
        j := k;
      } else if p[j] != '?' {
        if p[j] == '\\' {
          j := j + 1;
        }
        if text[i] != At(p, j) {
          return FALSE, 1;
        }
      }
      i := i + 1;
      j := j + 1;
    }
    ReachedEnd(text, p, toks, i, j);
    r := if At(text, i) == '\0' then TRUE else FALSE;
  }

  /** What a token looks like in the pattern. */
  lemma TokenShape(p: string, j: nat)
    requires j < |p| && CString(p)
    ensures p[j] == '?' ==> ParseToken(p[j..]) == Some((Any, p[j + 1..]))
    ensures p[j] == '\\' && j + 1 < |p| ==> ParseToken(p[j..]) == Some((Literal(p[j + 1]), p[j + 2..]))
    ensures p[j] == '\\' && j + 1 == |p| ==> ParseToken(p[j..]) == Some((Never, ""))
    ensures p[j] !in {'*', '?', '\\', '['} ==> ParseToken(p[j..]) == Some((Literal(p[j]), p[j + 1..]))
  {
    assert p[j..][1..] == p[j + 1..];
    if j + 1 < |p| {
      assert p[j..][2..] == p[j + 2..];
    }
  }

  /** The star case of DoMatch: the loop over what follows the stars. */
  method StarLoop(text: string, p: string, first: nat, star: nat) returns (r: int, ghost calls: nat)
    requires CString(text) && CString(p) && Parse(p).Some?
    requires first <= |text| && star < |p| && p[star] == '*' && (star == 0 || (first > 0 && p[0] != '*'))
    requires Reached(text, p, Parse(p).value, first, star)
    ensures r == TRUE || r == ABORT
    ensures r == TRUE <==> Matches(text, Parse(p).value)
    ensures r == ABORT ==> NoSuffixMatches(text, Parse(p).value)
    ensures 1 <= calls <= CallBound(text, p)
    decreases |p|, 0
  {
    hide Parse, ParseToken, Consumed, Matches;
    ghost var toks, m := Parse(p).value, 1;
    calls := 1;
    var i, j := first, star + 1;
    assert p[star..][0] == '*';
    OneStar(text, p, toks, first, 0, star);
    while At(p, j) == '*'
      invariant star < j <= |p| && 0 < m && AfterStars(text, p, toks, first, m, j)
      decreases |p| - j
    {
      OneStar(text, p, toks, first, m, j);
      m := m + 1;
      j := j + 1;
    }
    if At(p, j) == '\0' {
      TrailingStar(text, p, toks, first, m, j);
      return TRUE, 1;
    }
    while At(text, i) != '\0'
      invariant first <= i <= |text|
      invariant forall k :: first <= k < i ==> !Matches(text[k..], toks[first + m..])
      invariant calls == 1 + i - first
      decreases |text| - i
    {
      ghost var more;
      r, more := DoMatch(text[i..], p[j..]);
      calls := calls + more;
      i := i + 1;
      if r != FALSE {
        if r == TRUE {
          StarFinds(text, toks, first, m, i - 1);
        } else {
          SuffixOfSuffix(text, toks[first + m..], i - 1);
          StarFails(text, toks, first, m);
          NoSuffixNone(text, toks);
        }
        return;
      }
    }
    FirstNeedsText(p, j, toks[first + m..]);
    assert text[i..] == "";
    StarFails(text, toks, first, m);
    NoSuffixNone(text, toks);
    r := ABORT;
  }

  lemma TrailingStar(text: string, p: string, toks: seq<Token>, i: nat, m: nat, j: nat)
    requires AfterStars(text, p, toks, i, m, j) && 0 < m && j == |p| && i <= |text|
    ensures Matches(text, toks)
  {
    assert p[j..] == "" && text[|text|..] == "";
    StarFinds(text, toks, i, m, |text|);
  }

  lemma SuffixOfSuffix(text: string, toks: seq<Token>, i: nat)
    requires i <= |text| && NoSuffixMatches(text[i..], toks)
    ensures forall k :: i <= k <= |text| ==> !Matches(text[k..], toks)
  {
    forall k | i <= k <= |text|
      ensures !Matches(text[k..], toks)
    {
      assert text[i..][k - i..] == text[k..];
    }
  }

  lemma NoSuffixNone(text: string, toks: seq<Token>)
    requires NoSuffixMatches(text, toks)
    ensures !Matches(text, toks)
  {
    assert text[0..] == text;
  }

  lemma FirstNeedsText(p: string, j: nat, toks: seq<Token>)
    requires j < |p| && p[j] != '*' && Parse(p[j..]) == Some(toks)
    ensures !Matches("", toks)
  {
  }

  /** The user-level routine: exact, with at most one call of DoMatch per character and one more,
      however many stars the pattern has. */
  method Match(text: string, p: string) returns (r: bool, ghost calls: nat)
    requires CString(text) && CString(p) && Parse(p).Some?
    ensures r <==> Matches(text, Parse(p).value)
    ensures calls <= |text| + 1
  {
    if p == "*" {
      JustStar(text);
      return true, 0;
    }
    var m;
    m, calls := DoMatch(text, p);
    r := m == TRUE;
  }

  lemma JustStar(text: string)
    ensures Parse("*").Some? && Matches(text, Parse("*").value)
  {
    assert "*"[1..] == "" && Parse("") == Some([]);
    assert Parse("*").value == [Star];
    assert text[|text|..] == "" && Matches(text[|text|..], [Star][1..]);
  }
}
