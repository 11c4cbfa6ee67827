/** Rule lists such as at.*,!at.secret.* and the scan that matches a group against one:
    matchgroup in NServer-0.9.1/util.cc, the same loop in NewsgroupFilter::matches. */
module MatchGroup {

  /** A C string: no terminator inside. */
  predicate CString(s: string) { '\0' !in s }

  /** The character at i, or the terminator. */
  function At(s: string, i: nat): char {
    if i < |s| then s[i] else '\0'
  }

  predicate IsSpace(c: char) {
    c == ' ' || c == '\t' || c == '\n' || c == '\r' || c == 11 as char || c == 12 as char
  }

  predicate Plain(s: string) {
    '*' !in s && ',' !in s && CString(s)
  }

  /** A group's name, maybe with the rest of its line after a blank. */
  predicate Name(x: string) {
    x != "" && !IsSpace(x[0]) && Plain(x)
  }

  // ----- the scan, for any group -----

  /** How many characters agree. */
  function Common(a: string, b: string): (n: nat)
    ensures n <= |a| && n <= |b| && a[..n] == b[..n]
    ensures n < |a| && n < |b| ==> a[n] != b[n]
  {
    if a == "" || b == "" || a[0] != b[0] then 0 else 1 + Common(a[1..], b[1..])
  }

  /** What the scan makes of a rule whose text goes on like this. The characters that agree may
      include commas, if the group has some, and so run over into the next rules. */
  function Reach(text: string, group: string): int {
    var n := Common(text, group);
    if At(text, n) == ',' || At(text, n) == '\0' then
      if At(group, n) != '\0' && !IsSpace(At(group, n)) then -1 else n + 1
    else if At(text, n) == '*' then n + 1
    else -1
  }

  /** The running best after the first rule of the text. */
  function Judged(best: (int, bool), text: string, group: string): (int, bool) {
    var r := Reach(Body(text), group);
    if r > best.0 then (r, Rejects(text)) else best
  }

  /** Where the scan finds the end of that rule: at the first comma from where it stopped. */
  function RuleEnd(text: string, group: string): (e: nat)
    ensures e <= |text|
  {
    var rest := Body(text);
    var n := Common(rest, group);
    |text| - |rest| + n + Comma(rest[n..])
  }

  function Scan(best: (int, bool), text: string, group: string): (int, bool)
    decreases |text|
  {
    var b, e := Judged(best, text, group), RuleEnd(text, group);
    if e == |text| then b else Scan(b, text[e + 1..], group)
  }

  function ScanVerdict(pattern: string, group: string): int {
    var (len, rej) := Scan((0, false), pattern, group);
    if rej then -len else len
  }

  // ----- what the scan means -----

  /** Index of the first comma, or the length. */
  function Comma(s: string): (k: nat)
    ensures k <= |s| && (forall i :: 0 <= i < k ==> s[i] != ',') && (k < |s| ==> s[k] == ',')
  {
    if s == "" || s[0] == ',' then 0 else 1 + Comma(s[1..])
  }

  /** The rules between the commas: one more than there are commas. */
  function Split(s: string): (rules: seq<string>)
    ensures rules != []
  {
    var k := Comma(s);
    if k == |s| then [s] else [s[..k]] + Split(s[k + 1..])
  }

  predicate Rejects(rule: string) {
    rule != "" && rule[0] == '!'
  }

  function Body(rule: string): string {
    if Rejects(rule) then rule[1..] else rule
  }

  /** One more than the number of characters matched, or -1: a rule matches up to its star, or
      to its end if the group ends or a blank follows there. */
  function Score(body: string, group: string): int {
    if body != "" && group != "" && body[0] == group[0] then
      var r := Score(body[1..], group[1..]);
      if r < 0 then r else r + 1
    else if body == "" then
      if group == "" || IsSpace(group[0]) then 1 else -1
    else if body[0] == '*' then 1
    else -1
  }

  /** The running best: its score, and whether it rejects. A later rule has to be better. */
  function Better(best: (int, bool), rule: string, group: string): (int, bool) {
    var s := Score(Body(rule), group);
    if s > best.0 then (s, Rejects(rule)) else best
  }

  function BestFrom(best: (int, bool), rules: seq<string>, group: string): (int, bool)
    decreases rules
  {
    if rules == [] then best else BestFrom(Better(best, rules[0], group), rules[1..], group)
  }

  function Verdict(rules: seq<string>, group: string): int {
    var (len, rej) := BestFrom((0, false), rules, group);
    if rej then -len else len
  }

  /** Rule i is the first of the longest matching ones. */
  ghost predicate FirstLongest(rules: seq<string>, group: string, i: nat) {
    && i < |rules| && Score(Body(rules[i]), group) > 0
    && (forall k :: 0 <= k < |rules| ==> Score(Body(rules[k]), group) <= Score(Body(rules[i]), group))
    && (forall k :: 0 <= k < i ==> Score(Body(rules[k]), group) < Score(Body(rules[i]), group))
  }

  lemma {:induction false} BestFromFirst(best: (int, bool), rules: seq<string>, group: string)
    requires best.0 >= 0
    ensures var b := BestFrom(best, rules, group);
      && b.0 >= best.0
      && (b != best ==> b.0 > best.0)
      && (b.0 == best.0 ==> b == best && forall k :: 0 <= k < |rules| ==> Score(Body(rules[k]), group) <= best.0)
      && (b.0 > best.0 ==> exists i: nat ::
            i < |rules| && FirstLongest(rules, group, i) && b == (Score(Body(rules[i]), group), Rejects(rules[i])))
    decreases rules
  {
    hide Score, Body, Rejects, FirstLongest;
    if rules != [] {
      var rest := rules[1..];
      var mid, b := Better(best, rules[0], group), BestFrom(best, rules, group);
      BestFromFirst(mid, rest, group);
      if b.0 > mid.0 {
        var i: nat :| i < |rest| && FirstLongest(rest, group, i)
          && b == (Score(Body(rest[i]), group), Rejects(rest[i]));
        FirstLater(rules, group, i);
        assert rules[i + 1] == rest[i];
      } else {
        assert forall k :: 0 < k < |rules| ==> rules[k] == rest[k - 1];
        if mid.0 > best.0 {
          FirstHead(rules, group);
        }
      }
    }
  }

  lemma FirstLater(rules: seq<string>, group: string, i: nat)
    requires rules != [] && FirstLongest(rules[1..], group, i)
    requires Score(Body(rules[0]), group) < Score(Body(rules[1..][i]), group)
    ensures FirstLongest(rules, group, i + 1)
  {
    hide Score, Body;
    assert forall k :: 0 < k < |rules| ==> rules[k] == rules[1..][k - 1];
  }

  lemma OneFirst(rules: seq<string>, group: string, i: nat, k: nat)
    requires FirstLongest(rules, group, i) && FirstLongest(rules, group, k)
    ensures i == k
  {
    hide Score, Body;
    assert Score(Body(rules[i]), group) == Score(Body(rules[k]), group);
  }

  lemma FirstHead(rules: seq<string>, group: string)
    requires rules != [] && Score(Body(rules[0]), group) > 0
    requires forall k :: 0 < k < |rules| ==> Score(Body(rules[k]), group) <= Score(Body(rules[0]), group)
    ensures FirstLongest(rules, group, 0)
  {
    hide Score, Body;
  }

  /** The one pass is: split at the commas, take the first longest matching rule. */
  lemma VerdictIsFirstLongest(rules: seq<string>, group: string)
    ensures if exists i: nat :: FirstLongest(rules, group, i) then
        forall i: nat :: FirstLongest(rules, group, i) ==>
          Verdict(rules, group) ==
            if Rejects(rules[i]) then -Score(Body(rules[i]), group) else Score(Body(rules[i]), group)
      else
        Verdict(rules, group) == 0 && forall k :: 0 <= k < |rules| ==> Score(Body(rules[k]), group) <= 0
  {
    BestFromFirst((0, false), rules, group);
    var b := BestFrom((0, false), rules, group);
    if b.0 > 0 {
      var i: nat :| FirstLongest(rules, group, i) && b == (Score(Body(rules[i]), group), Rejects(rules[i]));
      forall k: nat | FirstLongest(rules, group, k)
        ensures k == i
      {
        OneFirst(rules, group, i, k);
      }
    }
  }

  // ----- the scan -----

  lemma SplitStep(s: string)
    ensures Split(s) == if Comma(s) == |s| then [s] else [s[..Comma(s)]] + Split(s[Comma(s) + 1..])
  {
    hide Comma;
  }

  lemma CommaIs(s: string, k: nat)
    requires k <= |s| && (forall i :: 0 <= i < k ==> s[i] != ',') && (k < |s| ==> s[k] == ',')
    ensures Comma(s) == k
  {
    hide Comma;
  }

  /** A rule that ends at the next comma or the end is the first of those from its start on. */
  lemma SplitFrom(s: string, from: nat, p: nat)
    requires from <= p <= |s| && (forall i :: from <= i < p ==> s[i] != ',') && (p < |s| ==> s[p] == ',')
    ensures Split(s[from..]) == [s[from..p]] + if p == |s| then [] else Split(s[p + 1..])
  {
    hide Split;
    var rest := s[from..];
    CommaIs(rest, p - from);
    SplitStep(rest);
    assert rest[..p - from] == s[from..p];
    if p < |s| {
      assert rest[p - from + 1..] == s[p + 1..];
    } else {
      assert s[from..p] == rest;
    }
  }

  /** Score after n characters that agree. */
  lemma {:induction false} ScoreAfter(body: string, group: string, n: nat)
    requires n <= |body| && n <= |group| && body[..n] == group[..n]
    ensures var r := Score(body[n..], group[n..]);
      Score(body, group) == if r < 0 then r else r + n
  {
    if n == 0 {
      assert body[0..] == body && group[0..] == group;
    } else {
      assert body[0] == body[..n][0] == group[..n][0] == group[0];
      assert body[1..][..n - 1] == body[..n][1..] && group[1..][..n - 1] == group[..n][1..];
      ScoreAfter(body[1..], group[1..], n - 1);
      assert body[1..][n - 1..] == body[n..] && group[1..][n - 1..] == group[n..];
    }
  }

  /** For a group without a comma the scan of a rule stays within it. */
  lemma ReachIsScore(rest: string, group: string)
    requires ',' !in group && CString(rest) && CString(group)
    ensures Common(rest, group) <= Comma(rest) && Reach(rest, group) == Score(rest[..Comma(rest)], group)
  {
    hide Comma;
    var n, k := Common(rest, group), Comma(rest);
    var body := rest[..k];
    assert body[..n] == rest[..n];
    ScoreAfter(body, group, n);
    if n < k {
      assert body[n..][0] == rest[n];
    }
  }

  /** The body of the first rule starts the body of the text. */
  lemma RuleBody(text: string)
    ensures var k, rest := Comma(text), Body(text);
      var first := if Rejects(text) then 1 else 0;
      && first <= k <= |text| && |rest| == |text| - first && Comma(rest) == k - first
      && Body(text[..k]) == rest[..k - first] && Rejects(text[..k]) == Rejects(text)
      && (k < |text| ==> rest[k - first + 1..] == text[k + 1..])
  {
    hide Comma;
    var k, rest := Comma(text), Body(text);
    CommaIs(rest, k - if Rejects(text) then 1 else 0);
  }

  lemma CommaFrom(s: string, n: nat)
    requires n <= Comma(s)
    ensures n + Comma(s[n..]) == Comma(s)
  {
    hide Comma;
    CommaIs(s[n..], Comma(s) - n);
  }

  lemma BodyString(text: string)
    requires CString(text)
    ensures CString(Body(text))
  {
  }

  /** For such a group one step of the scan judges one rule. */
  lemma ScanRuleStep(best: (int, bool), text: string, group: string)
    requires ',' !in group && CString(text) && CString(group)
    ensures RuleEnd(text, group) == Comma(text)
    ensures Judged(best, text, group) == Better(best, text[..Comma(text)], group)
  {
    hide Comma, Score, Reach, Common, Body, Rejects, CString;
    var rest := Body(text);
    RuleBody(text);
    BodyString(text);
    ReachIsScore(rest, group);
    CommaFrom(rest, Common(rest, group));
  }

  lemma {:induction false} ScanIsBest(best: (int, bool), text: string, group: string)
    requires ',' !in group && CString(text) && CString(group)
    ensures Scan(best, text, group) == BestFrom(best, Split(text), group)
    decreases |text|
  {
    hide Comma, Split, Better, Judged, RuleEnd;
    var k := Comma(text);
    ScanRuleStep(best, text, group);
    SplitStep(text);
    if k < |text| {
      assert Split(text)[1..] == Split(text[k + 1..]);
      ScanIsBest(Better(best, text[..k], group), text[k + 1..], group);
    } else {
      assert text[..k] == text && [text][1..] == [];
    }
  }

  /** The verdict is that of the rules between the commas. */
  lemma ScanIsVerdict(pattern: string, group: string)
    requires ',' !in group && CString(pattern) && CString(group)
    ensures ScanVerdict(pattern, group) == Verdict(Split(pattern), group)
  {
    hide Scan, BestFrom, Split;
    ScanIsBest((0, false), pattern, group);
  }

  lemma {:induction false} ScoreBound(body: string, group: string)
    ensures Score(body, group) <= |body| + 1
  {
    if body != "" && group != "" && body[0] == group[0] {
      ScoreBound(body[1..], group[1..]);
    }
  }

  lemma {:induction false} BestBound(best: (int, bool), rules: seq<string>, group: string, n: int)
    requires best.0 <= n && forall r :: r in rules ==> |Body(r)| < n
    ensures BestFrom(best, rules, group).0 <= n
    decreases rules
  {
    if rules != [] {
      assert rules[0] in rules;
      ScoreBound(Body(rules[0]), group);
      BestBound(Better(best, rules[0], group), rules[1..], group, n);
    }
  }

  lemma {:induction false} SplitShort(s: string)
    ensures forall r :: r in Split(s) ==> |r| <= |s|
    decreases |s|
  {
    hide Split, Comma;
    SplitStep(s);
    if Comma(s) < |s| {
      SplitShort(s[Comma(s) + 1..]);
    }
  }

  /** The group itself as a reject rule is scanned to its end, over its commas. */
  lemma CommaScan(group: string)
    requires CString(group)
    ensures ScanVerdict("!" + group, group) == -(|group| + 1)
  {
    hide Comma, Common;
    var pattern := "!" + group;
    assert Body(pattern) == group && Rejects(pattern);
    SameCommon(group);
    assert group[|group|..] == "";
    CommaIs("", 0);
    assert RuleEnd(pattern, group) == |pattern|;
  }

  lemma ShortBodies(group: string)
    requires ',' in group
    ensures forall r :: r in Split("!" + group) ==> |Body(r)| < |group|
  {
    hide Split, Comma;
    var pattern := "!" + group;
    var k := Comma(pattern);
    var i :| 0 <= i < |group| && group[i] == ',';
    assert pattern[i + 1] == ',';
    SplitStep(pattern);
    SplitShort(pattern[k + 1..]);
    assert Body(pattern[..k]) == pattern[1..k];
  }

  /** No rule between the commas is as long. */
  lemma CommaRules(group: string)
    requires ',' in group
    ensures Verdict(Split("!" + group), group) >= -|group|
  {
    hide Split, Score, Body, BestFrom;
    ShortBodies(group);
    BestBound((0, false), Split("!" + group), group, |group|);
    BestGrows((0, false), Split("!" + group), group);
  }

  lemma {:induction false} BestGrows(best: (int, bool), rules: seq<string>, group: string)
    ensures BestFrom(best, rules, group).0 >= best.0
    decreases rules
  {
    if rules != [] {
      BestGrows(Better(best, rules[0], group), rules[1..], group);
    }
  }

  lemma {:induction false} SameCommon(s: string)
    ensures Common(s, s) == |s|
  {
    if s != "" {
      SameCommon(s[1..]);
    }
  }

  /** Every list judges a group by its rules exactly when the group has no comma. */
  lemma ScanIsVerdictIff(group: string)
    requires CString(group)
    ensures (forall pattern :: CString(pattern) ==> ScanVerdict(pattern, group) == Verdict(Split(pattern), group))
      <==> ',' !in group
  {
    hide ScanVerdict, Verdict, Split;
    if ',' in group {
      CommaScan(group);
      CommaRules(group);
      assert CString("!" + group);
    } else {
      forall pattern | CString(pattern)
        ensures ScanVerdict(pattern, group) == Verdict(Split(pattern), group)
      {
        ScanIsVerdict(pattern, group);
      }
    }
  }

  // ----- what one rule matches -----

  /** x is the name, or a line that starts with it and goes on with white space. */
  predicate Exactly(name: string, x: string) {
    || x == name
    || (|name| < |x| && x[..|name|] == name
        && x[|name|] in [' ', '\t', '\n', '\r', 11 as char, 12 as char])
  }

  predicate StartsWith(x: string, stem: string) {
    |stem| <= |x| && x[..|stem|] == stem
  }

  /** A rule as it is written. */
  function Written(rejects: bool, stem: string, star: bool): string {
    (if rejects then "!" else "") + stem + if star then "*" else ""
  }

  /** One more than the characters that a rule has matched, 0 when it does not match: a name
      without a star matches itself and its line, and with one all that it starts. A group that
      itself goes on with a star is compared to that as well. */
  function Matched(stem: string, star: bool, x: string): int {
    var name := if star then stem + "*" else stem;
    if Exactly(name, x) then |name| + 1
    else if star && StartsWith(x, stem) && !StartsWith(x, name) then |stem| + 1
    else 0
  }

  lemma CommonAt(a: string, b: string, n: nat)
    requires n <= |a| && n <= |b| && a[..n] == b[..n] && (n < |a| && n < |b| ==> a[n] != b[n])
    ensures Common(a, b) == n
  {
    hide Common;
    var m := Common(a, b);
    assert forall i :: 0 <= i < n ==> a[..n][i] == a[i] && b[..n][i] == b[i];
    assert forall i :: 0 <= i < m ==> a[..m][i] == a[i] && b[..m][i] == b[i];
  }

  lemma ReachIs(stem: string, star: bool, x: string)
    requires Plain(stem) && CString(x)
    ensures var r := Reach(if star then stem + "*" else stem, x); (if r > 0 then r else 0) == Matched(stem, star, x)
  {
    hide Common;
    var name := if star then stem + "*" else stem;
    var n := Common(name, x);
    CommonWhole(name, x);
    if star {
      CommonStem(stem, x);
    }
    assert forall k :: 0 <= k < |name| ==> name[k] != ',' && name[k] != '\0' && (name[k] == '*' <==> k == |stem|);
    assert star ==> name[..|stem|] == stem;
    assert n <= |x| && name[..n] == x[..n];
  }

  lemma CommonWhole(name: string, x: string)
    ensures Common(name, x) == |name| <==> StartsWith(x, name)
  {
    hide Common;
    if StartsWith(x, name) {
      assert name[..|name|] == name;
      CommonAt(name, x, |name|);
    }
  }

  lemma CommonStem(stem: string, x: string)
    ensures Common(stem + "*", x) >= |stem| <==> StartsWith(x, stem)
  {
    hide Common;
    var name := stem + "*";
    var n := Common(name, x);
    assert name[..|stem|] == stem;
    if StartsWith(x, stem) {
      assert forall i :: 0 <= i < |stem| ==> x[..|stem|][i] == x[i] && name[i] == stem[i];
    }
    if n >= |stem| {
      assert x[..|stem|] == x[..n][..|stem|] == name[..n][..|stem|] == stem;
    }
  }

  /** A list of one rule, whatever the group holds. */
  lemma OneRule(rejects: bool, stem: string, star: bool, x: string)
    requires Plain(stem) && CString(x) && (rejects || !Rejects(stem))
    ensures ScanVerdict(Written(rejects, stem, star), x)
         == if rejects then -Matched(stem, star, x) else Matched(stem, star, x)
  {
    hide Common, Comma, Reach, Matched;
    var pattern, name := Written(rejects, stem, star), if star then stem + "*" else stem;
    assert Body(pattern) == name && (Rejects(pattern) <==> rejects);
    ReachIs(stem, star, x);
    var n := Common(name, x);
    assert forall i :: 0 <= i < |name| - n ==> name[n..][i] == name[n + i];
    CommaIs(name[n..], |name| - n);
    assert RuleEnd(pattern, x) == |pattern|;
  }

  /** One rule of the scan: its score and where the scan stopped. */
  method ScanRule(pattern: string, first: nat, group: string) returns (clen: int, j: nat)
    requires first <= |pattern| && CString(pattern) && CString(group)
    ensures clen == Reach(pattern[first..], group) && j == first + Common(pattern[first..], group)
  {
    hide Common;
    ghost var rest := pattern[first..];
    clen, j := 0, first;
    while At(pattern, j) != '\0' && At(pattern, j) == At(group, clen)
      invariant 0 <= clen <= |rest| && clen <= |group| && j == first + clen
      invariant forall i :: 0 <= i < clen ==> pattern[first + i] == group[i]
      decreases |pattern| - j
    {
      clen := clen + 1;
      j := j + 1;
    }
    CommonIs(pattern, first, group, clen);
    var c := At(pattern, j);
    if c == ',' || c == '\0' {
      if At(group, clen) != '\0' && !IsSpace(At(group, clen)) {
        clen := -2;
      }
      clen := clen + 1;
    } else if c == '*' {
      clen := clen + 1;
    } else {
      clen := -1;
    }
  }

  lemma CommonIs(s: string, first: nat, group: string, n: nat)
    requires first + n <= |s| && n <= |group| && forall i :: 0 <= i < n ==> s[first + i] == group[i]
    requires first + n < |s| && n < |group| ==> s[first + n] != group[n]
    ensures Common(s[first..], group) == n
  {
    hide Common;
    var m := Common(s[first..], group);
    assert forall i :: 0 <= i < n ==> s[first..][i] == s[first + i];
    assert forall i :: 0 <= i < m ==> s[first..][i] == s[first..][..m][i] == group[..m][i] == group[i];
  }

  /** On to the end of the rule. */
  method ToComma(pattern: string, from: nat) returns (j: nat)
    requires from <= |pattern| && CString(pattern)
    ensures j == from + Comma(pattern[from..]) && (At(pattern, j) == '\0' <==> j == |pattern|)
  {
    hide Comma;
    j := from;
    while At(pattern, j) != '\0' && At(pattern, j) != ','
      invariant from <= j <= |pattern| && forall i :: from <= i < j ==> pattern[i] != ','
      decreases |pattern| - j
    {
      j := j + 1;
    }
    CommaIs(pattern[from..], j - from);
  }

  /** The body of the loop: the rule that starts at j, up to its comma or the end. */
  method NextRule(pattern: string, from: nat, group: string, len: int, rej: bool)
      returns (bmlen: int, bmrej: bool, j: nat)
    requires from <= |pattern| && CString(pattern) && CString(group)
    ensures from <= j <= |pattern| && (At(pattern, j) == '\0' <==> j == |pattern|)
    ensures Scan((len, rej), pattern[from..], group)
         == if j == |pattern| then (bmlen, bmrej) else Scan((bmlen, bmrej), pattern[j + 1..], group)
  {
    hide Reach, Common, Comma, Judged, RuleEnd, CString;
    RuleEndFrom(pattern, from, group);
    JudgedFrom((len, rej), pattern, from, group);
    bmlen, bmrej, j := len, rej, from;
    var rejrule := At(pattern, j) == '!';
    if rejrule {
      j := j + 1;
    }
    var clen, stop := ScanRule(pattern, j, group);
    if clen > bmlen {
      bmlen, bmrej := clen, rejrule;
    }
    j := ToComma(pattern, stop);
    if j < |pattern| {
      SuffixOf(pattern, from, j + 1);
    }
  }

  /** Where the body of the rule that starts at an index starts. */
  function BodyStart(pattern: string, from: nat): (first: nat)
    requires from <= |pattern|
    ensures from <= first <= |pattern|
  {
    if At(pattern, from) == '!' then from + 1 else from
  }

  lemma RuleEndFrom(pattern: string, from: nat, group: string)
    requires from <= |pattern|
    ensures var first := BodyStart(pattern, from);
      var stop := first + Common(pattern[first..], group);
      stop <= |pattern| && from + RuleEnd(pattern[from..], group) == stop + Comma(pattern[stop..])
  {
    hide Common, Comma, Body, Rejects;
    BodyFrom(pattern, from);
    var first := BodyStart(pattern, from);
    SuffixOf(pattern, first, first + Common(pattern[first..], group));
  }

  lemma JudgedFrom(best: (int, bool), pattern: string, from: nat, group: string)
    requires from <= |pattern|
    ensures var r := Reach(pattern[BodyStart(pattern, from)..], group);
      Judged(best, pattern[from..], group) == if r > best.0 then (r, At(pattern, from) == '!') else best
  {
    hide Reach, Body, Rejects;
    BodyFrom(pattern, from);
  }

  lemma SuffixOf(s: string, i: nat, j: nat)
    requires i <= j <= |s|
    ensures s[i..][j - i..] == s[j..]
  {
  }

  lemma BodyFrom(s: string, i: nat)
    requires i <= |s|
    ensures Rejects(s[i..]) <==> At(s, i) == '!'
    ensures Rejects(s[i..]) ==> i < |s|
    ensures Body(s[i..]) == s[BodyStart(s, i)..]
  {
  }

  method Matchgroup(pattern: string, group: string) returns (r: int)
    requires CString(pattern) && CString(group)
    ensures r == ScanVerdict(pattern, group)
    ensures ',' !in group ==> r == Verdict(Split(pattern), group)
    ensures pattern != "" && Plain(pattern) && pattern[0] != '!' ==>
      r == if Exactly(pattern, group) then |pattern| + 1 else 0
  {
    hide Scan, Split, Verdict, Exactly;
    var j, bmlen, bmrej := 0, 0, false;
    var more := true;
    assert pattern[0..] == pattern;
    while more
      invariant more ==> j <= |pattern|
      invariant more ==> Scan((bmlen, bmrej), pattern[j..], group) == Scan((0, false), pattern, group)
      invariant !more ==> (bmlen, bmrej) == Scan((0, false), pattern, group)
      decreases more, |pattern| - j
    {
      bmlen, bmrej, j := NextRule(pattern, j, group, bmlen, bmrej);
      more := At(pattern, j) != '\0';
      j := j + 1;
    }
    r := if bmrej then -bmlen else bmlen;
    if ',' !in group {
      ScanIsVerdict(pattern, group);
    }
    if pattern != "" && Plain(pattern) && pattern[0] != '!' {
      OneRule(false, pattern, false, group);
      assert Written(false, pattern, false) == pattern;
    }
  }
}
