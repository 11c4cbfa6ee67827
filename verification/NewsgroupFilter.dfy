/** NServer-0.9.1/NewsgroupFilter.h: filters kept as a comma-separated rule list, combined by
    copying rules. */
module NewsgroupFilters {
  import opened MatchGroup
  import opened FilterAlgebra
  import Wildmat

  // ----- filters as text -----

  function Text(r: Rule): string {
    (if r.neg then "!" else "") + r.stem + "*"
  }

  /** A rule [!]stem*; only a reject rule's stem may itself start with an exclamation mark. */
  predicate Clean(r: Rule) {
    Plain(r.stem) && (!r.neg && r.stem != "" ==> r.stem[0] != '!')
  }

  function Texts(fs: seq<Rule>): seq<string> {
    seq(|fs|, i requires 0 <= i < |fs| => Text(fs[i]))
  }

  /** Every rule followed by a comma: the list while it is being built. */
  function Commas(rules: seq<string>): string {
    if rules == [] then "" else rules[0] + "," + Commas(rules[1..])
  }

  /** The finished list: without the last comma. */
  function Join(rules: seq<string>): string {
    var s := Commas(rules);
    if s == "" then "" else s[..|s| - 1]
  }

  ghost predicate IsFilter(s: string, fs: seq<Rule>) {
    && fs != [] && (forall i :: 0 <= i < |fs| ==> Clean(fs[i])) && Distinct(fs)
    && s == Join(Texts(fs))
  }

  /** Rules [!]stem* with distinct stems. */
  ghost predicate FilterList(s: string) {
    exists fs :: IsFilter(s, fs)
  }

  predicate AcceptsGroup(s: string, x: string) {
    ScanVerdict(s, x) > 0
  }

  // ----- text and rules agree -----

  lemma {:induction false} SplitCommas(rules: seq<string>)
    requires rules != [] && forall i :: 0 <= i < |rules| ==> ',' !in rules[i]
    ensures Commas(rules) != "" && Split(Join(rules)) == rules
  {
    hide Comma, Split;
    var s, head := Join(rules), rules[0];
    SplitStep(s);
    if |rules| == 1 {
      assert Commas(rules[1..]) == "";
      assert s == head;
      CommaIs(s, |head|);
      assert s[..|head|] == s;
    } else {
      SplitCommas(rules[1..]);
      assert s == head + "," + Join(rules[1..]);
      CommaIs(s, |head|);
      assert s[..|head|] == head && s[|head| + 1..] == Join(rules[1..]);
    }
  }

  /** How a rule stem* scores on a name, and on the text of another rule's stem. */
  lemma {:induction false} ScoreStem(stem: string, x: string)
    requires Plain(stem) && Plain(x)
    ensures Score(stem + "*", x) == if stem <= x then |stem| + 1 else -1
    ensures Score(stem + "*", x + "*") ==
      if stem == x then |stem| + 2 else if stem <= x then |stem| + 1 else -1
    decreases |stem|
  {
    if stem == "" {
      assert stem + "*" == "*";
      if x == "" {
        assert x + "*" == "*";
      }
    } else if x != "" && stem[0] == x[0] {
      assert (stem + "*")[1..] == stem[1..] + "*" && (x + "*")[1..] == x[1..] + "*";
      ScoreStem(stem[1..], x[1..]);
      assert stem == [stem[0]] + stem[1..] && x == [x[0]] + x[1..];
    }
  }

  lemma TextScore(r: Rule, x: string, g: string)
    requires Clean(r) && Plain(x) && (g == x || g == x + "*")
    ensures Rejects(Text(r)) <==> r.neg
    ensures Score(Body(Text(r)), g) ==
      if r.stem == x && g != x then |x| + 2 else if r.stem <= x then |r.stem| + 1 else -1
  {
    hide Score, Text, Body, Rejects, Plain;
    TextBody(r);
    ScoreStem(r.stem, x);
    assert g == x || g == x + "*";
  }

  lemma TextBody(r: Rule)
    requires Clean(r)
    ensures (Rejects(Text(r)) <==> r.neg) && Body(Text(r)) == r.stem + "*" && Plain(r.stem)
  {
    assert Body(Text(r)) == r.stem + "*";
  }

  /** The scan of the text accepts exactly when the rules do. */
  lemma VerdictAccepts(fs: seq<Rule>, x: string, g: string)
    requires fs != [] && (forall i :: 0 <= i < |fs| ==> Clean(fs[i])) && Distinct(fs)
    requires Plain(x) && (g == x || g == x + "*")
    ensures Verdict(Texts(fs), g) > 0 <==> Accepts(fs, x)
  {
    hide Score, Verdict, Accepts, Text;
    var rules := Texts(fs);
    VerdictIsFirstLongest(rules, g);
    forall i | 0 <= i < |fs|
      ensures Rejects(rules[i]) <==> fs[i].neg
      ensures Score(Body(rules[i]), g) ==
        if fs[i].stem == x && g != x then |x| + 2 else if fs[i].stem <= x then |fs[i].stem| + 1 else -1
    {
      TextScore(fs[i], x, g);
    }
    if i: nat :| FirstLongest(rules, g, i) {
      assert fs[i].stem <= x;
      forall q | q in fs && q.stem <= x
        ensures |q.stem| <= |fs[i].stem|
      {
        var k :| 0 <= k < |fs| && fs[k] == q;
        assert Score(Body(rules[k]), g) <= Score(Body(rules[i]), g);
      }
      BestDecides(fs, x, fs[i]);
    } else {
      forall q | q in fs
        ensures !(q.stem <= x)
      {
        var k :| 0 <= k < |fs| && fs[k] == q;
        assert Score(Body(rules[k]), g) <= 0;
      }
      NoRuleRejects(fs, x);
    }
  }

  lemma TextsPlain(fs: seq<Rule>)
    requires forall i :: 0 <= i < |fs| ==> Clean(fs[i])
    ensures forall i :: 0 <= i < |fs| ==> ',' !in Texts(fs)[i] && CString(Texts(fs)[i]) && Texts(fs)[i] != ""
  {
  }

  /** What a filter's text accepts is what its rules accept. */
  lemma FilterMeaning(s: string, fs: seq<Rule>, x: string, g: string)
    requires IsFilter(s, fs) && Plain(x) && (g == x || g == x + "*")
    ensures Split(s) == Texts(fs)
    ensures AcceptsGroup(s, g) <==> Accepts(fs, x)
  {
    hide Split, Verdict, ScanVerdict, Accepts, Text;
    TextsPlain(fs);
    CommasString(Texts(fs));
    SplitCommas(Texts(fs));
    ScanIsVerdict(s, g);
    VerdictAccepts(fs, x, g);
  }

  // ----- the iterator -----

  const END := -1

  class RuleIterator {
    const rulelist: string

    /** The index after the current rule, END past the last one. */
    var rulelistp: int

    var rule: string

    ghost predicate Valid()
      reads this
    {
      CString(rulelist) && (rulelistp == END || 0 <= rulelistp <= |rulelist|)
    }

    /** The rules from the current one on. */
    ghost function Rest(): seq<string>
      requires Valid()
      reads this
    {
      if rulelistp == END then []
      else [rule] + if rulelistp == |rulelist| then [] else Split(rulelist[rulelistp + 1..])
    }

    constructor (rulelist: string)
      requires CString(rulelist)
      ensures Valid() && Rest() == Split(rulelist) && rulelistp != END
    {
      this.rulelist := rulelist;
      this.rulelistp := 0;
      this.rule := "";
      new;
      Read();
      assert rulelist[0..] == rulelist;
    }

    /** Copies the rule that starts at rulelistp. */
    method Read()
      requires Valid() && rulelistp != END
      modifies this
      ensures Valid() && rulelistp != END
      ensures Rest() == Split(rulelist[old(rulelistp)..])
    {
      hide Split;
      ghost var from := rulelistp;
      rule := "";
      while At(rulelist, rulelistp) != '\0' && At(rulelist, rulelistp) != ','
        invariant from <= rulelistp <= |rulelist| && rule == rulelist[from..rulelistp]
        invariant forall i :: from <= i < rulelistp ==> rulelist[i] != ','
        decreases |rulelist| - rulelistp
      {
        rule := rule + [rulelist[rulelistp]];
        rulelistp := rulelistp + 1;
      }
      SplitFrom(rulelist, from, rulelistp);
    }

    lemma Current()
      requires Valid()
      ensures if rulelistp == END then Rest() == [] else Rest() != [] && Rest()[0] == rule
    {
      hide Split;
    }

    method Next()
      requires Valid() && rulelistp != END
      modifies this
      ensures Valid() && Rest() == old(Rest())[1..]
    {
      if At(rulelist, rulelistp) != '\0' {
        rulelistp := rulelistp + 1;
        Read();
      } else {
        rulelistp := END;
      }
    }
  }

  // ----- adding a rule -----

  predicate Entries(rules: seq<string>) {
    forall i :: 0 <= i < |rules| ==> rules[i] != "" && ',' !in rules[i] && CString(rules[i])
  }

  lemma CommasHead(rules: seq<string>, k: nat)
    requires k < |rules| && Entries(rules)
    ensures var s := Commas(rules[k..]);
      && |rules[k]| < |s| && s[..|rules[k]|] == rules[k] && s[|rules[k]|] == ','
      && s[|rules[k]| + 1..] == Commas(rules[k + 1..])
  {
    assert rules[k..][0] == rules[k] && rules[k..][1..] == rules[k + 1..];
  }

  /** How far the rule agrees with the entry at start. */
  method Compare(rulelist: string, start: nat, rule: string, ghost entry: string) returns (q: nat)
    requires start + |entry| < |rulelist| && ',' !in rule && CString(rule) && CString(entry)
    requires rulelist[start..][..|entry|] == entry && rulelist[start..][|entry|] == ','
    ensures q <= |rule| && q <= |entry| && rule[..q] == entry[..q] && At(rulelist, start + q) != At(rule, q)
  {
    q := 0;
    EntryChar(rulelist, start, entry, q);
    while At(rulelist, start + q) == At(rule, q)
      invariant q <= |rule| && q <= |entry| && rule[..q] == entry[..q]
      invariant At(rulelist, start + q) == if q < |entry| then entry[q] else ','
      decreases |rule| - q
    {
      assert rule[..q + 1] == rule[..q] + [rule[q]] && entry[..q + 1] == entry[..q] + [entry[q]];
      q := q + 1;
      EntryChar(rulelist, start, entry, q);
    }
  }

  /** Every entry ends in a comma, so an entry equals the rule iff the comparison stops at the
      rule's end and an entry's comma. */
  method AddRuleToRulelist(rulelist: string, rule: string, ghost rules: seq<string>) returns (r: string)
    requires Entries(rules) && rulelist == Commas(rules)
    requires rule != "" && ',' !in rule && CString(rule)
    ensures r == Commas(if rule in rules then rules else rules + [rule])
  {
    var p: nat := 0;
    ghost var k := 0;
    var more := true;
    assert rulelist[0..] == rulelist && rules[0..] == rules;
    while more
      invariant k <= |rules| && p <= |rulelist| && rulelist[p..] == Commas(rules[k..])
      invariant rule !in rules[..k]
      invariant more ==> k < |rules| || rulelist == ""
      invariant !more ==> k == |rules|
      decreases more, |rulelist| - p
    {
      if p == |rulelist| {
        // an empty list: nothing to compare with
        CommasEmpty(rules, k);
        assert At(rulelist, p) != At(rule, 0);
        more := false;
      } else {
        ghost var start := p;
        CommasHead(rules, k);
        var q := Compare(rulelist, p, rule, rules[k]);
        p := p + q;
        EntryChar(rulelist, start, rules[k], q);
        if At(rule, q) == '\0' && (At(rulelist, p) == '\0' || At(rulelist, p) == ',') {
          assert rule == rule[..q] == rules[k][..q] == rules[k];
          return rulelist;
        }
        assert rule != rules[k];
        p := EntryEnd(rulelist, p, start, rules[k]);
        p := p + 1;
        assert rules[..k + 1] == rules[..k] + [rules[k]];
        assert rulelist[p..] == rulelist[start..][|rules[k]| + 1..];
        k := k + 1;
        more := At(rulelist, p) != '\0';
        RestEmpty(rulelist, rules, p, k);
      }
    }
    assert rules[..k] == rules;
    CommasSnoc(rules, rule);
    r := rulelist + rule + ",";
  }

  /** On to the comma behind the entry. */
  method EntryEnd(rulelist: string, from: nat, ghost start: nat, ghost entry: string) returns (p: nat)
    requires start + |entry| < |rulelist| && start <= from <= start + |entry| && ',' !in entry && CString(entry)
    requires rulelist[start..][..|entry|] == entry && rulelist[start..][|entry|] == ','
    ensures p == start + |entry|
  {
    p := from;
    EntryChar(rulelist, start, entry, p - start);
    while At(rulelist, p) != '\0' && At(rulelist, p) != ','
      invariant start <= p <= start + |entry|
      invariant At(rulelist, p) == if p - start < |entry| then entry[p - start] else ','
      decreases start + |entry| - p
    {
      p := p + 1;
      EntryChar(rulelist, start, entry, p - start);
    }
  }

  lemma CommasEmpty(rules: seq<string>, k: nat)
    requires k <= |rules| && Commas(rules[k..]) == ""
    ensures k == |rules|
  {
  }

  /** The characters of an entry in the list: its own, then the comma. */
  lemma EntryChar(rulelist: string, start: nat, entry: string, q: nat)
    requires start + |entry| < |rulelist| && q <= |entry|
    requires rulelist[start..][..|entry|] == entry && rulelist[start..][|entry|] == ','
    ensures At(rulelist, start + q) == if q < |entry| then entry[q] else ','
  {
    if q < |entry| {
      assert rulelist[start..][..|entry|][q] == rulelist[start + q];
    }
  }

  lemma RestEmpty(rulelist: string, rules: seq<string>, p: nat, k: nat)
    requires k <= |rules| && p <= |rulelist| && rulelist[p..] == Commas(rules[k..]) && Entries(rules)
    ensures At(rulelist, p) == '\0' <==> k == |rules|
  {
    if k < |rules| {
      CommasHead(rules, k);
      assert rulelist[p..][0] == rulelist[p];
      assert rulelist[p..][..|rules[k]|][0] == rules[k][0];
    }
  }

  lemma {:induction false} CommasSnoc(rules: seq<string>, rule: string)
    ensures Commas(rules + [rule]) == Commas(rules) + rule + ","
  {
    if rules == [] {
      assert [rule][1..] == [];
      assert Commas([rule]) == rule + ",";
      assert rules + [rule] == [rule];
    } else {
      assert (rules + [rule])[1..] == rules[1..] + [rule];
      CommasSnoc(rules[1..], rule);
    }
  }

  // ----- rules and their texts -----

  lemma TextParts(r: Rule)
    requires Clean(r)
    ensures var t := Text(r);
      && Plain(r.stem) && t != "" && ',' !in t && CString(t) && (At(t, 0) == '!' <==> r.neg)
      && (if r.neg then t[1..] else t) == r.stem + "*" && ',' !in r.stem + "*" && CString(r.stem + "*")
  {
    assert r.stem == "" ==> r.stem + "*" == "*";
  }

  lemma TextInjective(p: Rule, q: Rule)
    requires Clean(p) && Clean(q) && Text(p) == Text(q)
    ensures p == q
  {
    hide Text;
    TextParts(p);
    TextParts(q);
    assert p.stem == (p.stem + "*")[..|p.stem + "*"| - 1];
    assert q.stem == (q.stem + "*")[..|q.stem + "*"| - 1];
  }

  /** Comparing texts is comparing rules. */
  lemma AddText(hs: seq<Rule>, r: Rule)
    requires Clean(r) && forall i :: 0 <= i < |hs| ==> Clean(hs[i])
    ensures Entries(Texts(hs))
    ensures forall i :: 0 <= i < |AddRule(hs, r)| ==> Clean(AddRule(hs, r)[i])
    ensures Texts(AddRule(hs, r)) == if Text(r) in Texts(hs) then Texts(hs) else Texts(hs) + [Text(r)]
  {
    hide Text;
    forall i | 0 <= i < |hs|
      ensures Texts(hs)[i] != "" && ',' !in Texts(hs)[i] && CString(Texts(hs)[i])
      ensures Text(r) == Texts(hs)[i] ==> r == hs[i]
    {
      TextParts(hs[i]);
      if Text(r) == Text(hs[i]) {
        TextInjective(r, hs[i]);
      }
    }
    if r in hs {
      var i :| 0 <= i < |hs| && hs[i] == r;
      assert Texts(hs)[i] == Text(r);
    }
  }

  lemma {:induction false} CommasString(rules: seq<string>)
    requires forall i :: 0 <= i < |rules| ==> CString(rules[i])
    ensures CString(Commas(rules))
  {
    if rules != [] {
      CommasString(rules[1..]);
    }
  }

  lemma FilterString(s: string, fs: seq<Rule>)
    requires IsFilter(s, fs)
    ensures CString(s) && Split(s) == Texts(fs)
  {
    hide Split;
    TextsPlain(fs);
    CommasString(Texts(fs));
    SplitCommas(Texts(fs));
  }

  lemma CombineClean(op: Op, f: seq<Rule>, g: seq<Rule>)
    requires forall i :: 0 <= i < |f| ==> Clean(f[i])
    requires forall i :: 0 <= i < |g| ==> Clean(g[i])
    ensures forall i :: 0 <= i < |Combine(op, f, g)| ==> Clean(Combine(op, f, g)[i])
    ensures forall i :: 0 <= i < |AddLeft(op, [], f, g)| ==> Clean(AddLeft(op, [], f, g)[i])
  {
    hide Clean, KeepsLeft, KeepsRight;
    forall r | r in Combine(op, f, g) || r in AddLeft(op, [], f, g)
      ensures Clean(r)
    {
    }
  }

  /** The finished text accepts what the rules accept, also when no rule is left. */
  lemma ResultMeaning(h: seq<Rule>, x: string)
    requires (forall i :: 0 <= i < |h| ==> Clean(h[i])) && Distinct(h) && Name(x)
    ensures AcceptsGroup(Join(Texts(h)), x) <==> Accepts(h, x)
  {
    if h == [] {
      EmptyAccepts(x);
      NoRuleRejects(h, x);
    } else {
      hide Accepts, AcceptsGroup, Text;
      FilterMeaning(Join(Texts(h)), h, x, x);
    }
  }

  lemma EmptyAccepts(x: string)
    requires Name(x)
    ensures !AcceptsGroup("", x)
  {
    assert Split("") == [""];
    assert Score(Body(""), x) == -1;
    assert [""][1..] == [];
    assert BestFrom((0, false), [""], x) == BestFrom((0, false), [], x);
    hide ScanVerdict;
    ScanIsVerdict("", x);
  }

  lemma CommasNone()
    ensures Commas(Texts([])) == ""
  {
  }

  lemma AddLeftStep(op: Op, hs: seq<Rule>, f: seq<Rule>, k: nat, g: seq<Rule>)
    requires k < |f|
    ensures AddLeft(op, hs, f[k..], g) ==
      AddLeft(op, if KeepsLeft(op, f[k], g) then AddRule(hs, f[k]) else hs, f[k + 1..], g)
  {
    assert f[k..][0] == f[k] && f[k..][1..] == f[k + 1..];
  }

  lemma AddRightStep(op: Op, hs: seq<Rule>, g: seq<Rule>, k: nat, f: seq<Rule>)
    requires k < |g|
    ensures AddRight(op, hs, g[k..], f) ==
      AddRight(op, if KeepsRight(op, g[k], f) then AddRule(hs, g[k]) else hs, g[k + 1..], f)
  {
    assert g[k..][0] == g[k] && g[k..][1..] == g[k + 1..];
  }

  lemma AddLeftNone(op: Op, hs: seq<Rule>, g: seq<Rule>)
    ensures AddLeft(op, hs, [], g) == AddRight(op, hs, [], g) == hs
  {
  }

  lemma ResultFilter(h: seq<Rule>)
    requires (forall i :: 0 <= i < |h| ==> Clean(h[i])) && Distinct(h)
    ensures Join(Texts(h)) == "" || FilterList(Join(Texts(h)))
  {
    if h != [] {
      assert IsFilter(Join(Texts(h)), h);
    }
  }

  // ----- the filter -----

  /** One more rule in the list being built. */
  method Append(list: string, grp: string, ghost hs: seq<Rule>, ghost r: Rule) returns (longer: string)
    requires list == Commas(Texts(hs)) && grp == Text(r) && Clean(r) && forall i :: 0 <= i < |hs| ==> Clean(hs[i])
    ensures longer == Commas(Texts(AddRule(hs, r)))
    ensures forall i :: 0 <= i < |AddRule(hs, r)| ==> Clean(AddRule(hs, r)[i])
  {
    hide Text, Clean, AddRule, Commas;
    TextParts(r);
    AddText(hs, r);
    longer := AddRuleToRulelist(list, grp, Texts(hs));
  }

  class NewsgroupFilter {
    var rulelist: string
    var wildmat: string
    var wildmatSearch: bool

    constructor (rulelist: string)
      ensures this.rulelist == rulelist && !wildmatSearch
    {
      this.rulelist := rulelist;
      wildmat := "";
      wildmatSearch := false;
    }

    /** The longest matching rule decides; a pattern, if set, is asked unless it rejects. */
    method Matches(newsgroup: string) returns (r: int)
      requires CString(rulelist) && CString(newsgroup)
      requires wildmatSearch ==> CString(wildmat) && Wildmat.Parse(wildmat).Some?
      ensures var v := ScanVerdict(rulelist, newsgroup);
        r == if v < 0 || !wildmatSearch then v
             else if Wildmat.Matches(newsgroup, Wildmat.Parse(wildmat).value) then 1 else 0
    {
      hide ScanVerdict;
      r := Matchgroup(rulelist, newsgroup);
      if r >= 0 && wildmatSearch {
        var m, _ := Wildmat.Match(newsgroup, wildmat);
        r := if m then 1 else 0;
      }
    }

    /** f &= g accepts exactly the names both accept; what is not empty is again a filter. */
    method AndAssign(filter2: NewsgroupFilter)
      requires FilterList(rulelist) && FilterList(filter2.rulelist)
      requires !wildmatSearch && !filter2.wildmatSearch
      modifies this`rulelist
      ensures rulelist == "" || FilterList(rulelist)
      ensures forall x :: Name(x) ==>
        (AcceptsGroup(rulelist, x) <==> AcceptsGroup(old(rulelist), x) && AcceptsGroup(old(filter2.rulelist), x))
    {
      ghost var f :| IsFilter(rulelist, f);
      ghost var g :| IsFilter(filter2.rulelist, g);
      ghost var h := Combine(And, f, g);
      CombineClean(And, f, g);
      var list := CopyLeft(And, filter2, f, g);
      list := CopyRight(And, filter2, list, AddLeft(And, [], f, g), f, g);
      CombineDistinct(And, f, g);
      forall x | Name(x)
        ensures AcceptsGroup(Join(Texts(h)), x) <==> AcceptsGroup(rulelist, x) && AcceptsGroup(filter2.rulelist, x)
      {
        FilterMeaning(rulelist, f, x, x);
        FilterMeaning(filter2.rulelist, g, x, x);
        AndIsConjunction(f, g, x);
        ResultMeaning(h, x);
      }
      ResultFilter(h);
      rulelist := if |list| > 0 then list[..|list| - 1] else list;
    }

    /** f |= g accepts exactly the names either accepts; what is not empty is again a filter. */
    method OrAssign(filter2: NewsgroupFilter)
      requires FilterList(rulelist) && FilterList(filter2.rulelist)
      requires !wildmatSearch && !filter2.wildmatSearch
      modifies this`rulelist
      ensures rulelist == "" || FilterList(rulelist)
      ensures forall x :: Name(x) ==>
        (AcceptsGroup(rulelist, x) <==> AcceptsGroup(old(rulelist), x) || AcceptsGroup(old(filter2.rulelist), x))
    {
      ghost var f :| IsFilter(rulelist, f);
      ghost var g :| IsFilter(filter2.rulelist, g);
      ghost var h := Combine(Or, f, g);
      CombineClean(Or, f, g);
      var list := CopyLeft(Or, filter2, f, g);
      list := CopyRight(Or, filter2, list, AddLeft(Or, [], f, g), f, g);
      CombineDistinct(Or, f, g);
      forall x | Name(x)
        ensures AcceptsGroup(Join(Texts(h)), x) <==> AcceptsGroup(rulelist, x) || AcceptsGroup(filter2.rulelist, x)
      {
        FilterMeaning(rulelist, f, x, x);
        FilterMeaning(filter2.rulelist, g, x, x);
        OrIsDisjunction(f, g, x);
        ResultMeaning(h, x);
      }
      ResultFilter(h);
      rulelist := if |list| > 0 then list[..|list| - 1] else list;
    }

    /** matches() on the text of another rule, without its exclamation mark. */
    method Ask(grp: string, ghost r: Rule, ghost fs: seq<Rule>) returns (m: int)
      requires IsFilter(rulelist, fs) && !wildmatSearch && Clean(r) && grp == r.stem + "*"
      ensures m > 0 <==> Accepts(fs, r.stem)
    {
      hide Split, ScanVerdict, Accepts, Text;
      FilterString(rulelist, fs);
      TextParts(r);
      m := Matches(grp);
      FilterMeaning(rulelist, fs, r.stem, grp);
    }

    /** Whether the first loop copies a rule of the other filter. */
    method KeepLeft(op: Op, grp: string, ghost r: Rule, ghost fs: seq<Rule>) returns (keep: bool)
      requires IsFilter(rulelist, fs) && !wildmatSearch && Clean(r) && grp == Text(r)
      ensures keep <==> KeepsLeft(op, r, fs)
    {
      hide Accepts, Text, Clean, Distinct, Join, CString;
      TextParts(r);
      keep := At(grp, 0) != '!';
      if op == And {
        if keep {
          var m := Ask(grp, r, fs);
          keep := m > 0;
        } else {
          keep := true;
        }
      } else if !keep {
        var m := Ask(grp[1..], r, fs);
        keep := m <= 0;
      }
    }

    /** Whether the second loop does. */
    method KeepRight(op: Op, grp: string, ghost r: Rule, ghost fs: seq<Rule>) returns (keep: bool)
      requires IsFilter(rulelist, fs) && !wildmatSearch && Clean(r) && grp == Text(r)
      ensures keep <==> KeepsRight(op, r, fs)
    {
      hide Accepts, Text, Clean, Distinct, Join, CString;
      TextParts(r);
      var m := Ask(if At(grp, 0) != '!' then grp else grp[1..], r, fs);
      keep := if op == And then m > 0 else m <= 0;
    }

    /** The first loop of both operators, over the rules of this filter. */
    method CopyLeft(op: Op, filter2: NewsgroupFilter, ghost f: seq<Rule>, ghost g: seq<Rule>) returns (list: string)
      requires IsFilter(rulelist, f) && IsFilter(filter2.rulelist, g) && !filter2.wildmatSearch
      ensures list == Commas(Texts(AddLeft(op, [], f, g)))
    {
      hide Split, Accepts, Text, Clean, AddRule, AddLeft, AddRight, Commas, RuleIterator.Rest, Distinct, Join, CString,
        KeepsLeft, KeepsRight;
      list := "";
      ghost var hs: seq<Rule>, k: nat := [], 0;
      CommasNone();
      FilterString(rulelist, f);
      FilterString(filter2.rulelist, g);
      var it := new RuleIterator(rulelist);
      assert Texts(f)[0..] == Texts(f) && f[0..] == f;
      while it.rulelistp != END
        invariant it.Valid() && k <= |f| && it.Rest() == Texts(f)[k..]
        invariant forall i :: 0 <= i < |hs| ==> Clean(hs[i])
        invariant list == Commas(Texts(hs))
        invariant AddLeft(op, hs, f[k..], g) == AddLeft(op, [], f, g)
        decreases |f| - k
      {
        var grp := it.rule;
        it.Current();
        assert Texts(f)[k..][1..] == Texts(f)[k + 1..];
        assert it.Rest()[0] == grp && Texts(f)[k..][0] == Texts(f)[k] == Text(f[k]);
        var keep := filter2.KeepLeft(op, grp, f[k], g);
        ghost var old_hs := hs;
        if keep {
          list := Append(list, grp, hs, f[k]);
          hs := AddRule(hs, f[k]);
        }
        AddLeftStep(op, old_hs, f, k, g);
        it.Next();
        k := k + 1;
      }
      it.Current();
      AddLeftNone(op, hs, g);
      assert f[k..] == [];
    }

    /** The second loop, over the rules of the other filter. */
    method CopyRight(op: Op, filter2: NewsgroupFilter, list0: string, ghost hs0: seq<Rule>,
                     ghost f: seq<Rule>, ghost g: seq<Rule>) returns (list: string)
      requires IsFilter(rulelist, f) && IsFilter(filter2.rulelist, g) && !wildmatSearch
      requires list0 == Commas(Texts(hs0)) && forall i :: 0 <= i < |hs0| ==> Clean(hs0[i])
      ensures list == Commas(Texts(AddRight(op, hs0, g, f)))
    {
      hide Split, Accepts, Text, Clean, AddRule, AddLeft, AddRight, Commas, RuleIterator.Rest, Distinct, Join, CString,
        KeepsLeft, KeepsRight;
      list := list0;
      ghost var hs, k: nat := hs0, 0;
      FilterString(rulelist, f);
      FilterString(filter2.rulelist, g);
      var it := new RuleIterator(filter2.rulelist);
      assert Texts(g)[0..] == Texts(g) && g[0..] == g;
      while it.rulelistp != END
        invariant it.Valid() && k <= |g| && it.Rest() == Texts(g)[k..]
        invariant forall i :: 0 <= i < |hs| ==> Clean(hs[i])
        invariant list == Commas(Texts(hs))
        invariant AddRight(op, hs, g[k..], f) == AddRight(op, hs0, g, f)
        decreases |g| - k
      {
        var grp := it.rule;
        it.Current();
        assert Texts(g)[k..][1..] == Texts(g)[k + 1..];
        assert it.Rest()[0] == grp && Texts(g)[k..][0] == Texts(g)[k] == Text(g[k]);
        var keep := KeepRight(op, grp, g[k], f);
        ghost var old_hs := hs;
        if keep {
          list := Append(list, grp, hs, g[k]);
          hs := AddRule(hs, g[k]);
        }
        AddRightStep(op, old_hs, g, k, f);
        it.Next();
        k := k + 1;
      }
      it.Current();
      AddLeftNone(op, hs, f);
      assert g[k..] == [];
    }
  }
}
