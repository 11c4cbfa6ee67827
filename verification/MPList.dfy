/** NServer-0.9.1/MPList.h and MPList.cc: which of several news servers a group is read from,
    and the filter that keeps only one server's groups out of a full list. */
module ServerList {
  import opened MatchGroup

  datatype Entry = Entry(hostname: string, read: string, postTo: string)

  // ----- scores of rules without exclamation marks -----

  /** The part of a rule before its star. */
  function Stem(rule: string): string {
    if rule == "" || rule[0] == '*' then "" else [rule[0]] + Stem(rule[1..])
  }

  lemma {:induction false} ScoreIsStem(rule: string, group: string)
    requires '*' !in group
    ensures Score(rule, group) > 0 ==> Score(rule, group) == |Stem(rule)| + 1 && Stem(rule) <= group
    ensures Score(rule, group) > 0 || Score(rule, group) == -1
    decreases |rule|
  {
    if rule != "" && group != "" && rule[0] == group[0] {
      ScoreIsStem(rule[1..], group[1..]);
      assert group == [group[0]] + group[1..];
    }
  }

  /** The score of the best rule, 0 if none matches. */
  function Top(rules: seq<string>, group: string): (t: nat) {
    if rules == [] then 0
    else
      var s, t := Score(rules[0], group), Top(rules[1..], group);
      if s > t then s else t
  }

  lemma {:induction false} TopReached(rules: seq<string>, group: string)
    ensures forall k :: 0 <= k < |rules| ==> Score(rules[k], group) <= Top(rules, group)
    ensures Top(rules, group) > 0 ==> exists k :: 0 <= k < |rules| && Score(rules[k], group) == Top(rules, group)
  {
    if rules != [] {
      TopReached(rules[1..], group);
      assert forall k :: 1 <= k < |rules| ==> rules[k] == rules[1..][k - 1];
      var t := Top(rules, group);
      if t > 0 && t != Score(rules[0], group) {
        var k :| 0 <= k < |rules[1..]| && Score(rules[1..][k], group) == t;
        assert rules[k + 1] == rules[1..][k];
      }
    }
  }

  predicate NoRejects(rules: seq<string>) {
    forall k :: 0 <= k < |rules| ==> !Rejects(rules[k])
  }

  lemma {:induction false} BestOfAccepts(best: (int, bool), rules: seq<string>, group: string)
    requires NoRejects(rules) && best.0 >= 0
    ensures BestFrom(best, rules, group) == if Top(rules, group) > best.0 then (Top(rules, group), false) else best
    decreases rules
  {
    if rules != [] {
      BestOfAccepts(Better(best, rules[0], group), rules[1..], group);
    }
  }

  /** Every rule with an exclamation mark in front. */
  function Negated(rules: seq<string>): seq<string> {
    seq(|rules|, k requires 0 <= k < |rules| => "!" + rules[k])
  }

  lemma {:induction false} BestOfNegated(best: (int, bool), rules: seq<string>, group: string)
    requires best.0 >= 0
    ensures BestFrom(best, Negated(rules), group) ==
      if Top(rules, group) > best.0 then (Top(rules, group), true) else best
    decreases rules
  {
    if rules != [] {
      assert Negated(rules)[0] == "!" + rules[0] && Body("!" + rules[0]) == rules[0];
      assert Negated(rules)[1..] == Negated(rules[1..]);
      BestOfNegated(Better(best, "!" + rules[0], group), rules[1..], group);
    }
  }

  lemma {:induction false} BestFromConcat(best: (int, bool), a: seq<string>, b: seq<string>, group: string)
    ensures BestFrom(best, a + b, group) == BestFrom(BestFrom(best, a, group), b, group)
    decreases a
  {
    if a == [] {
      assert a + b == b;
    } else {
      assert (a + b)[0] == a[0] && (a + b)[1..] == a[1..] + b;
      BestFromConcat(Better(best, a[0], group), a[1..], b, group);
    }
  }

  // ----- ranking the servers -----

  function ReadTop(e: Entry, group: string): nat {
    Top(Split(e.read), group)
  }

  /** Entry i is the best for the group, and the only one with its score. */
  ghost predicate UniqueBest(entries: seq<Entry>, group: string, i: nat) {
    && i < |entries| && ReadTop(entries[i], group) > 0
    && forall k :: 0 <= k < |entries| && k != i ==> ReadTop(entries[k], group) < ReadTop(entries[i], group)
  }

  ghost predicate ReadListsOk(entries: seq<Entry>) {
    && (forall i :: 0 <= i < |entries| ==> CString(entries[i].read) && NoRejects(Split(entries[i].read)))
    && forall i, j :: 0 <= i < |entries| && 0 <= j < |entries| && i != j ==>
         NoSharedStem(Split(entries[i].read), Split(entries[j].read))
  }

  /** No stem in common; an empty list is no rule. */
  ghost predicate NoSharedStem(rules: seq<string>, others: seq<string>) {
    forall r, q :: r in rules && q in others && r != "" && q != "" ==> Stem(r) != Stem(q)
  }

  /** Rules that score the same have the same stem. */
  lemma TieStem(r: string, q: string, group: string)
    requires Name(group) && Score(r, group) == Score(q, group) > 0
    ensures Stem(r) == Stem(q) && r != "" && q != ""
  {
    ScoreIsStem(r, group);
    ScoreIsStem(q, group);
    assert Stem(r) == group[..|Stem(r)|] == Stem(q);
    assert Score("", group) == -1;
  }

  /** Two servers never tie. */
  lemma NoTie(rules: seq<string>, others: seq<string>, group: string)
    requires NoSharedStem(rules, others) && Name(group)
    ensures Top(rules, group) == Top(others, group) ==> Top(rules, group) == 0
  {
    TopReached(rules, group);
    TopReached(others, group);
    if Top(rules, group) == Top(others, group) > 0 {
      var k :| 0 <= k < |rules| && Score(rules[k], group) == Top(rules, group);
      var l :| 0 <= l < |others| && Score(others[l], group) == Top(others, group);
      TieStem(rules[k], others[l], group);
    }
  }

  // ----- the filter of one server -----

  /** The rules of all other servers up to entry n, with exclamation marks. */
  function Others(entries: seq<Entry>, server: nat, n: nat): seq<string>
    requires n <= |entries|
  {
    if n == 0 then []
    else Others(entries, server, n - 1) + if n - 1 == server then [] else Negated(Split(entries[n - 1].read))
  }

  function FilterRules(entries: seq<Entry>, server: nat): seq<string>
    requires server < |entries|
  {
    Split(entries[server].read) + Others(entries, server, |entries|)
  }

  lemma {:induction false} OthersBest(entries: seq<Entry>, server: nat, n: nat, group: string)
    requires server < |entries| && n <= |entries| && ReadListsOk(entries)
    ensures var t := ReadTop(entries[server], group);
      var b := BestFrom((t, false), Others(entries, server, n), group);
      && b.0 >= t
      && (b == (t, false) <==> forall k :: 0 <= k < n && k != server ==> ReadTop(entries[k], group) <= t)
      && (b != (t, false) ==> b.1)
    decreases n
  {
    hide Split, ReadTop, NoSharedStem, BestFrom, Negated;
    var t := ReadTop(entries[server], group);
    if n == 0 {
      BestOfNone((t, false), group);
    } else {
      OthersBest(entries, server, n - 1, group);
      OthersNext(entries, server, n, group);
    }
  }

  lemma BestOfNone(best: (int, bool), group: string)
    ensures BestFrom(best, [], group) == best
  {
  }

  /** What one more entry does to the best. */
  lemma OthersNext(entries: seq<Entry>, server: nat, n: nat, group: string)
    requires server < |entries| && 0 < n <= |entries|
    requires BestFrom((ReadTop(entries[server], group), false), Others(entries, server, n - 1), group).0 >= 0
    ensures var t := ReadTop(entries[server], group);
      var b := BestFrom((t, false), Others(entries, server, n - 1), group);
      BestFrom((t, false), Others(entries, server, n), group)
      == if n - 1 != server && ReadTop(entries[n - 1], group) > b.0 then (ReadTop(entries[n - 1], group), true) else b
  {
    hide Split, Top, BestFrom, Negated;
    var t := ReadTop(entries[server], group);
    if n - 1 == server {
      assert Others(entries, server, n) == Others(entries, server, n - 1);
    } else {
      var rules := Split(entries[n - 1].read);
      var b := BestFrom((t, false), Others(entries, server, n - 1), group);
      BestFromConcat((t, false), Others(entries, server, n - 1), Negated(rules), group);
      BestOfNegated(b, rules, group);
    }
  }

  /** The filter made for a server accepts exactly the groups for which that server is the
      unique best match. */
  lemma FilterIsServer(entries: seq<Entry>, server: nat, group: string)
    requires server < |entries| && ReadListsOk(entries) && Name(group)
    ensures Verdict(FilterRules(entries, server), group) > 0 <==> UniqueBest(entries, group, server)
  {
    hide Split, NoSharedStem, Top;
    var rules, t := Split(entries[server].read), ReadTop(entries[server], group);
    BestFromConcat((0, false), rules, Others(entries, server, |entries|), group);
    BestOfAccepts((0, false), rules, group);
    OthersBest(entries, server, |entries|, group);
    forall k | 0 <= k < |entries| && k != server
      ensures ReadTop(entries[k], group) == t ==> t == 0
    {
      NoTie(Split(entries[k].read), rules, group);
    }
  }

  /** The per-server filters partition the groups that any server matches. */
  lemma FiltersPartition(entries: seq<Entry>, group: string)
    requires ReadListsOk(entries) && Name(group)
    ensures forall i, j :: 0 <= i < j < |entries| ==>
      !(Verdict(FilterRules(entries, i), group) > 0 && Verdict(FilterRules(entries, j), group) > 0)
    ensures (exists k :: 0 <= k < |entries| && ReadTop(entries[k], group) > 0) ==>
      exists i :: 0 <= i < |entries| && Verdict(FilterRules(entries, i), group) > 0
  {
    hide FilterRules, Verdict, NoSharedStem, Top, Split;
    forall i | 0 <= i < |entries|
      ensures Verdict(FilterRules(entries, i), group) > 0 <==> UniqueBest(entries, group, i)
    {
      FilterIsServer(entries, i, group);
    }
    if k :| 0 <= k < |entries| && ReadTop(entries[k], group) > 0 {
      var i := Leader(entries, group, |entries|);
      assert UniqueBest(entries, group, i);
    }
  }

  /** Among the first n entries one is ahead of all others, if any matches. */
  lemma {:induction false} Leader(entries: seq<Entry>, group: string, n: nat) returns (i: nat)
    requires ReadListsOk(entries) && Name(group) && 0 < n <= |entries|
    ensures i < n
    ensures forall k :: 0 <= k < n && k != i && ReadTop(entries[i], group) > 0 ==>
      ReadTop(entries[k], group) < ReadTop(entries[i], group)
    ensures forall k :: 0 <= k < n ==> ReadTop(entries[k], group) <= ReadTop(entries[i], group)
  {
    hide NoSharedStem, Top, Split;
    if n == 1 {
      i := 0;
    } else {
      i := Leader(entries, group, n - 1);
      NoTie(Split(entries[i].read), Split(entries[n - 1].read), group);
      if ReadTop(entries[n - 1], group) > ReadTop(entries[i], group) {
        i := n - 1;
      }
    }
  }

  // ----- the methods -----

  lemma {:induction false} SplitConcat(a: string, b: string)
    ensures Split(a + "," + b) == Split(a) + Split(b)
    decreases |a|
  {
    hide Comma, Split;
    var k := Comma(a);
    SplitStep(a);
    SplitFirst(a, b);
    if k < |a| {
      SplitConcat(a[k + 1..], b);
      assert [a[..k]] + (Split(a[k + 1..]) + Split(b)) == [a[..k]] + Split(a[k + 1..]) + Split(b);
    }
  }

  lemma SplitFirst(a: string, b: string)
    ensures var k := Comma(a);
      Split(a + "," + b) == if k == |a| then [a] + Split(b) else [a[..k]] + Split(a[k + 1..] + "," + b)
  {
    hide Comma, Split;
    var s := a + "," + b;
    CommaConcat(a, b);
    SplitStep(s);
    Slices(a, b, Comma(a));
  }

  lemma CommaConcat(a: string, b: string)
    ensures Comma(a + "," + b) == Comma(a)
  {
    hide Comma;
    CommaIs(a + "," + b, Comma(a));
  }

  lemma Slices(a: string, b: string, k: nat)
    requires k <= |a|
    ensures var s := a + "," + b;
      && s[..k] == a[..k]
      && (if k == |a| then s[..k] == a && s[k + 1..] == b else s[k + 1..] == a[k + 1..] + "," + b)
  {
  }

  lemma SplitOne(rule: string)
    requires ',' !in rule
    ensures Split(rule) == [rule]
  {
    hide Comma, Split;
    CommaIs(rule, |rule|);
    SplitStep(rule);
    assert rule[..|rule|] == rule;
  }

  /** One more rule with an exclamation mark. */
  lemma OneMore(filter: string, done: seq<string>, rule: string)
    requires ',' !in rule
    ensures Split(filter + ",!" + rule) == Split(filter) + ["!" + rule]
    ensures Negated(done + [rule]) == Negated(done) + ["!" + rule]
  {
    hide Split;
    SplitConcat(filter, "!" + rule);
    SplitOne("!" + rule);
    assert filter + ",!" + rule == filter + "," + ("!" + rule);
  }

  class MPList {
    var entries: seq<Entry>

    /** makeFilter(servernbr, "*"): the server's own rules, then all others' as reject rules. */
    method MakeFilter(servernbr: nat) returns (filter: string)
      requires servernbr < |entries| && forall i :: 0 <= i < |entries| ==> CString(entries[i].read)
      ensures Split(filter) == FilterRules(entries, servernbr)
    {
      hide Split;
      filter := entries[servernbr].read;
      for i := 0 to |entries|
        invariant Split(filter) == Split(entries[servernbr].read) + Others(entries, servernbr, i)
      {
        if i != servernbr {
          filter := AppendNegated(filter, entries[i].read);
        }
      }
    }

    method AppendNegated(filter0: string, read: string) returns (filter: string)
      requires CString(read)
      ensures Split(filter) == Split(filter0) + Negated(Split(read))
    {
      hide Split;
      filter := filter0;
      var p := 0;
      var more := true;
      ghost var done: seq<string> := [];
      assert read[0..] == read;
      while more
        invariant more ==> p <= |read| && Split(read) == done + Split(read[p..])
        invariant !more ==> Split(read) == done
        invariant Split(filter) == Split(filter0) + Negated(done)
        decreases more, |read| - p
      {
        var q := p;
        while At(read, p) != ',' && At(read, p) != '\0'
          invariant q <= p <= |read| && (forall i :: q <= i < p ==> read[i] != ',')
          decreases |read| - p
        {
          p := p + 1;
        }
        ghost var rule := read[q..p];
        SplitFrom(read, q, p);
        OneMore(filter, done, rule);
        filter := filter + ",!" + read[q..p];
        done := done + [rule];
        more := At(read, p) == ',';
        if more {
          p := p + 1;
        }
      }
    }

    /** The entry whose read list matches the group best. */
    method Server(group: string) returns (r: int)
      requires ListsOk(entries) && CString(group)
      ensures Chosen(entries, group, false, r)
    {
      hide Split, Rank, ScanVerdict;
      var bm, bmlen := -1, 0;
      for i := 0 to |entries|
        invariant -1 <= bm < i && Leading(entries, group, false, i, bm, bmlen)
      {
        var clen := Matchgroup(entries[i].read, group);
        RankIs(entries[i], group);
        if clen > bmlen {
          bm, bmlen := i, clen;
        }
      }
      r := if bm >= 0 && entries[bm].hostname != "" then bm else -1;
    }

    /** The same for the lists of groups that are posted to a server. */
    method Postserver(group: string) returns (r: int)
      requires ListsOk(entries) && CString(group)
      ensures Chosen(entries, group, true, r)
    {
      hide Split, Rank, ScanVerdict;
      var bm, bmlen := -1, 0;
      for i := 0 to |entries|
        invariant -1 <= bm < i && Leading(entries, group, true, i, bm, bmlen)
      {
        var clen := Matchgroup(entries[i].postTo, group);
        RankIs(entries[i], group);
        if clen > bmlen {
          bm, bmlen := i, clen;
        }
      }
      r := if bm >= 0 && entries[bm].hostname != "" then bm else -1;
    }
  }

  predicate ListsOk(entries: seq<Entry>) {
    forall i :: 0 <= i < |entries| ==> CString(entries[i].read) && CString(entries[i].postTo)
  }

  /** How an entry's list judges the group: the length of the rule that decides, negative for a
      reject rule. */
  function Rank(e: Entry, group: string, post: bool): int {
    ScanVerdict(if post then e.postTo else e.read, group)
  }

  lemma RankIs(e: Entry, group: string)
    ensures Rank(e, group, false) == ScanVerdict(e.read, group)
    ensures Rank(e, group, true) == ScanVerdict(e.postTo, group)
  {
    hide ScanVerdict;
  }

  /** Entry b accepts the group by the longest rule, and is the first such entry. */
  ghost predicate FirstBest(entries: seq<Entry>, group: string, post: bool, b: int) {
    && 0 <= b < |entries| && Rank(entries[b], group, post) > 0
    && (forall k :: 0 <= k < |entries| ==> Rank(entries[k], group, post) <= Rank(entries[b], group, post))
    && (forall k :: 0 <= k < b ==> Rank(entries[k], group, post) < Rank(entries[b], group, post))
  }

  /** The result of server() and postserver(): the first best entry, -1 for none or for one that
      stands for no server. */
  ghost predicate Chosen(entries: seq<Entry>, group: string, post: bool, r: int) {
    if r == -1 then forall b :: FirstBest(entries, group, post, b) ==> entries[b].hostname == ""
    else FirstBest(entries, group, post, r) && entries[r].hostname != ""
  }

  /** There is only one such result. */
  lemma ChosenOnce(entries: seq<Entry>, group: string, post: bool, r: int, q: int)
    requires Chosen(entries, group, post, r) && Chosen(entries, group, post, q)
    ensures r == q
  {
    hide Rank;
    if r != -1 && q != -1 {
      assert Rank(entries[r], group, post) == Rank(entries[q], group, post);
    }
  }

  /** The loop's best match among the first n entries. */
  ghost predicate Leading(entries: seq<Entry>, group: string, post: bool, n: nat, bm: int, bmlen: int)
    requires n <= |entries| && -1 <= bm < n
  {
    && (if bm < 0 then bmlen == 0 else bmlen == Rank(entries[bm], group, post) > 0)
    && (forall k :: 0 <= k < n ==> Rank(entries[k], group, post) <= bmlen)
    && (forall k :: 0 <= k < bm ==> Rank(entries[k], group, post) < bmlen)
  }

  lemma RankIsTop(e: Entry, group: string)
    requires CString(e.read) && NoRejects(Split(e.read)) && ',' !in group && CString(group)
    ensures Rank(e, group, false) == ReadTop(e, group)
  {
    hide Split, Top, ScanVerdict;
    ScanIsVerdict(e.read, group);
    BestOfAccepts((0, false), Split(e.read), group);
  }

  /** makeFilter agrees with server(): the filter made for an entry accepts exactly the groups
      that server() would read from that entry. */
  lemma FilterAgreesWithServer(entries: seq<Entry>, server: nat, group: string)
    requires server < |entries| && ReadListsOk(entries) && Name(group)
    ensures Verdict(FilterRules(entries, server), group) > 0 <==> FirstBest(entries, group, false, server)
  {
    hide Split, Verdict, Rank, ReadTop, FilterRules, NoSharedStem, Name;
    FilterIsServer(entries, server, group);
    NameText(group);
    forall k | 0 <= k < |entries|
      ensures Rank(entries[k], group, false) == ReadTop(entries[k], group)
    {
      RankIsTop(entries[k], group);
    }
    forall k | 0 <= k < |entries| && k != server
      ensures ReadTop(entries[k], group) == ReadTop(entries[server], group) ==> ReadTop(entries[k], group) == 0
    {
      TiesAtNone(entries, k, server, group);
    }
  }

  lemma NameText(group: string)
    requires Name(group)
    ensures ',' !in group && CString(group)
  {
  }

  lemma TiesAtNone(entries: seq<Entry>, k: nat, i: nat, group: string)
    requires k < |entries| && i < |entries| && k != i && ReadListsOk(entries) && Name(group)
    ensures ReadTop(entries[k], group) == ReadTop(entries[i], group) ==> ReadTop(entries[k], group) == 0
  {
    hide Split, Top, Name, NoSharedStem;
    NoTie(Split(entries[k].read), Split(entries[i].read), group);
  }
}
