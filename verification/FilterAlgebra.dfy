/** Filters as rule lists on values: what a filter accepts, and the rule lists that
    NewsgroupFilter's operator&= and operator|= build out of two of them. */
module FilterAlgebra {

  /** [!]stem* */
  datatype Rule = Rule(neg: bool, stem: string)

  ghost predicate Distinct(fs: seq<Rule>) {
    forall i, j :: 0 <= i < j < |fs| ==> fs[i].stem != fs[j].stem
  }

  /** r is the longest rule whose stem starts x. */
  predicate IsBest(fs: seq<Rule>, x: string, r: Rule) {
    r in fs && r.stem <= x && forall q :: q in fs && q.stem <= x ==> |q.stem| <= |r.stem|
  }

  /** The longest matching rule decides; a group no rule matches is not accepted. */
  ghost predicate Accepts(fs: seq<Rule>, x: string) {
    exists r :: IsBest(fs, x, r) && !r.neg
  }

  predicate NoRule(fs: seq<Rule>, x: string) {
    forall q :: q in fs ==> !(q.stem <= x)
  }

  lemma {:induction false} BestExists(fs: seq<Rule>, x: string) returns (r: Rule)
    requires !NoRule(fs, x)
    ensures IsBest(fs, x, r)
  {
    if NoRule(fs[1..], x) {
      r := fs[0];
    } else {
      r := BestExists(fs[1..], x);
      if fs[0].stem <= x && |fs[0].stem| > |r.stem| {
        r := fs[0];
      }
    }
  }

  lemma SameStem(fs: seq<Rule>, p: Rule, q: Rule)
    requires Distinct(fs) && p in fs && q in fs && p.stem == q.stem
    ensures p == q
  {
  }

  /** The best rule for a group is unique, and decides. */
  lemma BestDecides(fs: seq<Rule>, x: string, r: Rule)
    requires Distinct(fs) && IsBest(fs, x, r)
    ensures Accepts(fs, x) <==> !r.neg
    ensures forall q :: IsBest(fs, x, q) ==> q == r
  {
    forall q | IsBest(fs, x, q)
      ensures q == r
    {
      assert |q.stem| == |r.stem| && q.stem == x[..|q.stem|] == r.stem;
      SameStem(fs, q, r);
    }
  }

  lemma NoRuleRejects(fs: seq<Rule>, x: string)
    requires NoRule(fs, x)
    ensures !Accepts(fs, x)
  {
  }

  /** Two prefixes of one group: the shorter starts the longer. */
  lemma Prefixes(a: string, b: string, x: string)
    requires a <= x && b <= x && |a| <= |b|
    ensures a <= b
  {
    assert a == x[..|a|] && b == x[..|b|];
  }

  /** The best rule for x is also the best for a stem between them. */
  lemma BestShorter(fs: seq<Rule>, x: string, t: string, r: Rule)
    requires IsBest(fs, x, r) && t <= x && |r.stem| <= |t|
    ensures IsBest(fs, t, r)
  {
    Prefixes(r.stem, t, x);
    forall q | q in fs && q.stem <= t
      ensures |q.stem| <= |r.stem|
    {
      assert q.stem <= x;
    }
  }

  /** If the best rule for x is no longer than t, and t starts x, it is the best for t. */
  lemma AcceptsBetween(fs: seq<Rule>, x: string, t: string, r: Rule)
    requires Distinct(fs) && IsBest(fs, x, r) && t <= x && |r.stem| <= |t|
    ensures Accepts(fs, t) <==> !r.neg
  {
    BestShorter(fs, x, t, r);
    BestDecides(fs, t, r);
  }

  // ----- the combined rule lists -----

  datatype Op = And | Or

  /** Rules of the left filter that are copied: for &= the reject rules and what the right one
      accepts, for |= the accept rules and what the right one does not accept. */
  ghost predicate KeepsLeft(op: Op, r: Rule, right: seq<Rule>) {
    if op == And then r.neg || Accepts(right, r.stem) else !r.neg || !Accepts(right, r.stem)
  }

  ghost predicate KeepsRight(op: Op, r: Rule, left: seq<Rule>) {
    if op == And then Accepts(left, r.stem) else !Accepts(left, r.stem)
  }

  /** Appends a rule unless it is there already. */
  function AddRule(fs: seq<Rule>, r: Rule): seq<Rule> {
    if r in fs then fs else fs + [r]
  }

  ghost function AddLeft(op: Op, fs: seq<Rule>, rs: seq<Rule>, right: seq<Rule>): (ks: seq<Rule>)
    ensures forall r :: r in ks <==> r in fs || (r in rs && KeepsLeft(op, r, right))
    decreases rs
  {
    if rs == [] then fs
    else AddLeft(op, if KeepsLeft(op, rs[0], right) then AddRule(fs, rs[0]) else fs, rs[1..], right)
  }

  ghost function AddRight(op: Op, fs: seq<Rule>, rs: seq<Rule>, left: seq<Rule>): (ks: seq<Rule>)
    ensures forall r :: r in ks <==> r in fs || (r in rs && KeepsRight(op, r, left))
    decreases rs
  {
    if rs == [] then fs
    else AddRight(op, if KeepsRight(op, rs[0], left) then AddRule(fs, rs[0]) else fs, rs[1..], left)
  }

  /** The rule list of f op= g. */
  ghost function Combine(op: Op, f: seq<Rule>, g: seq<Rule>): (h: seq<Rule>)
    ensures forall r :: r in h <==> (r in f && KeepsLeft(op, r, g)) || (r in g && KeepsRight(op, r, f))
  {
    AddRight(op, AddLeft(op, [], f, g), g, f)
  }

  // ----- the result is again a filter with distinct stems -----

  ghost predicate NoDup(fs: seq<Rule>) {
    forall i, j :: 0 <= i < j < |fs| ==> fs[i] != fs[j]
  }

  lemma {:induction false} AddLeftNoDup(op: Op, fs: seq<Rule>, rs: seq<Rule>, right: seq<Rule>)
    requires NoDup(fs)
    ensures NoDup(AddLeft(op, fs, rs, right))
    decreases rs
  {
    hide KeepsLeft;
    if rs != [] {
      AddLeftNoDup(op, if KeepsLeft(op, rs[0], right) then AddRule(fs, rs[0]) else fs, rs[1..], right);
    }
  }

  lemma {:induction false} AddRightNoDup(op: Op, fs: seq<Rule>, rs: seq<Rule>, left: seq<Rule>)
    requires NoDup(fs)
    ensures NoDup(AddRight(op, fs, rs, left))
    decreases rs
  {
    hide KeepsRight;
    if rs != [] {
      AddRightNoDup(op, if KeepsRight(op, rs[0], left) then AddRule(fs, rs[0]) else fs, rs[1..], left);
    }
  }

  /** A rule of a filter decides for its own stem. */
  lemma OwnStem(fs: seq<Rule>, r: Rule)
    requires Distinct(fs) && r in fs
    ensures Accepts(fs, r.stem) <==> !r.neg
  {
    assert IsBest(fs, r.stem, r);
    BestDecides(fs, r.stem, r);
  }

  lemma CombineStem(op: Op, f: seq<Rule>, g: seq<Rule>, p: Rule, q: Rule)
    requires Distinct(f) && Distinct(g) && p.stem == q.stem
    requires p in Combine(op, f, g) && q in Combine(op, f, g)
    ensures p == q
  {
    hide Accepts, Combine;
    if p in f && q in f {
      SameStem(f, p, q);
    } else if p in g && q in g {
      SameStem(g, p, q);
    } else {
      OwnStem(f, if p in f then p else q);
      OwnStem(g, if p in f then q else p);
    }
  }

  lemma CombineDistinct(op: Op, f: seq<Rule>, g: seq<Rule>)
    requires Distinct(f) && Distinct(g)
    ensures Distinct(Combine(op, f, g))
  {
    AddLeftNoDup(op, [], f, g);
    AddRightNoDup(op, AddLeft(op, [], f, g), g, f);
    hide KeepsLeft, KeepsRight;
    var h := Combine(op, f, g);
    forall i, j | 0 <= i < j < |h|
      ensures h[i].stem != h[j].stem
    {
      if h[i].stem == h[j].stem {
        CombineStem(op, f, g, h[i], h[j]);
      }
    }
  }

  // ----- &= is conjunction -----

  /** An accept rule of f &= g has a stem that both accept. */
  lemma AndRule(f: seq<Rule>, g: seq<Rule>, r: Rule)
    requires Distinct(f) && Distinct(g) && r in Combine(And, f, g) && !r.neg
    ensures Accepts(f, r.stem) && Accepts(g, r.stem)
  {
    hide Accepts, Combine;
    if r in f {
      OwnStem(f, r);
    }
    if r in g {
      OwnStem(g, r);
    }
  }

  /** What a filter accepts is matched by one of its rules, also as the start of a longer group. */
  lemma AcceptsMatches(fs: seq<Rule>, t: string, x: string)
    requires Accepts(fs, t) && t <= x
    ensures !NoRule(fs, x)
  {
    var r :| IsBest(fs, t, r) && !r.neg;
    assert r.stem <= x;
  }

  lemma AndSoundLeft(f: seq<Rule>, g: seq<Rule>, x: string, r: Rule)
    requires Distinct(f) && Distinct(g) && IsBest(Combine(And, f, g), x, r) && !r.neg
    ensures Accepts(f, x)
  {
    hide Accepts, Combine;
    AndRule(f, g, r);
    AcceptsMatches(f, r.stem, x);
    var s := BestExists(f, x);
    BestDecides(f, x, s);
    if s.neg {
      AcceptsBetween(f, x, r.stem, s);
    }
  }

  lemma AndSoundRight(f: seq<Rule>, g: seq<Rule>, x: string, r: Rule)
    requires Distinct(f) && Distinct(g) && IsBest(Combine(And, f, g), x, r) && !r.neg
    ensures Accepts(g, x)
  {
    hide Accepts, Combine;
    AndRule(f, g, r);
    AcceptsMatches(g, r.stem, x);
    var s := BestExists(g, x);
    BestDecides(g, x, s);
    if s.neg {
      if |s.stem| <= |r.stem| {
        AcceptsBetween(g, x, r.stem, s);
      } else {
        // s was dropped, so f has a reject rule between r and s, which was kept
        Prefixes(r.stem, s.stem, x);
        AcceptsMatches(f, r.stem, s.stem);
        var b := BestExists(f, s.stem);
        BestDecides(f, s.stem, b);
        AcceptsBetween(f, s.stem, r.stem, b);
      }
    }
  }

  lemma AndComplete(f: seq<Rule>, g: seq<Rule>, x: string, r: Rule, s: Rule)
    requires Distinct(f) && Distinct(g) && IsBest(f, x, r) && !r.neg && IsBest(g, x, s) && !s.neg
    ensures Accepts(Combine(And, f, g), x)
  {
    hide Combine;
    if |s.stem| <= |r.stem| {
      AcceptsBetween(g, x, r.stem, s);
      assert IsBest(Combine(And, f, g), x, r);
    } else {
      AcceptsBetween(f, x, s.stem, r);
      assert IsBest(Combine(And, f, g), x, s);
    }
  }

  lemma AndIsConjunction(f: seq<Rule>, g: seq<Rule>, x: string)
    requires Distinct(f) && Distinct(g)
    ensures Accepts(Combine(And, f, g), x) <==> Accepts(f, x) && Accepts(g, x)
  {
    hide Combine;
    if Accepts(Combine(And, f, g), x) {
      var r :| IsBest(Combine(And, f, g), x, r) && !r.neg;
      AndSoundLeft(f, g, x, r);
      AndSoundRight(f, g, x, r);
    }
    if Accepts(f, x) && Accepts(g, x) {
      var r :| IsBest(f, x, r) && !r.neg;
      var s :| IsBest(g, x, s) && !s.neg;
      AndComplete(f, g, x, r, s);
    }
  }

  // ----- |= is disjunction -----

  lemma OrSoundLeft(f: seq<Rule>, g: seq<Rule>, x: string, r: Rule)
    requires Distinct(f) && Distinct(g) && IsBest(Combine(Or, f, g), x, r) && !r.neg && r in f
    ensures Accepts(f, x) || Accepts(g, x)
  {
    hide Accepts, Combine;
    var s := BestExists(f, x);
    BestDecides(f, x, s);
    OwnStem(f, r);
    if s.neg {
      // s is longer than r, so it was dropped: g accepts its stem
      if |s.stem| <= |r.stem| {
        AcceptsBetween(f, x, r.stem, s);
      }
      assert Accepts(g, s.stem);
      AcceptsMatches(g, s.stem, x);
      var t := BestExists(g, x);
      BestDecides(g, x, t);
      if t.neg {
        if |t.stem| <= |s.stem| {
          AcceptsBetween(g, x, s.stem, t);
        } else {
          AcceptsBetween(f, x, t.stem, s);
        }
      }
    }
  }

  lemma OrSoundRight(f: seq<Rule>, g: seq<Rule>, x: string, r: Rule)
    requires Distinct(f) && Distinct(g) && IsBest(Combine(Or, f, g), x, r) && !r.neg && r in g
    requires KeepsRight(Or, r, f)
    ensures Accepts(g, x)
  {
    hide Accepts, Combine;
    var t := BestExists(g, x);
    BestDecides(g, x, t);
    OwnStem(g, r);
    if t.neg {
      if |t.stem| <= |r.stem| {
        AcceptsBetween(g, x, r.stem, t);
      } else {
        // t was dropped: f accepts its stem by a rule that was kept
        assert Accepts(f, t.stem);
        Prefixes(r.stem, t.stem, x);
        AcceptsMatches(f, t.stem, t.stem);
        var b := BestExists(f, t.stem);
        BestDecides(f, t.stem, b);
        AcceptsBetween(f, t.stem, r.stem, b);
      }
    }
  }

  lemma OrCompleteLeft(f: seq<Rule>, g: seq<Rule>, x: string, r: Rule)
    requires Distinct(f) && Distinct(g) && IsBest(f, x, r) && !r.neg
    ensures Accepts(Combine(Or, f, g), x)
  {
    hide Combine;
    var h := Combine(Or, f, g);
    forall q | q in h && q.stem <= x
      ensures |q.stem| <= |r.stem|
    {
      if |q.stem| > |r.stem| {
        AcceptsBetween(f, x, q.stem, r);
      }
    }
    assert IsBest(h, x, r);
  }

  lemma OrCompleteRight(f: seq<Rule>, g: seq<Rule>, x: string, s: Rule)
    requires Distinct(f) && Distinct(g) && IsBest(g, x, s) && !s.neg
    ensures Accepts(Combine(Or, f, g), x)
  {
    hide Accepts, Combine;
    var h := Combine(Or, f, g);
    if Accepts(f, s.stem) {
      AcceptsMatches(f, s.stem, s.stem);
      var b := BestExists(f, s.stem);
      BestDecides(f, s.stem, b);
      assert b in h;
      OrTop(f, g, x, s, b);
    } else {
      assert s in h;
      OrTop(f, g, x, s, s);
    }
  }

  /** w is an accept rule of the result at least as strong as any rule below s. */
  lemma OrTop(f: seq<Rule>, g: seq<Rule>, x: string, s: Rule, w: Rule)
    requires Distinct(f) && Distinct(g) && IsBest(g, x, s) && !s.neg
    requires w in Combine(Or, f, g) && !w.neg
    requires (w == s && !Accepts(f, s.stem)) || IsBest(f, s.stem, w)
    ensures Accepts(Combine(Or, f, g), x)
  {
    hide Accepts, Combine;
    var h := Combine(Or, f, g);
    CombineDistinct(Or, f, g);
    var m := BestExists(h, x);
    BestDecides(h, x, m);
    if m.neg {
      if m in f && KeepsLeft(Or, m, g) {
        if |s.stem| <= |m.stem| {
          AcceptsBetween(g, x, m.stem, s);
        } else {
          Prefixes(m.stem, s.stem, x);
          Prefixes(m.stem, w.stem, s.stem);
          if w in f {
            SameStem(f, m, w);
          }
        }
      } else {
        if m.stem == s.stem {
          SameStem(g, m, s);
        }
        Prefixes(m.stem, s.stem, x);
        if w != s {
          AcceptsBetween(f, s.stem, m.stem, w);
        }
      }
    }
  }

  lemma OrIsDisjunction(f: seq<Rule>, g: seq<Rule>, x: string)
    requires Distinct(f) && Distinct(g)
    ensures Accepts(Combine(Or, f, g), x) <==> Accepts(f, x) || Accepts(g, x)
  {
    hide Combine;
    if Accepts(Combine(Or, f, g), x) {
      var r :| IsBest(Combine(Or, f, g), x, r) && !r.neg;
      if r in f {
        OrSoundLeft(f, g, x, r);
      } else {
        OrSoundRight(f, g, x, r);
      }
    }
    if Accepts(f, x) {
      var r :| IsBest(f, x, r) && !r.neg;
      OrCompleteLeft(f, g, x, r);
    }
    if Accepts(g, x) {
      var s :| IsBest(g, x, s) && !s.neg;
      OrCompleteRight(f, g, x, s);
    }
  }
}
