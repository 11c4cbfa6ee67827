/** The article store of a newsgroup as a value: a window of entries, and the files of the spool
    directory. What NServer-0.9.1/NVNewsgroup.cc does to it, and what holds over a run. */
module Spool {
  import opened Bytes
  import opened Readline
  import opened Wrappers

  /** Longer articles go to a file of their own. */
  const LIMIT: nat := 15360

  /** Spilled: the overview record stays, the text is in a file. */
  datatype Entry = Empty | Overview(over: seq<byte>) | Article(text: seq<byte>) | Spilled(over: seq<byte>)

  datatype Store = Store(fst: nat, lst: nat, entries: seq<Entry>, files: map<nat, seq<byte>>)

  predicate Ok(s: Store) {
    |s.entries| == s.lst + 1 - s.fst
  }

  predicate In(s: Store, n: nat) {
    s.fst <= n <= s.lst
  }

  function EntryAt(s: Store, n: nat): Entry
    requires Ok(s)
  {
    if In(s, n) then s.entries[n - s.fst] else Empty
  }

  // ----- the operations -----

  /** fmt: the overview record of an article. */
  function Kept(e: Entry, text: seq<byte>, fmt: seq<byte> -> seq<byte>): Entry {
    if |text| <= LIMIT then Article(text)
    else if e.Overview? || e.Spilled? then Spilled(e.over)
    else Spilled(fmt(text))
  }

  function SetArticle(s: Store, n: nat, text: seq<byte>, fmt: seq<byte> -> seq<byte>): Store
    requires Ok(s)
  {
    if !In(s, n) then s
    else Store(s.fst, s.lst, s.entries[n - s.fst := Kept(s.entries[n - s.fst], text, fmt)],
               if |text| <= LIMIT then s.files else s.files[n := text])
  }

  function SetOver(s: Store, n: nat, over: seq<byte>): Store
    requires Ok(s)
  {
    if In(s, n) && s.entries[n - s.fst].Empty? then s.(entries := s.entries[n - s.fst := Overview(over)]) else s
  }

  function Window(s: Store, f: nat, l: nat): (es: seq<Entry>)
    requires Ok(s) && f <= l + 1
  {
    seq(l + 1 - f, k requires 0 <= k < l + 1 - f => EntryAt(s, f + k))
  }

  predicate Dropped(s: Store, f: nat, l: nat, n: nat)
    requires Ok(s)
  {
    EntryAt(s, n).Spilled? && !(f <= n <= l)
  }

  function SetSize(s: Store, f: nat, l: nat): Store
    requires Ok(s) && f <= l + 1
  {
    Store(f, l, Window(s, f, l), map n | n in s.files && !Dropped(s, f, l, n) :: s.files[n])
  }

  /** The text of an article that is here; None when the news server has to be asked. */
  function Local(s: Store, n: nat): Option<seq<byte>>
    requires Ok(s)
  {
    match EntryAt(s, n)
    case Article(text) => Some(text)
    case Spilled(_) => if n in s.files then Some(ReadText(s.files[n])) else None
    case _ => None
  }

  function GetArticle(s: Store, n: nat, reply: Option<seq<byte>>, fmt: seq<byte> -> seq<byte>): Store
    requires Ok(s)
  {
    if In(s, n) && Local(s, n).None? && reply.Some? then SetArticle(s, n, reply.value, fmt) else s
  }

  // ----- what an operation does to what can be read -----

  /** A stored article reads back, up to the limit always, above it exactly when the text is one
      that readtext leaves as it is. */
  lemma StoreThenRead(s: Store, n: nat, text: seq<byte>, fmt: seq<byte> -> seq<byte>)
    requires Ok(s) && In(s, n)
    ensures Ok(SetArticle(s, n, text, fmt)) && Local(SetArticle(s, n, text, fmt), n).Some?
    ensures Local(SetArticle(s, n, text, fmt), n) == Some(text) <==> |text| <= 15360 || Normal(text)
  {
    hide ReadText, Normal;
    ReadsBack(text);
  }

  /** So does every article the news server sends, whatever its length. */
  lemma FetchThenRead(s: Store, n: nat, stream: seq<byte>, fmt: seq<byte> -> seq<byte>)
    requires Ok(s) && In(s, n)
    ensures Ok(SetArticle(s, n, ReadText(stream), fmt))
    ensures Local(SetArticle(s, n, ReadText(stream), fmt), n) == Some(ReadText(stream))
  {
    hide *;
    ReadIsNormal(stream);
    StoreThenRead(s, n, ReadText(stream), fmt);
  }

  datatype Op =
    | Put(n: nat, text: seq<byte>)
    | Over(n: nat, over: seq<byte>)
    | Size(f: nat, l: nat)
    | Get(n: nat, reply: Option<seq<byte>>)
    | Unlink(n: nat)   // a spill file removed from outside

  predicate Allowed(op: Op) {
    op.Size? ==> op.f <= op.l + 1
  }

  function Step(s: Store, op: Op, fmt: seq<byte> -> seq<byte>): (t: Store)
    requires Ok(s) && Allowed(op)
    ensures Ok(t)
  {
    match op
    case Put(n, text) => SetArticle(s, n, text, fmt)
    case Over(n, over) => SetOver(s, n, over)
    case Size(f, l) => SetSize(s, f, l)
    case Get(n, reply) => GetArticle(s, n, reply, fmt)
    case Unlink(n) => s.(files := s.files - {n})
  }

  /** The operation concerns article n: stores it, drops it from the window, or removes its file. */
  predicate Touches(op: Op, n: nat) {
    match op
    case Put(m, _) => m == n
    case Over(m, _) => false
    case Size(f, l) => !(f <= n <= l)
    case Get(m, _) => false
    case Unlink(m) => m == n
  }

  /** What getover gives: an article that lies here in full has its overview record made anew. */
  function Over(s: Store, n: nat, fmt: seq<byte> -> seq<byte>): seq<byte>
    requires Ok(s)
  {
    match EntryAt(s, n)
    case Empty => []
    case Overview(over) => over
    case Article(text) => fmt(text)
    case Spilled(over) => over
  }

  /** An overview line is kept for a number of the window that has nothing yet. */
  lemma OverThenRead(s: Store, n: nat, over: seq<byte>, fmt: seq<byte> -> seq<byte>)
    requires Ok(s) && In(s, n)
    ensures Ok(SetOver(s, n, over)) && !EntryAt(SetOver(s, n, over), n).Empty?
    ensures Over(SetOver(s, n, over), n, fmt) == if EntryAt(s, n).Empty? then over else Over(s, n, fmt)
  {
  }

  /** The overview record of an article is made from its text, unless a long article finds one from
      the news server, which stays. */
  lemma StoreKeepsOver(s: Store, n: nat, text: seq<byte>, fmt: seq<byte> -> seq<byte>)
    requires Ok(s) && In(s, n)
    ensures Ok(SetArticle(s, n, text, fmt))
    ensures Over(SetArticle(s, n, text, fmt), n, fmt)
         == if |text| > 15360 && (EntryAt(s, n).Overview? || EntryAt(s, n).Spilled?) then Over(s, n, fmt) else fmt(text)
  {
  }

  /** What is done with one number leaves the others as they are, and outside the window it does
      nothing. */
  lemma OthersStay(s: Store, op: Op, fmt: seq<byte> -> seq<byte>, m: nat)
    requires Ok(s) && !op.Size? && op.n != m
    ensures Ok(Step(s, op, fmt)) && EntryAt(Step(s, op, fmt), m) == EntryAt(s, m)
    ensures m in Step(s, op, fmt).files <==> m in s.files
    ensures m in s.files ==> Step(s, op, fmt).files[m] == s.files[m]
    ensures !op.Unlink? && !(s.fst <= op.n <= s.lst) ==> Step(s, op, fmt) == s
    ensures Step(s, op, fmt).fst == s.fst && Step(s, op, fmt).lst == s.lst
  {
    hide ReadText;
  }

  /** An article that can be read stays the same under every operation that does not touch it;
      in particular an overview line never replaces it, nor does fetching it again. */
  lemma ReadStays(s: Store, op: Op, fmt: seq<byte> -> seq<byte>, n: nat)
    requires Ok(s) && Allowed(op) && Local(s, n).Some? && !Touches(op, n)
    ensures Local(Step(s, op, fmt), n) == Local(s, n) && EntryAt(Step(s, op, fmt), n) == EntryAt(s, n)
  {
    hide ReadText;
  }

  /** Numbers outside the old window start empty, and those in both windows keep their entry. */
  lemma SizeKeeps(s: Store, f: nat, l: nat, n: nat)
    requires Ok(s) && f <= l + 1
    ensures Ok(SetSize(s, f, l))
    ensures EntryAt(SetSize(s, f, l), n) == if f <= n <= l then EntryAt(s, n) else Empty
    ensures f <= n <= l ==> Local(SetSize(s, f, l), n) == Local(s, n)
    ensures n in SetSize(s, f, l).files <==> n in s.files && !(EntryAt(s, n).Spilled? && !(f <= n <= l))
  {
    hide ReadText;
  }

  function Run(s: Store, ops: seq<Op>, fmt: seq<byte> -> seq<byte>): (t: Store)
    requires Ok(s) && forall i :: 0 <= i < |ops| ==> Allowed(ops[i])
    ensures Ok(t)
  {
    if ops == [] then s else Step(Run(s, ops[..|ops| - 1], fmt), ops[|ops| - 1], fmt)
  }

  /** How many operations of a run fetched article n from the news server. */
  function Fetches(s: Store, ops: seq<Op>, fmt: seq<byte> -> seq<byte>, n: nat): nat
    requires Ok(s) && forall i :: 0 <= i < |ops| ==> Allowed(ops[i])
  {
    if ops == [] then 0
    else
      var t, op := Run(s, ops[..|ops| - 1], fmt), ops[|ops| - 1];
      Fetches(s, ops[..|ops| - 1], fmt, n)
      + if op.Get? && op.n == n && In(t, n) && Local(t, n).None? && op.reply.Some? then 1 else 0
  }

  /** The operation takes article n away: moves the window past it, or removes its file. */
  predicate Loses(op: Op, n: nat) {
    (op.Size? && !(op.f <= n <= op.l)) || (op.Unlink? && op.n == n)
  }

  /** Once an article can be read, it can be read until an operation takes it away. */
  lemma StaysLocal(s: Store, op: Op, fmt: seq<byte> -> seq<byte>, n: nat)
    requires Ok(s) && Allowed(op) && Local(s, n).Some? && !Loses(op, n)
    ensures Local(Step(s, op, fmt), n).Some?
  {
    hide ReadText, SetOver, SetSize;
    if op.Put? && op.n == n {
      StoreThenRead(s, n, op.text, fmt);
    } else {
      ReadStays(s, op, fmt, n);
    }
  }

  /** While its number stays in the window and its file in the spool directory, an article is
      fetched at most once, whatever else happens to the store, and not at all when it was there
      at the start; setarticle may store it anew at any time. */
  lemma {:induction false} FetchedOnce(s: Store, ops: seq<Op>, fmt: seq<byte> -> seq<byte>, n: nat)
    requires Ok(s) && forall i :: 0 <= i < |ops| ==> Allowed(ops[i]) && !Loses(ops[i], n)
    ensures Fetches(s, ops, fmt, n) <= 1
    ensures Local(s, n).Some? ==> Fetches(s, ops, fmt, n) == 0 && Local(Run(s, ops, fmt), n).Some?
    ensures Fetches(s, ops, fmt, n) == 1 ==> Local(Run(s, ops, fmt), n).Some?
  {
    hide SetArticle, SetOver, SetSize, ReadText, Local;
    if ops != [] {
      var front, op := ops[..|ops| - 1], ops[|ops| - 1];
      FetchedOnce(s, front, fmt, n);
      var t := Run(s, front, fmt);
      if Local(t, n).Some? {
        StaysLocal(t, op, fmt, n);
      } else if op.Get? && op.n == n && In(t, n) && op.reply.Some? {
        StoreThenRead(t, n, op.reply.value, fmt);
      }
    }
  }

  /** A long text that ends in no newline: stored, it reads back as nothing. */
  lemma LongTextLost(s: Store, n: nat, fmt: seq<byte> -> seq<byte>)
    requires Ok(s) && In(s, n)
    ensures var text: seq<byte> := seq(LIMIT + 1, _ => 97);
      Ok(SetArticle(s, n, text, fmt)) && Local(SetArticle(s, n, text, fmt), n) == Some([])
  {
    var text: seq<byte> := seq(LIMIT + 1, _ => 97);
    assert NL !in text;
    assert LineEnd(text) == |text|;
  }
}
