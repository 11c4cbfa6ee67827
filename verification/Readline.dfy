/** Reading lines and texts from a stream: NServer-0.9.1/readline.cc. */
module Readline {
  import opened Bytes

  const NL: byte := 10
  const CR: byte := 13
  const DOT: seq<byte> := [46]
  const CRLF: seq<byte> := [CR, NL]

  /** Where the line ends: at the newline, or the end of the stream. */
  function LineEnd(s: seq<byte>): (e: nat)
    ensures e <= |s| && (e < |s| ==> s[e] == NL) && NL !in s[..e]
  {
    if s == [] || s[0] == NL then 0 else 1 + LineEnd(s[1..])
  }

  lemma {:induction false} LineEndIs(line: seq<byte>, rest: seq<byte>)
    requires NL !in line
    ensures LineEnd(line + [NL] + rest) == |line|
  {
    if line != [] {
      assert (line + [NL] + rest)[1..] == line[1..] + [NL] + rest;
      LineEndIs(line[1..], rest);
    }
  }

  /** nlreadline cuts all trailing carriage returns and newlines. */
  function Strip(s: seq<byte>): (r: seq<byte>)
    ensures |r| <= |s| && r == s[..|r|]
    ensures r != [] ==> r[|r| - 1] != CR && r[|r| - 1] != NL
    ensures forall k :: |r| <= k < |s| ==> s[k] == CR || s[k] == NL
  {
    if s != [] && (s[|s| - 1] == CR || s[|s| - 1] == NL) then Strip(s[..|s| - 1]) else s
  }

  lemma StripCr(line: seq<byte>)
    requires line != [] ==> line[|line| - 1] != CR && line[|line| - 1] != NL
    ensures Strip(line + [CR]) == line
  {
    assert (line + [CR])[..|line|] == line;
    assert Strip(line) == line;
  }

  /** readtext with its defaults: lines up to a lone dot. A last line that no newline ends is dropped. */
  function ReadText(s: seq<byte>): seq<byte>
    decreases |s|
  {
    var e := LineEnd(s);
    if e == |s| || Strip(s[..e]) == DOT then []
    else Strip(s[..e]) + CRLF + ReadText(s[e + 1..])
  }

  /** What readtext leaves in the stream. */
  function Behind(s: seq<byte>): seq<byte>
    decreases |s|
  {
    var e := LineEnd(s);
    if e == |s| then [] else if Strip(s[..e]) == DOT then s[e + 1..] else Behind(s[e + 1..])
  }

  /** Lines ended by exactly one CR and the newline, none of them a lone dot. */
  predicate Normal(s: seq<byte>)
    decreases |s|
  {
    s == [] ||
    var e := LineEnd(s);
    e < |s| && s[..e] == Strip(s[..e]) + [CR] && Strip(s[..e]) != DOT && Normal(s[e + 1..])
  }

  /** The first line of a text that reads back. */
  lemma LineOf(line: seq<byte>, rest: seq<byte>)
    requires NL !in line + [CR]
    ensures var s := line + CRLF + rest;
      LineEnd(s) == |line| + 1 && s[..|line| + 1] == line + [CR] && s[|line| + 2..] == rest
  {
    hide LineEnd;
    assert line + CRLF + rest == (line + [CR]) + [NL] + rest;
    LineEndIs(line + [CR], rest);
  }

  lemma LineWhole(s: seq<byte>, e: nat, line: seq<byte>)
    requires e < |s| && s[e] == NL && s[..e] == line + [CR]
    ensures s == line + CRLF + s[e + 1..]
  {
    assert line + CRLF == (line + [CR]) + [NL];
    assert s == s[..e] + [NL] + s[e + 1..];
  }

  lemma LineBack(s: seq<byte>, line: seq<byte>, rest: seq<byte>)
    requires LineEnd(s) < |s| && line == Strip(s[..LineEnd(s)])
    ensures s == line + CRLF + rest <==> s[..LineEnd(s)] == line + [CR] && s[LineEnd(s) + 1..] == rest
  {
    hide Strip, LineEnd;
    NoNewline(s[..LineEnd(s)], line);
    LineOf(line, rest);
    if s[..LineEnd(s)] == line + [CR] {
      LineWhole(s, LineEnd(s), line);
    }
  }

  /** Exactly the normal texts read back as they were written. */
  lemma {:induction false} ReadsBack(s: seq<byte>)
    ensures ReadText(s) == s <==> Normal(s)
    decreases |s|
  {
    hide Strip, LineEnd;
    var e := LineEnd(s);
    if s != [] && e < |s| && Strip(s[..e]) != DOT {
      ReadsBack(s[e + 1..]);
      LineBack(s, Strip(s[..e]), ReadText(s[e + 1..]));
    }
  }

  lemma NoNewline(s: seq<byte>, line: seq<byte>)
    requires NL !in s && |line| <= |s| && line == s[..|line|]
    ensures NL !in line + [CR]
  {
    assert forall x :: x in line ==> x in s;
  }

  lemma NormalLine(line: seq<byte>, rest: seq<byte>)
    requires NL !in line && (line != [] ==> line[|line| - 1] != CR) && line != DOT && Normal(rest)
    ensures Normal(line + CRLF + rest)
  {
    hide Strip, LineEnd;
    var t := line + CRLF + rest;
    NoNewline(line, line);
    assert t == (line + [CR]) + [NL] + rest;
    LineEndIs(line + [CR], rest);
    StripCr(line);
    assert t[..|line| + 1] == line + [CR] && t[|line| + 2..] == rest;
  }

  /** What was read is in normal form, whatever the stream held. */
  lemma {:induction false} ReadIsNormal(s: seq<byte>)
    ensures Normal(ReadText(s))
    decreases |s|
  {
    hide Strip, LineEnd, Normal;
    var e := LineEnd(s);
    if e < |s| && Strip(s[..e]) != DOT {
      ReadIsNormal(s[e + 1..]);
      NoNewline(s[..e], Strip(s[..e]));
      NormalLine(Strip(s[..e]), ReadText(s[e + 1..]));
    } else {
      NormalNone();
    }
  }

  lemma NormalNone()
    ensures Normal([])
  {
  }

  // ----- what a server sends -----

  /** A line and the carriage returns behind it. */
  predicate Sent(line: seq<byte>, crs: seq<byte>) {
    && NL !in line && (line != [] ==> line[|line| - 1] != CR)
    && forall k :: 0 <= k < |crs| ==> crs[k] == CR
  }

  /** Lines as they are sent, each with its own number of carriage returns. */
  function SentText(lines: seq<seq<byte>>, crs: seq<seq<byte>>): seq<byte>
    requires |lines| == |crs|
  {
    if lines == [] then [] else lines[0] + crs[0] + [NL] + SentText(lines[1..], crs[1..])
  }

  lemma {:induction false} StripSent(line: seq<byte>, crs: seq<byte>)
    requires Sent(line, crs)
    ensures Strip(line + crs) == line && NL !in line + crs
  {
    if crs == [] {
      assert line + crs == line;
    } else {
      StripSent(line, crs[..|crs| - 1]);
      assert (line + crs)[..|line + crs| - 1] == line + crs[..|crs| - 1];
    }
  }

  /** One line from the front of the stream. */
  lemma ReadLine(line: seq<byte>, crs: seq<byte>, rest: seq<byte>)
    requires Sent(line, crs)
    ensures var s := line + crs + [NL] + rest;
      && (line == DOT ==> ReadText(s) == [] && Behind(s) == rest)
      && (line != DOT ==> ReadText(s) == line + CRLF + ReadText(rest) && Behind(s) == Behind(rest))
  {
    hide Strip, LineEnd;
    StripSent(line, crs);
    LineEndIs(line + crs, rest);
    var s := line + crs + [NL] + rest;
    assert s[..|line + crs|] == line + crs && s[|line + crs| + 1..] == rest;
  }

  /** The text is the lines before the lone dot, each with one CRLF, and what follows the dot
      stays in the stream. */
  lemma {:induction false} ReadsToDot(lines: seq<seq<byte>>, crs: seq<seq<byte>>, last: seq<byte>, rest: seq<byte>)
    requires |lines| == |crs| && Sent(DOT, last)
    requires forall k :: 0 <= k < |lines| ==> Sent(lines[k], crs[k]) && lines[k] != DOT
    ensures var s := SentText(lines, crs) + DOT + last + [NL] + rest;
      ReadText(s) == SentText(lines, seq(|lines|, _ => [CR])) && Behind(s) == rest
  {
    hide ReadText, Behind, Sent;
    var s := SentText(lines, crs) + DOT + last + [NL] + rest;
    if lines == [] {
      ReadLine(DOT, last, rest);
      assert s == DOT + last + [NL] + rest;
    } else {
      ReadsToDot(lines[1..], crs[1..], last, rest);
      var more := SentText(lines[1..], crs[1..]) + DOT + last + [NL] + rest;
      ReadLine(lines[0], crs[0], more);
      assert s == lines[0] + crs[0] + [NL] + more;
      assert seq(|lines|, _ => [CR])[1..] == seq(|lines| - 1, _ => [CR]);
      assert lines[0] + [CR] + [NL] == lines[0] + CRLF;
    }
  }

  /** Text in normal form comes back as it was sent. */
  lemma {:induction false} DotEnds(text: seq<byte>, rest: seq<byte>)
    requires Normal(text)
    ensures ReadText(text + DOT + CRLF + rest) == text && Behind(text + DOT + CRLF + rest) == rest
    decreases |text|
  {
    hide Strip, LineEnd, ReadText, Behind, Normal;
    if text == [] {
      ReadLine(DOT, [CR], rest);
      assert text + DOT + CRLF + rest == DOT + [CR] + [NL] + rest;
    } else {
      var line, more := NormalFirst(text);
      DotEnds(more, rest);
      ReadLine(line, [CR], more + DOT + CRLF + rest);
      Regroup(line, more, rest);
    }
  }

  lemma NormalFirst(text: seq<byte>) returns (line: seq<byte>, more: seq<byte>)
    requires Normal(text) && text != []
    ensures Sent(line, [CR]) && line != DOT && Normal(more) && |more| < |text| && text == line + CRLF + more
  {
    hide Strip, LineEnd;
    var e := LineEnd(text);
    line, more := Strip(text[..e]), text[e + 1..];
    NoNewline(text[..e], line);
    LineWhole(text, e, line);
  }

  lemma Regroup(line: seq<byte>, more: seq<byte>, rest: seq<byte>)
    ensures (line + CRLF + more) + DOT + CRLF + rest == line + [CR] + [NL] + (more + DOT + CRLF + rest)
  {
  }

  /** An input stream: what is left of it, and whether the last read found its newline. */
  class Stream {
    var rest: seq<byte>
    var good: bool

    constructor (text: seq<byte>)
      ensures rest == text && good
    {
      rest, good := text, true;
    }

    /** getline. */
    method Getline() returns (line: seq<byte>)
      modifies this
      ensures line == old(rest)[..LineEnd(old(rest))]
      ensures good == (old(good) && LineEnd(old(rest)) < |old(rest)|)
      ensures rest == if LineEnd(old(rest)) < |old(rest)| then old(rest)[LineEnd(old(rest)) + 1..] else []
    {
      var e := 0;
      while e < |rest| && rest[e] != NL
        invariant e <= |rest| && rest == old(rest) && good == old(good)
        invariant e + LineEnd(rest[e..]) == LineEnd(rest)
      {
        assert rest[e..][1..] == rest[e + 1..];
        e := e + 1;
      }
      line := rest[..e];
      if e < |rest| {
        rest := rest[e + 1..];
      } else {
        rest, good := [], false;
      }
    }
  }

  method Nlreadline(ins: Stream, keepnl: bool) returns (strg: seq<byte>)
    modifies ins
    ensures var e := LineEnd(old(ins.rest));
      && strg == (if keepnl then Strip(old(ins.rest)[..e]) + CRLF else Strip(old(ins.rest)[..e]))
      && ins.good == (old(ins.good) && e < |old(ins.rest)|)
      && ins.rest == if e < |old(ins.rest)| then old(ins.rest)[e + 1..] else []
  {
    hide LineEnd, Strip;
    var line := ins.Getline();
    var pos := |line|;
    assert line[..pos] == line;
    ghost var good, rest := ins.good, ins.rest;
    while pos > 0
      invariant 0 <= pos <= |line| && Strip(line[..pos]) == Strip(line) && ins.good == good && ins.rest == rest
    {
      StripStep(line, pos);
      if line[pos - 1] != CR && line[pos - 1] != NL {
        break;
      }
      pos := pos - 1;
    }
    assert line[..pos] == Strip(line);
    return if keepnl then line[..pos] + CRLF else line[..pos];
  }

  lemma StripStep(s: seq<byte>, n: nat)
    requires 0 < n <= |s|
    ensures Strip(s[..n]) == if s[n - 1] == CR || s[n - 1] == NL then Strip(s[..n - 1]) else s[..n]
  {
    assert s[..n][..n - 1] == s[..n - 1];
  }

  method Readtext(ins: Stream) returns (strg: seq<byte>)
    requires ins.good
    modifies ins
    ensures strg == ReadText(old(ins.rest)) && ins.rest == Behind(old(ins.rest))
    ensures forall text, rest :: Normal(text) && old(ins.rest) == text + DOT + CRLF + rest ==>
      strg == text && ins.rest == rest
  {
    hide Strip, LineEnd, Normal, ReadText, Behind;
    strg := [];
    while true
      invariant ins.good && strg + ReadText(ins.rest) == ReadText(old(ins.rest))
      invariant Behind(ins.rest) == Behind(old(ins.rest))
      decreases |ins.rest|
    {
      ghost var s := ins.rest;
      var line := Nlreadline(ins, true);
      NextLine(s);
      DotLine(Strip(s[..LineEnd(s)]));
      if line == DOT + CRLF || !ins.good {
        break;
      }
      strg := strg + line;
    }
    assert strg + [] == strg;
    forall text, rest | Normal(text) && old(ins.rest) == text + DOT + CRLF + rest
      ensures strg == text && ins.rest == rest
    {
      DotEnds(text, rest);
    }
  }

  lemma NextLine(s: seq<byte>)
    ensures var e := LineEnd(s);
      && (e == |s| ==> ReadText(s) == [] && Behind(s) == [])
      && (e < |s| && Strip(s[..e]) == DOT ==> ReadText(s) == [] && Behind(s) == s[e + 1..])
      && (e < |s| && Strip(s[..e]) != DOT ==>
            ReadText(s) == Strip(s[..e]) + CRLF + ReadText(s[e + 1..]) && Behind(s) == Behind(s[e + 1..]))
  {
    hide Strip, LineEnd;
  }

  lemma DotLine(line: seq<byte>)
    ensures line + CRLF == DOT + CRLF <==> line == DOT
  {
    assert (line + CRLF)[..|line|] == line;
    assert (DOT + CRLF)[..1] == DOT;
  }
}
