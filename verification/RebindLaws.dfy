/** What the placeholder rewriting keeps and what it loses: it loses no text, a second
    rewriting changes nothing, and it can be undone exactly when no digit touches a placeholder. */
module RebindLaws {
  import opened Rebind

  // ---- The tokens cover the query ----

  lemma {:induction false} LexCoversQuery(q: string)
    ensures Unlex(Lex(q)) == q
    decreases |q|
  {
    if q != "" {
      var n := SegmentLen(q);
      var k := if n > 0 then n else 1;
      LexCoversQuery(q[k..]);
      if n > 0 { LexSegment(q); } else { LexCharacter(q); }
      hide Lex, SegmentLen;
      assert Lex(q)[1..] == Lex(q[k..]);
      assert q == q[..k] + q[k..];
    }
  }

  // ---- Reading the output again ----

  function PlainText(s: string): (ts: seq<Token>)
    ensures |ts| == |s| && forall i | 0 <= i < |s| :: ts[i] == Plain(s[i])
  {
    seq(|s|, i requires 0 <= i < |s| => Plain(s[i]))
  }

  /** The tokens of the output: the same tokens, each placeholder spelled `$k`. */
  function Spelled(ts: seq<Token>, k: nat): seq<Token>
  {
    if ts == [] then []
    else if ts[0].Hole? then [Plain('$')] + PlainText(Itoa(k)) + Spelled(ts[1..], k + 1)
    else [ts[0]] + Spelled(ts[1..], k)
  }

  /** `r` may stand where `rest` stood: same first character, or `$` for `?`. */
  predicate Follows(rest: string, r: string)
  {
    (rest == "" <==> r == "") && (r != "" ==> r[0] == rest[0] || (rest[0] == '?' && r[0] == '$'))
  }

  lemma CutFront(s: string, n: nat, k: nat, r: string)
    requires k <= n <= |s|
    ensures |s[..n] + r| == n + |r| && s[n..] == s[k..][n - k..]
    ensures (s[..n] + r)[k..] == s[k..][..n - k] + r
    ensures forall i | 0 <= i < n :: (s[..n] + r)[i] == s[i]
  {}

  lemma {:induction false} QuotedStable(s: string, quote: char, r: string)
    requires quote == '\'' || quote == '"'
    requires Follows(s[QuotedLen(s, quote)..], r)
    ensures QuotedLen(s[..QuotedLen(s, quote)] + r, quote) == QuotedLen(s, quote)
  {
    hide QuotedLen;
    var n := QuotedLen(s, quote);
    var t := s[..n] + r;
    QuotedUnfold(s, quote);
    QuotedUnfold(t, quote);
    if s == "" {
      assert t == r == "";
    } else if s[0] != quote {
      CutFront(s, n, 1, r);
      QuotedStable(s[1..], quote, r);
    } else if |s| > 1 && s[1] == quote {
      CutFront(s, n, 2, r);
      QuotedStable(s[2..], quote, r);
    } else {
      ShortQuote(s, r);
    }
  }

  lemma ShortQuote(s: string, r: string)
    requires |s| >= 1 && Follows(s[1..], r)
    ensures (s[..1] + r)[0] == s[0] && (|s[..1] + r| > 1 ==> (s[..1] + r)[1] == r[0])
  {}

  lemma {:induction false} LineStable(s: string, r: string)
    requires LineLen(s) == |s| ==> Follows(s[LineLen(s)..], r)
    ensures LineLen(s[..LineLen(s)] + r) == LineLen(s)
  {
    var n := LineLen(s);
    var t := s[..n] + r;
    if s == "" {
      assert t == "";
    } else if s[0] != '\n' {
      CutFront(s, n, 1, r);
      LineStable(s[1..], r);
    }
  }

  lemma {:induction false} BlockStable(s: string, r: string)
    requires BlockLen(s) == |s| ==> Follows(s[BlockLen(s)..], r)
    ensures BlockLen(s[..BlockLen(s)] + r) == BlockLen(s)
  {
    var n := BlockLen(s);
    var t := s[..n] + r;
    if s == "" {
      assert t == "";
    } else if !(s[0] == '*' && |s| > 1 && s[1] == '/') {
      CutFront(s, n, 1, r);
      BlockStable(s[1..], r);
      assert |s| > 1 ==> n > 1;
    }
  }

  /** A protected segment keeps its extent when what follows it is rewritten. */
  lemma SegmentStable(q: string, r: string)
    requires SegmentLen(q) > 0 && Follows(q[SegmentLen(q)..], r)
    ensures SegmentLen(q[..SegmentLen(q)] + r) == SegmentLen(q)
  {
    var n := SegmentLen(q);
    var t := q[..n] + r;
    if q[0] == '\'' || q[0] == '"' {
      CutFront(q, n, 1, r);
      QuotedStable(q[1..], q[0], r);
    } else {
      CutFront(q, n, 2, r);
      assert t[..2] == q[..2];
      if q[..2] == "--" {
        LineStable(q[2..], r);
      } else {
        BlockStable(q[2..], r);
      }
    }
  }

  lemma RenderFollows(q: string, k: nat)
    ensures Follows(q, Render(Lex(q), k))
  {
  }

  lemma PrependPlain(ds: string, ts: seq<Token>)
    requires ds != ""
    ensures PlainText(ds) + ts == [Plain(ds[0])] + (PlainText(ds[1..]) + ts)
  {
    assert PlainText(ds) == [Plain(ds[0])] + PlainText(ds[1..]);
  }

  lemma {:induction false} LexDigits(ds: string, r: string)
    requires AllDigits(ds)
    ensures Lex(ds + r) == PlainText(ds) + Lex(r)
  {
    if ds == "" {
      assert ds + r == r;
    } else {
      var t := ds + r;
      assert IsDigit(ds[0]) && t[0] == ds[0] && t[1..] == ds[1..] + r;
      LexCharacter(t);
      LexDigits(ds[1..], r);
      hide Lex;
      PrependPlain(ds, Lex(r));
    }
  }

  lemma {:induction false} RelexSpelled(q: string, k: nat)
    ensures Lex(Render(Lex(q), k)) == Spelled(Lex(q), k)
    decreases |q|
  {
    if q == "" {
      return;
    }
    var n := SegmentLen(q);
    if n > 0 {
      RelexSpelled(q[n..], k);
      RenderFollows(q[n..], k);
      RelexSegment(q, k);
    } else {
      var k' := if q[0] == '?' then k + 1 else k;
      RelexSpelled(q[1..], k');
      RenderFollows(q[1..], k');
      RelexCharacter(q, k);
    }
  }

  lemma RelexSegment(q: string, k: nat)
    requires SegmentLen(q) > 0
    requires var rest := q[SegmentLen(q)..];
             Follows(rest, Render(Lex(rest), k)) && Lex(Render(Lex(rest), k)) == Spelled(Lex(rest), k)
    ensures Lex(Render(Lex(q), k)) == Spelled(Lex(q), k)
  {
    hide SegmentLen, Lex;
    var n := SegmentLen(q);
    var r := Render(Lex(q[n..]), k);
    LexSegment(q);
    assert Lex(q)[1..] == Lex(q[n..]);
    assert Render(Lex(q), k) == q[..n] + r;
    assert Spelled(Lex(q), k) == [Protected(q[..n])] + Spelled(Lex(q[n..]), k);
    SegmentStable(q, r);
    LexSegment(q[..n] + r);
    assert (q[..n] + r)[..n] == q[..n] && (q[..n] + r)[n..] == r;
  }

  lemma RelexCharacter(q: string, k: nat)
    requires q != "" && SegmentLen(q) == 0
    requires var k' := if q[0] == '?' then k + 1 else k;
             Follows(q[1..], Render(Lex(q[1..]), k')) && Lex(Render(Lex(q[1..]), k')) == Spelled(Lex(q[1..]), k')
    ensures Lex(Render(Lex(q), k)) == Spelled(Lex(q), k)
  {
    hide Lex, Render, Spelled, SegmentLen;
    LexCharacter(q);
    assert Lex(q)[1..] == Lex(q[1..]);
    if q[0] == '?' {
      RelexHole(Lex(q[1..]), k);
    } else {
      RelexPlain(q, Lex(q[1..]), k);
    }
  }

  lemma RelexHole(ts: seq<Token>, k: nat)
    requires Lex(Render(ts, k + 1)) == Spelled(ts, k + 1)
    ensures Lex(Render([Hole] + ts, k)) == Spelled([Hole] + ts, k)
  {
    hide Lex, SegmentLen, Render, Spelled, PlainText, Itoa;
    var r := Render(ts, k + 1);
    OneHole(ts, k);
    LexDollar(Itoa(k) + r);
    LexDigits(Itoa(k), r);
  }

  lemma LexDollar(s: string)
    ensures Lex("$" + s) == [Plain('$')] + Lex(s)
  {
    assert ("$" + s)[1..] == s;
    LexCharacter("$" + s);
  }

  lemma OneHole(ts: seq<Token>, k: nat)
    ensures Render([Hole] + ts, k) == "$" + (Itoa(k) + Render(ts, k + 1))
    ensures Spelled([Hole] + ts, k) == [Plain('$')] + (PlainText(Itoa(k)) + Spelled(ts, k + 1))
  {
    hide Itoa, PlainText;
    assert ([Hole] + ts)[1..] == ts;
    var r := Render(ts, k + 1);
    assert "$" + Itoa(k) + r == "$" + (Itoa(k) + r);
  }

  lemma RelexPlain(q: string, ts: seq<Token>, k: nat)
    requires q != "" && q[0] != '?' && SegmentLen(q) == 0 && Follows(q[1..], Render(ts, k))
    requires Lex(Render(ts, k)) == Spelled(ts, k)
    ensures Lex(Render([Plain(q[0])] + ts, k)) == Spelled([Plain(q[0])] + ts, k)
  {
    hide Lex, SegmentLen;
    var r := Render(ts, k);
    var out := [q[0]] + r;
    assert ([Plain(q[0])] + ts)[1..] == ts;
    assert out[1..] == r;
    StillNoSegment(q, r);
    LexCharacter(out);
  }

  lemma StillNoSegment(q: string, r: string)
    requires q != "" && SegmentLen(q) == 0 && Follows(q[1..], r)
    ensures SegmentLen([q[0]] + r) == 0
  {
    var out := [q[0]] + r;
    assert |out| > 1 ==> out[1] == r[0] && out[..2] == [out[0], out[1]] && q[..2] == [q[0], q[1]];
  }

  lemma {:induction false} NoHolesLeft(ts: seq<Token>, k: nat, j: nat)
    ensures Render(Spelled(ts, k), j) == Unlex(Spelled(ts, k))
  {
    if ts != [] {
      if ts[0].Hole? {
        NoHolesLeft(ts[1..], k + 1, j);
        var ds := [Plain('$')] + PlainText(Itoa(k));
        RenderPrefix(ds, Spelled(ts[1..], k + 1), j);
      } else {
        NoHolesLeft(ts[1..], k, j);
        assert Spelled(ts, k)[1..] == Spelled(ts[1..], k);
      }
    }
  }

  lemma {:induction false} RenderPrefix(ps: seq<Token>, ts: seq<Token>, j: nat)
    requires forall t <- ps :: !t.Hole?
    requires Render(ts, j) == Unlex(ts)
    ensures Render(ps + ts, j) == Unlex(ps + ts)
  {
    if ps == [] {
      assert ps + ts == ts;
    } else {
      assert !ps[0].Hole? && (ps + ts)[1..] == ps[1..] + ts;
      RenderPrefix(ps[1..], ts, j);
    }
  }

  /** Rewriting an already rewritten query changes nothing. */
  lemma RebindIdempotent(q: string)
    ensures Rebound(Rebound(q)) == Rebound(q)
  {
    var r := Rebound(q);
    RelexSpelled(q, 1);
    NoHolesLeft(Lex(q), 1, 1);
    LexCoversQuery(r);
  }

  // ---- Undoing it ----

  predicate PlainDigit(t: Token) { t.Plain? && IsDigit(t.c) }

  /** How many plain digits `ts` starts with. */
  function DigitRun(ts: seq<Token>): (n: nat)
    ensures n <= |ts| && (n < |ts| ==> !PlainDigit(ts[n]))
    ensures forall i | 0 <= i < n :: PlainDigit(ts[i])
  {
    if ts == [] || !PlainDigit(ts[0]) then 0 else 1 + DigitRun(ts[1..])
  }

  datatype Item = Raw(t: Token) | Param(number: nat)

  function Digits(ts: seq<Token>): (s: string)
    requires forall i | 0 <= i < |ts| :: PlainDigit(ts[i])
    ensures |s| == |ts| && AllDigits(s)
    ensures forall i | 0 <= i < |ts| :: ts[i] == Plain(s[i])
  {
    seq(|ts|, i requires 0 <= i < |ts| && PlainDigit(ts[i]) => ts[i].c)
  }

  /** Reads plain `$digits` as numbered parameters. */
  function Collapse(ts: seq<Token>): seq<Item>
    decreases |ts|
  {
    if ts == [] then []
    else
      var d := DigitRun(ts[1..]);
      if ts[0] == Plain('$') && d > 0
      then [Param(Value(Digits(ts[1..][..d])))] + Collapse(ts[1..][d..])
      else [Raw(ts[0])] + Collapse(ts[1..])
  }

  /** The placeholders of `ts` numbered in reading order from `k`. */
  function Numbered(ts: seq<Token>, k: nat): seq<Item>
  {
    if ts == [] then []
    else if ts[0].Hole? then [Param(k)] + Numbered(ts[1..], k + 1)
    else [Raw(ts[0])] + Numbered(ts[1..], k)
  }

  /** Text of items with every parameter written `?`. */
  function ItemText(xs: seq<Item>): string
  {
    if xs == [] then ""
    else (if xs[0].Param? then "?" else SourceText(xs[0].t)) + ItemText(xs[1..])
  }

  function Numbers(xs: seq<Item>): seq<nat>
  {
    if xs == [] then []
    else if xs[0].Param? then [xs[0].number] + Numbers(xs[1..])
    else Numbers(xs[1..])
  }

  function Holes(ts: seq<Token>): nat
  {
    if ts == [] then 0 else (if ts[0].Hole? then 1 else 0) + Holes(ts[1..])
  }

  /** `xs` is `k`, `k + 1`, ..., `n` numbers in all. */
  predicate CountsFrom(xs: seq<nat>, k: nat, n: nat)
  {
    |xs| == n && forall i | 0 <= i < n :: xs[i] == k + i
  }

  /** The inverse rewriting: each plain `$digits` becomes `?`. */
  function Unbound(s: string): string { ItemText(Collapse(Lex(s))) }

  /** No plain digit directly after a placeholder or a plain `$`. */
  predicate Separated(ts: seq<Token>)
  {
    forall i | 1 <= i < |ts| :: PlainDigit(ts[i]) ==> ts[i - 1] != Hole && ts[i - 1] != Plain('$')
  }

  lemma DigitRunSpelled(ts: seq<Token>, k: nat)
    ensures DigitRun(ts) <= |Spelled(ts, k)|
    ensures DigitRun(Spelled(ts, k)) == DigitRun(ts)
    ensures Spelled(ts, k)[DigitRun(ts)..] == Spelled(ts[DigitRun(ts)..], k)
  {
    if ts == [] || !PlainDigit(ts[0]) {
    } else {
      DigitRunSpelled(ts[1..], k);
      assert Spelled(ts, k)[1..] == Spelled(ts[1..], k);
      var d := DigitRun(ts[1..]);
      assert Spelled(ts, k)[1 + d..] == Spelled(ts, k)[1..][d..] && ts[1 + d..] == ts[1..][d..];
    }
  }

  lemma {:induction false} DigitRunAppend(ds: string, ts: seq<Token>)
    requires AllDigits(ds)
    ensures DigitRun(PlainText(ds) + ts) == |ds| + DigitRun(ts)
  {
    var all := PlainText(ds) + ts;
    if ds == "" {
      assert all == ts;
    } else {
      assert IsDigit(ds[0]) && all[0] == Plain(ds[0]) && all[1..] == PlainText(ds[1..]) + ts;
      DigitRunAppend(ds[1..], ts);
    }
  }

  lemma CollapseDollar(tail: seq<Token>, m: nat)
    requires m == DigitRun(tail) > 0
    ensures Collapse([Plain('$')] + tail) == [Param(Value(Digits(tail[..m])))] + Collapse(tail[m..])
  {
    assert ([Plain('$')] + tail)[1..] == tail;
  }

  /** One placeholder and the digits after it, as read back from the output. */
  lemma CollapseHole(ts: seq<Token>, k: nat) returns (v: nat)
    requires ts != [] && ts[0].Hole?
    ensures var d := DigitRun(ts[1..]);
            Collapse(Spelled(ts, k)) == [Param(v)] + Collapse(Spelled(ts[1..][d..], k + 1))
    ensures DigitRun(ts[1..]) == 0 ==> v == k
    ensures DigitRun(ts[1..]) > 0 && k > 0 ==> v > k
  {
    hide Collapse, DigitRun, Itoa, Value, Digits;
    var rest := Spelled(ts[1..], k + 1);
    var tail := PlainText(Itoa(k)) + rest;
    var d := DigitRun(ts[1..]);
    var m := |Itoa(k)| + d;
    SpelledHole(ts, k);
    hide Spelled;
    DigitRunSpelled(ts[1..], k + 1);
    DigitRunAppend(Itoa(k), rest);
    CollapseDollar(tail, m);
    v := Value(Digits(tail[..m]));
    CutNumber(Itoa(k), rest, d);
    ItoaValue(k);
    assert Digits(tail[..m])[..m] == Digits(tail[..m]);
    if d > 0 {
      LongerNumber(Digits(tail[..m]), |Itoa(k)|);
    }
  }

  /** Digits that follow a number make it at least ten times as large. */
  lemma {:induction false} LongerNumber(s: string, n: nat)
    requires AllDigits(s) && n < |s|
    ensures Value(s) >= 10 * Value(s[..n])
    decreases |s|
  {
    var init := s[..|s| - 1];
    if n < |init| {
      LongerNumber(init, n);
      assert init[..n] == s[..n];
    } else {
      assert init == s[..n];
    }
  }

  lemma SpelledHole(ts: seq<Token>, k: nat)
    requires ts != [] && ts[0].Hole?
    ensures Spelled(ts, k) == [Plain('$')] + (PlainText(Itoa(k)) + Spelled(ts[1..], k + 1))
  {}

  lemma CutNumber(ds: string, rest: seq<Token>, d: nat)
    requires AllDigits(ds) && d <= |rest| && forall i | 0 <= i < d :: PlainDigit(rest[i])
    ensures var tail := PlainText(ds) + rest;
            && tail[|ds| + d..] == rest[d..]
            && (forall i | 0 <= i < |ds| + d :: PlainDigit(tail[i]))
            && Digits(tail[..|ds| + d])[..|ds|] == ds
  {
    var tail := PlainText(ds) + rest;
    forall i | 0 <= i < |ds| ensures tail[i] == Plain(ds[i]) && IsDigit(ds[i]) {}
    var all := Digits(tail[..|ds| + d]);
    forall i | 0 <= i < |ds| ensures all[i] == ds[i] {
      assert tail[..|ds| + d][i] == Plain(all[i]);
    }
  }

  lemma CollapseOther(ts: seq<Token>, k: nat) returns (v: nat)
    requires ts != [] && !ts[0].Hole?
    ensures var d := DigitRun(ts[1..]);
            Collapse(Spelled(ts, k)) ==
            if ts[0] == Plain('$') && d > 0
            then [Param(v)] + Collapse(Spelled(ts[1..][d..], k))
            else [Raw(ts[0])] + Collapse(Spelled(ts[1..], k))
  {
    var d := DigitRun(ts[1..]);
    var tail := Spelled(ts[1..], k);
    assert Spelled(ts, k) == [ts[0]] + tail && Spelled(ts, k)[1..] == tail;
    DigitRunSpelled(ts[1..], k);
    v := 0;
    if ts[0] == Plain('$') && d > 0 {
      v := Value(Digits(tail[..d]));
      CollapseDollar(tail, d);
    }
  }

  lemma SeparatedTail(ts: seq<Token>)
    requires ts != []
    ensures Separated(ts) <==> Separated(ts[1..]) && ((ts[0].Hole? || ts[0] == Plain('$')) ==> DigitRun(ts[1..]) == 0)
  {
    var r := ts[1..];
    assert forall i | 1 <= i < |r| :: ts[i + 1] == r[i] && ts[i] == r[i - 1];
    if Separated(ts) {
      forall i | 1 <= i < |r| ensures PlainDigit(r[i]) ==> r[i - 1] != Hole && r[i - 1] != Plain('$') {
        assert ts[i + 1] == r[i] && ts[i] == r[i - 1];
      }
      if r != [] { assert ts[1] == r[0]; }
    } else {
      var i :| 1 <= i < |ts| && PlainDigit(ts[i]) && (ts[i - 1].Hole? || ts[i - 1] == Plain('$'));
      if i > 1 {
        assert r[i - 2] == ts[i - 1] && r[i - 1] == ts[i];
      }
    }
  }

  lemma {:induction false} CollapseSeparated(ts: seq<Token>, k: nat)
    requires Separated(ts)
    ensures Collapse(Spelled(ts, k)) == Numbered(ts, k)
  {
    if ts != [] {
      SeparatedTail(ts);
      assert DigitRun(ts[1..]) == 0 ==> ts[1..][DigitRun(ts[1..])..] == ts[1..];
      if ts[0].Hole? {
        var _ := CollapseHole(ts, k);
        CollapseSeparated(ts[1..], k + 1);
      } else {
        var _ := CollapseOther(ts, k);
        CollapseSeparated(ts[1..], k);
      }
    }
  }

  lemma {:induction false} UnlexDigits(ts: seq<Token>, d: nat)
    requires d <= DigitRun(ts)
    ensures |Unlex(ts)| == d + |Unlex(ts[d..])|
  {
    if d == 0 {
      assert ts[0..] == ts;
    } else {
      assert PlainDigit(ts[0]);
      UnlexDigits(ts[1..], d - 1);
      assert ts[1..][d - 1..] == ts[d..];
    }
  }

  /** Reading back never yields more text, and yields less when a digit touches a placeholder or `$`. */
  lemma {:induction false} CollapseShrinks(ts: seq<Token>, k: nat)
    ensures |ItemText(Collapse(Spelled(ts, k)))| <= |Unlex(ts)|
    ensures !Separated(ts) ==> |ItemText(Collapse(Spelled(ts, k)))| < |Unlex(ts)|
    decreases |ts|
  {
    if ts == [] {
      return;
    }
    var rest := ts[1..];
    var d := DigitRun(rest);
    SeparatedTail(ts);
    UnlexDigits(rest, d);
    var xs := Collapse(Spelled(ts, k));
    if ts[0].Hole? || (ts[0] == Plain('$') && d > 0) {
      var k' := if ts[0].Hole? then k + 1 else k;
      if ts[0].Hole? { var _ := CollapseHole(ts, k); } else { var _ := CollapseOther(ts, k); }
      assert xs[0].Param? && xs[1..] == Collapse(Spelled(rest[d..], k'));
      assert d == 0 ==> rest[d..] == rest;
      CollapseShrinks(rest[d..], k');
    } else {
      var _ := CollapseOther(ts, k);
      assert xs[1..] == Collapse(Spelled(rest, k));
      CollapseShrinks(rest, k);
    }
  }

  lemma {:induction false} NumberedText(ts: seq<Token>, k: nat)
    ensures ItemText(Numbered(ts, k)) == Unlex(ts)
    ensures CountsFrom(Numbers(Numbered(ts, k)), k, Holes(ts))
  {
    if ts != [] {
      if ts[0].Hole? {
        NumberedText(ts[1..], k + 1);
        assert Numbered(ts, k)[1..] == Numbered(ts[1..], k + 1);
      } else {
        NumberedText(ts[1..], k);
        assert Numbered(ts, k)[1..] == Numbered(ts[1..], k);
      }
    }
  }

  /** The rewriting can be undone exactly when no plain digit follows a placeholder or a plain `$`. */
  lemma InvertibleIff(q: string)
    ensures Unbound(Rebound(q)) == q <==> Separated(Lex(q))
  {
    var ts := Lex(q);
    RelexSpelled(q, 1);
    LexCoversQuery(q);
    if Separated(ts) {
      CollapseSeparated(ts, 1);
      NumberedText(ts, 1);
    } else {
      CollapseShrinks(ts, 1);
    }
  }

  lemma {:induction false} HolesAfterDigits(ts: seq<Token>, d: nat)
    requires d <= DigitRun(ts)
    ensures Holes(ts[d..]) == Holes(ts)
  {
    if d == 0 {
      assert ts[0..] == ts;
    } else {
      HolesAfterDigits(ts[1..], d - 1);
      assert ts[1..][d - 1..] == ts[d..];
    }
  }

  /** Every placeholder is read back as a parameter; together they are numbered in order only if no plain digit
      touches a placeholder or `$`. */
  lemma {:induction false} NumberedOnlySeparated(ts: seq<Token>, k: nat)
    requires k > 0
    ensures |Numbers(Collapse(Spelled(ts, k)))| >= Holes(ts)
    ensures CountsFrom(Numbers(Collapse(Spelled(ts, k))), k, Holes(ts)) ==> Separated(ts)
    decreases |ts|
  {
    if ts != [] {
      hide Collapse, Spelled, Separated, Numbers, Holes, DigitRun, CountsFrom;
      var rest := ts[1..];
      var d := DigitRun(rest);
      SeparatedTail(ts);
      HolesAfterDigits(rest, d);
      HolesTail(ts);
      assert d == 0 ==> rest[d..] == rest;
      if ts[0].Hole? {
        var v := CollapseHole(ts, k);
        NumberedOnlySeparated(rest[d..], k + 1);
        FirstNumber(v, Collapse(Spelled(rest[d..], k + 1)), Holes(rest), k);
      } else {
        var v := CollapseOther(ts, k);
        var next := if ts[0] == Plain('$') then rest[d..] else rest;
        NumberedOnlySeparated(next, k);
        NextNumbers(v, ts[0], Collapse(Spelled(next, k)));
        HowMany(Numbers(Collapse(Spelled(ts, k))), k, Holes(ts));
      }
    }
  }

  lemma HowMany(xs: seq<nat>, k: nat, n: nat)
    ensures CountsFrom(xs, k, n) ==> |xs| == n
  {}

  lemma HolesTail(ts: seq<Token>)
    requires ts != []
    ensures Holes(ts) == (if ts[0].Hole? then 1 else 0) + Holes(ts[1..])
  {}

  lemma FirstNumber(v: nat, xs: seq<Item>, n: nat, k: nat)
    ensures Numbers([Param(v)] + xs) == [v] + Numbers(xs)
    ensures CountsFrom(Numbers([Param(v)] + xs), k, n + 1) ==> v == k && CountsFrom(Numbers(xs), k + 1, n)
  {
    hide Numbers;
    ParamFirst(v, xs);
    var all := Numbers([Param(v)] + xs);
    if CountsFrom(all, k, n + 1) {
      assert all[0] == v && all[1..] == Numbers(xs);
    }
  }

  lemma ParamFirst(v: nat, xs: seq<Item>)
    ensures Numbers([Param(v)] + xs) == [v] + Numbers(xs)
  {
    assert ([Param(v)] + xs)[1..] == xs;
  }

  lemma NextNumbers(v: nat, t: Token, xs: seq<Item>)
    ensures Numbers([Param(v)] + xs) == [v] + Numbers(xs) && Numbers([Raw(t)] + xs) == Numbers(xs)
  {
    assert ([Param(v)] + xs)[1..] == xs && ([Raw(t)] + xs)[1..] == xs;
  }

  /** The parameters of the output, read left to right, are 1, 2, ..., number of placeholders, exactly when no plain
      digit follows a placeholder or a plain `$`. */
  lemma NumbersInOrderIff(q: string)
    ensures CountsFrom(Numbers(Collapse(Lex(Rebound(q)))), 1, Holes(Lex(q))) <==> Separated(Lex(q))
  {
    RelexSpelled(q, 1);
    NumberedText(Lex(q), 1);
    NumberedOnlySeparated(Lex(q), 1);
    if Separated(Lex(q)) {
      CollapseSeparated(Lex(q), 1);
    }
  }

  lemma LexOneHoleOneDigit()
    ensures Lex("?1") == [Hole, Plain('1')]
  {
    assert "?1"[1..] == "1" && "1"[1..] == "";
    LexCharacter("?1");
    LexCharacter("1");
  }

  /** A digit directly after a placeholder runs into its number: `?1` becomes `$11`. */
  lemma DigitAfterPlaceholder()
    ensures Rebound("?1") == "$11" && Unbound(Rebound("?1")) != "?1"
  {
    LexOneHoleOneDigit();
    hide Lex, Unbound;
    var ts := [Hole, Plain('1')];
    assert PlainDigit(ts[1]) && ts[1 - 1] == Hole;
    InvertibleIff("?1");
    assert ts[1..] == [Plain('1')] && ts[1..][1..] == [];
    assert Render([Plain('1')], 2) == "1";
    assert Itoa(1) == "1";
  }
}
