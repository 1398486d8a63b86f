/** What the protected segments of a query are, said without the lexer: quoted text with its quotes doubled, and
    comments up to their first end. */
module RebindShapes {
  import opened Rebind

  /** `content` as it is written between quotes. */
  function Doubled(content: string, quote: char): string
  {
    if content == "" then ""
    else (if content[0] == quote then [quote, quote] else [content[0]]) + Doubled(content[1..], quote)
  }

  /** Quoted text is read to its closing quote, whatever it contains. */
  lemma {:induction false} QuotedRead(content: string, quote: char, rest: string)
    requires rest == "" || rest[0] != quote
    ensures QuotedLen(Doubled(content, quote) + ([quote] + rest), quote) == |Doubled(content, quote)| + 1
  {
    var s := Doubled(content, quote) + ([quote] + rest);
    if content != "" {
      QuotedRead(content[1..], quote, rest);
      var head := if content[0] == quote then [quote, quote] else [content[0]];
      var s' := Doubled(content[1..], quote) + ([quote] + rest);
      assert s == head + s' && s[|head|..] == s';
    }
  }

  lemma DoubledCons(c: char, rest: string, quote: char)
    ensures Doubled([c] + rest, quote) == (if c == quote then [quote, quote] else [c]) + Doubled(rest, quote)
  {
    assert ([c] + rest)[1..] == rest;
  }

  /** The first `n` characters are `content` quoted, with its closing quote or up to the end. */
  predicate QuotedTo(s: string, quote: char, n: nat, content: string, closed: bool)
  {
    && n <= |s|
    && s[..n] == Doubled(content, quote) + (if closed then [quote] else "")
    && (if closed then n == |s| || s[n] != quote else n == |s|)
  }

  lemma QuotedFurther(s: string, quote: char, k: nat, n: nat, content: string, closed: bool)
    requires k <= |s| && 0 < k && QuotedTo(s[k..], quote, n, content, closed)
    requires s[..k] == if s[0] == quote then [quote, quote] else [s[0]]
    ensures QuotedTo(s, quote, k + n, [s[0]] + content, closed)
  {
    hide Doubled;
    DoubledCons(s[0], content, quote);
    assert s[..k + n] == s[..k] + s[k..][..n];
  }

  lemma QuotedNow(s: string, quote: char)
    requires s != "" && s[0] == quote && !(|s| > 1 && s[1] == quote)
    ensures QuotedTo(s, quote, 1, "", true)
  {}

  lemma QuotedEnd(quote: char)
    ensures QuotedTo("", quote, 0, "", false)
  {}

  lemma FirstOnes(s: string, quote: char)
    requires s != ""
    ensures s[..1] == [s[0]]
    ensures |s| > 1 && s[0] == quote && s[1] == quote ==> s[..2] == [quote, quote]
  {}

  /** And what is read is quoted text, closed unless the query ends first. */
  lemma {:induction false} QuotedShape(s: string, quote: char) returns (content: string, closed: bool)
    ensures QuotedTo(s, quote, QuotedLen(s, quote), content, closed)
  {
    hide Doubled, QuotedLen, QuotedTo;
    content, closed := "", false;
    QuotedUnfold(s, quote);
    if s == "" {
      QuotedEnd(quote);
    } else if s[0] == quote && !(|s| > 1 && s[1] == quote) {
      closed := true;
      QuotedNow(s, quote);
    } else {
      var k := if s[0] == quote then 2 else 1;
      FirstOnes(s, quote);
      content, closed := QuotedShape(s[k..], quote);
      QuotedFurther(s, quote, k, QuotedLen(s[k..], quote), content, closed);
      content := [s[0]] + content;
    }
  }

  /** A line comment ends at its first line break or at the end of the query. */
  lemma {:induction false} LineShape(s: string)
    ensures forall i | 0 <= i < LineLen(s) - 1 :: s[i] != '\n'
    ensures LineLen(s) == |s| || (LineLen(s) > 0 && s[LineLen(s) - 1] == '\n')
  {
    if s != "" && s[0] != '\n' {
      LineShape(s[1..]);
      forall i | 0 <= i < LineLen(s) - 1 ensures s[i] != '\n' {
        if i > 0 {
          assert s[i] == s[1..][i - 1];
        }
      }
    }
  }

  predicate EndsAt(s: string, i: nat)
  {
    i + 1 < |s| && s[i] == '*' && s[i + 1] == '/'
  }

  /** A block comment ends with its first end mark or at the end of the query. */
  lemma {:induction false} BlockShape(s: string)
    ensures forall i: nat | i + 2 < BlockLen(s) :: !EndsAt(s, i)
    ensures BlockLen(s) == |s| || (BlockLen(s) >= 2 && EndsAt(s, BlockLen(s) - 2))
  {
    if s != "" && !EndsAt(s, 0) {
      BlockShape(s[1..]);
      forall i: nat | i + 2 < BlockLen(s) ensures !EndsAt(s, i) {
        if i > 0 {
          assert !EndsAt(s[1..], i - 1);
        }
      }
    }
  }

  ghost predicate QuotedText(text: string)
  {
    exists quote, content :: (quote == '\'' || quote == '"') && text == [quote] + Doubled(content, quote) + [quote]
  }

  predicate LineCommentText(text: string)
  {
    |text| >= 3 && text[..2] == "--" && text[|text| - 1] == '\n' && forall i | 2 <= i < |text| - 1 :: text[i] != '\n'
  }

  predicate BlockCommentText(text: string)
  {
    |text| >= 4 && text[..2] == "/*" && EndsAt(text, |text| - 2) && forall i | 2 <= i < |text| - 2 :: !EndsAt(text, i)
  }

  ghost predicate Complete(text: string)
  {
    QuotedText(text) || LineCommentText(text) || BlockCommentText(text)
  }

  lemma SegmentShape(q: string)
    requires SegmentLen(q) > 0
    ensures SegmentLen(q) == |q| || Complete(q[..SegmentLen(q)])
  {
    hide QuotedLen, LineLen, BlockLen;
    if q[0] == '\'' || q[0] == '"' {
      QuotedSegment(q);
    } else if |q| > 1 && q[..2] == "--" {
      LineSegment(q);
    } else {
      BlockSegment(q);
    }
  }

  lemma QuotedSegment(q: string)
    requires q != "" && (q[0] == '\'' || q[0] == '"')
    ensures var n := 1 + QuotedLen(q[1..], q[0]); n == |q| || QuotedText(q[..n])
  {
    hide QuotedLen;
    var n := 1 + QuotedLen(q[1..], q[0]);
    var content, closed := QuotedShape(q[1..], q[0]);
    if closed {
      assert q[..n] == [q[0]] + q[1..][..n - 1];
      assert q[..n] == [q[0]] + Doubled(content, q[0]) + [q[0]];
    }
  }

  lemma LineSegment(q: string)
    requires |q| > 1 && q[..2] == "--"
    ensures var n := 2 + LineLen(q[2..]); n == |q| || LineCommentText(q[..n])
  {
    hide LineLen;
    LineShape(q[2..]);
  }

  lemma BlockSegment(q: string)
    requires |q| > 1 && q[..2] == "/*"
    ensures var n := 2 + BlockLen(q[2..]); n == |q| || BlockCommentText(q[..n])
  {
    hide BlockLen;
    BlockShape(q[2..]);
    var n := 2 + BlockLen(q[2..]);
    if n != |q| {
      forall i | 2 <= i < n - 2 ensures !EndsAt(q[..n], i) {
        assert !EndsAt(q[2..], i - 2);
      }
    }
  }

  /** Every protected segment of a query is a whole literal, quoted identifier or comment; only the last token may be
      one that the query cuts off. */
  lemma {:induction false} SegmentsComplete(q: string, i: nat)
    requires i < |Lex(q)| && Lex(q)[i].Protected?
    ensures i == |Lex(q)| - 1 || Complete(Lex(q)[i].text)
    decreases |q|
  {
    hide SegmentLen, Complete;
    var n := SegmentLen(q);
    if n > 0 {
      LexSegment(q);
      SegmentShape(q);
      if i > 0 {
        SegmentsComplete(q[n..], i - 1);
      }
    } else {
      LexCharacter(q);
      SegmentsComplete(q[1..], i - 1);
    }
  }

  // ---- What every piece of a query becomes ----

  /** A piece that is copied: it is one token, and the rest is rewritten as if it stood alone. */
  ghost predicate Copied(text: string, rest: string)
  {
    && Lex(text + rest) == [Protected(text)] + Lex(rest)
    && forall k: nat :: Render(Lex(text + rest), k) == text + Render(Lex(rest), k)
  }

  lemma SegmentCopied(text: string, rest: string)
    requires text != "" && SegmentLen(text + rest) == |text|
    ensures Copied(text, rest)
  {
    hide SegmentLen, Lex;
    var q := text + rest;
    LexSegment(q);
    assert q[..|text|] == text && q[|text|..] == rest;
    assert ([Protected(text)] + Lex(rest))[1..] == Lex(rest);
  }

  /** A quoted literal or identifier, whatever it contains, is copied. */
  lemma QuotedCopied(content: string, quote: char, rest: string)
    requires quote == '\'' || quote == '"'
    requires rest == "" || rest[0] != quote
    ensures Copied([quote] + Doubled(content, quote) + [quote], rest)
  {
    hide QuotedLen, LineLen, BlockLen;
    var text := [quote] + Doubled(content, quote) + [quote];
    QuotedRead(content, quote, rest);
    assert (text + rest)[1..] == Doubled(content, quote) + ([quote] + rest);
    SegmentCopied(text, rest);
  }

  lemma {:induction false} OpenQuotedRead(content: string, quote: char)
    ensures QuotedLen(Doubled(content, quote), quote) == |Doubled(content, quote)|
  {
    if content != "" {
      OpenQuotedRead(content[1..], quote);
      var head := if content[0] == quote then [quote, quote] else [content[0]];
      assert Doubled(content, quote)[|head|..] == Doubled(content[1..], quote);
    }
  }

  /** So is one that the query does not close. */
  lemma OpenQuotedCopied(content: string, quote: char)
    requires quote == '\'' || quote == '"'
    ensures Copied([quote] + Doubled(content, quote), "")
  {
    hide QuotedLen, LineLen, BlockLen;
    var text := [quote] + Doubled(content, quote);
    OpenQuotedRead(content, quote);
    assert (text + "")[1..] == Doubled(content, quote);
    SegmentCopied(text, "");
  }

  lemma {:induction false} LineRead(body: string, rest: string)
    requires forall i | 0 <= i < |body| :: body[i] != '\n'
    ensures LineLen(body + ("\n" + rest)) == |body| + 1 && LineLen(body) == |body|
  {
    if body != "" {
      LineRead(body[1..], rest);
      assert (body + ("\n" + rest))[1..] == body[1..] + ("\n" + rest);
    } else {
      assert body + ("\n" + rest) == "\n" + rest;
    }
  }

  /** A line comment is copied, with its line break or up to the end of the query. */
  lemma LineCommentCopied(body: string, rest: string)
    requires forall i | 0 <= i < |body| :: body[i] != '\n'
    ensures Copied("--" + body + "\n", rest) && Copied("--" + body, "")
  {
    hide QuotedLen, LineLen, BlockLen;
    LineRead(body, rest);
    var text := "--" + body + "\n";
    assert (text + rest)[2..] == body + ("\n" + rest) && (text + rest)[..2] == "--";
    SegmentCopied(text, rest);
    assert ("--" + body + "")[2..] == body && ("--" + body + "")[..2] == "--";
    SegmentCopied("--" + body, "");
  }

  lemma {:induction false} BlockRead(body: string, rest: string)
    requires forall i: nat | i < |body| :: !EndsAt(body + "*/", i)
    ensures BlockLen(body + ("*/" + rest)) == |body| + 2
  {
    var s := body + ("*/" + rest);
    if body == "" {
      assert s == "*/" + rest;
    } else {
      assert !EndsAt(body + "*/", 0);
      forall i: nat | i < |body[1..]| ensures !EndsAt(body[1..] + "*/", i) {
        assert !EndsAt(body + "*/", i + 1);
        assert (body + "*/")[1..] == body[1..] + "*/";
      }
      BlockRead(body[1..], rest);
      assert s[1..] == body[1..] + ("*/" + rest);
      assert s[1] == (body + "*/")[1];
    }
  }

  lemma {:induction false} OpenBlockRead(body: string)
    requires forall i: nat | i < |body| :: !EndsAt(body, i)
    ensures BlockLen(body) == |body|
  {
    if body != "" {
      assert !EndsAt(body, 0);
      forall i: nat | i < |body[1..]| ensures !EndsAt(body[1..], i) {
        assert !EndsAt(body, i + 1);
      }
      OpenBlockRead(body[1..]);
    }
  }

  /** A block comment is copied, with its first end mark or up to the end of the query. */
  lemma BlockCommentCopied(body: string, rest: string)
    ensures (forall i: nat | i < |body| :: !EndsAt(body + "*/", i)) ==> Copied("/*" + body + "*/", rest)
    ensures (forall i: nat | i < |body| :: !EndsAt(body, i)) ==> Copied("/*" + body, "")
  {
    hide QuotedLen, LineLen, BlockLen;
    if forall i: nat | i < |body| :: !EndsAt(body + "*/", i) {
      BlockRead(body, rest);
      var text := "/*" + body + "*/";
      assert (text + rest)[2..] == body + ("*/" + rest) && (text + rest)[..2] == "/*";
      SegmentCopied(text, rest);
    }
    if forall i: nat | i < |body| :: !EndsAt(body, i) {
      OpenBlockRead(body);
      assert ("/*" + body + "")[2..] == body && ("/*" + body + "")[..2] == "/*";
      SegmentCopied("/*" + body, "");
    }
  }

  /** A character begins a protected segment only if it is a quote, or one of two that open a comment. */
  predicate Opens(c: char, rest: string)
  {
    || c == '\'' || c == '"'
    || (c == '-' && rest != "" && rest[0] == '-')
    || (c == '/' && rest != "" && rest[0] == '*')
  }

  lemma NoSegment(c: char, rest: string)
    requires !Opens(c, rest)
    ensures SegmentLen([c] + rest) == 0
  {
    var q := [c] + rest;
    assert |q| > 1 ==> q[..2] == [c, rest[0]];
  }

  /** Any other character is copied, except a placeholder, which becomes `$` and its number. */
  lemma CharacterBecomes(c: char, rest: string, k: nat)
    requires !Opens(c, rest)
    ensures Lex([c] + rest) == [if c == '?' then Hole else Plain(c)] + Lex(rest)
    ensures Render(Lex([c] + rest), k) ==
            if c == '?' then "$" + Itoa(k) + Render(Lex(rest), k + 1) else [c] + Render(Lex(rest), k)
  {
    hide SegmentLen, Lex;
    NoSegment(c, rest);
    LexCharacter([c] + rest);
    assert ([c] + rest)[1..] == rest;
    var t := if c == '?' then Hole else Plain(c);
    assert ([t] + Lex(rest))[1..] == Lex(rest);
  }

  /** The number of a placeholder is written without leading zeros. */
  lemma {:induction false} NoLeadingZero(n: nat)
    ensures n > 0 ==> Itoa(n)[0] != '0'
    ensures n < 10 ==> |Itoa(n)| == 1
  {
    if n >= 10 {
      NoLeadingZero(n / 10);
    }
  }
}
