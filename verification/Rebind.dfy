/** Placeholder rewriting for Postgres: every `?` outside literals, quoted identifiers
    and comments becomes `$1`, `$2`, ... in reading order. */
module Rebind {

  datatype Dialect = SQLite | Postgres

  // ---- Decimal numbers, as strconv.Itoa writes them ----

  predicate IsDigit(c: char) { '0' <= c <= '9' }

  predicate AllDigits(s: string) { forall i | 0 <= i < |s| :: IsDigit(s[i]) }

  function Itoa(n: nat): (s: string)
    ensures |s| > 0 && AllDigits(s)
  {
    var last := ['0' + (n % 10) as char];
    if n < 10 then last else Itoa(n / 10) + last
  }

  function Value(s: string): nat
    requires AllDigits(s)
  {
    if s == "" then 0
    else
      var last := s[|s| - 1];
      10 * Value(s[..|s| - 1]) + (last - '0') as nat
  }

  lemma {:induction false} ItoaValue(n: nat)
    ensures Value(Itoa(n)) == n
  {
    var s := Itoa(n);
    if n < 10 {
      assert s[..|s| - 1] == "";
    } else {
      assert s[..|s| - 1] == Itoa(n / 10);
      ItoaValue(n / 10);
    }
  }

  // ---- The token-level reading of a query ----

  /** A whole literal, quoted identifier or comment; one ordinary character; or a placeholder. */
  datatype Token = Protected(text: string) | Plain(c: char) | Hole

  /** Characters up to and including the closing quote; a doubled quote does not close. */
  function QuotedLen(s: string, quote: char): (n: nat)
    ensures n <= |s|
  {
    if s == "" then 0
    else if s[0] != quote then 1 + QuotedLen(s[1..], quote)
    else if |s| > 1 && s[1] == quote then 2 + QuotedLen(s[2..], quote)
    else 1
  }

  lemma QuotedUnfold(s: string, quote: char)
    ensures QuotedLen(s, quote) ==
            if s == "" then 0
            else if s[0] != quote then 1 + QuotedLen(s[1..], quote)
            else if |s| > 1 && s[1] == quote then 2 + QuotedLen(s[2..], quote)
            else 1
  {}

  function LineLen(s: string): (n: nat)
    ensures n <= |s|
  {
    if s == "" then 0 else if s[0] == '\n' then 1 else 1 + LineLen(s[1..])
  }

  function BlockLen(s: string): (n: nat)
    ensures n <= |s|
  {
    if s == "" then 0
    else if s[0] == '*' && |s| > 1 && s[1] == '/' then 2
    else 1 + BlockLen(s[1..])
  }

  /** Length of the protected segment that `q` starts with; 0 when it starts with none. */
  function SegmentLen(q: string): (n: nat)
    ensures n <= |q|
  {
    if q == "" then 0
    else if q[0] == '\'' || q[0] == '"' then 1 + QuotedLen(q[1..], q[0])
    else if |q| > 1 && q[..2] == "--" then 2 + LineLen(q[2..])
    else if |q| > 1 && q[..2] == "/*" then 2 + BlockLen(q[2..])
    else 0
  }

  function Lex(q: string): seq<Token>
    decreases |q|
  {
    if q == "" then []
    else
      var n := SegmentLen(q);
      if n > 0 then [Protected(q[..n])] + Lex(q[n..])
      else [if q[0] == '?' then Hole else Plain(q[0])] + Lex(q[1..])
  }

  lemma LexSegment(q: string)
    requires SegmentLen(q) > 0
    ensures Lex(q) == [Protected(q[..SegmentLen(q)])] + Lex(q[SegmentLen(q)..])
  {}

  lemma LexCharacter(q: string)
    requires q != "" && SegmentLen(q) == 0
    ensures Lex(q) == [if q[0] == '?' then Hole else Plain(q[0])] + Lex(q[1..])
  {}

  /** The text of a token list, placeholders still written `?`. */
  function Unlex(ts: seq<Token>): string
  {
    if ts == [] then "" else SourceText(ts[0]) + Unlex(ts[1..])
  }

  function SourceText(t: Token): string
  {
    match t
    case Protected(text) => text
    case Plain(c) => [c]
    case Hole => "?"
  }

  /** The text of a token list, placeholders numbered from `k`. */
  function Render(ts: seq<Token>, k: nat): string
  {
    if ts == [] then ""
    else if ts[0].Hole? then "$" + Itoa(k) + Render(ts[1..], k + 1)
    else SourceText(ts[0]) + Render(ts[1..], k)
  }

  /** What the Postgres rewriting of `q` is. */
  function Rebound(q: string): string { Render(Lex(q), 1) }

  // ---- The one-pass lexer of the source ----

  datatype State = Normal | Single | Double | LineComment | BlockComment

  /** How much of `s` belongs to the segment that the lexer is inside of. */
  ghost function Inside(state: State, s: string): (n: nat)
    ensures n <= |s|
  {
    match state
    case Normal => 0
    case Single => QuotedLen(s, '\'')
    case Double => QuotedLen(s, '"')
    case LineComment => LineLen(s)
    case BlockComment => BlockLen(s)
  }

  /** The final output when `b` is written, the loop is in `state`, `s` is left and `n` placeholders are numbered. */
  ghost function Output(b: string, state: State, s: string, n: nat): string
  {
    b + s[..Inside(state, s)] + Render(Lex(s[Inside(state, s)..]), n + 1)
  }

  lemma CutPrefix(b: string, s: string, k: nat, m: nat, tail: string)
    requires k + m <= |s|
    ensures s[k + m..] == s[k..][m..]
    ensures b + s[..k + m] + tail == b + s[..k] + s[k..][..m] + tail
  {
    assert s[..k + m] == s[..k] + s[k..][..m];
  }

  lemma Advance(b: string, state: State, s: string, k: nat, state': State, n: nat)
    requires k <= |s| && Inside(state, s) == k + Inside(state', s[k..])
    ensures Output(b, state, s, n) == Output(b + s[..k], state', s[k..], n)
  {
    hide Inside, Lex, Render;
    var m := Inside(state', s[k..]);
    CutPrefix(b, s, k, m, Render(Lex(s[k + m..]), n + 1));
  }

  lemma SegmentOutput(b: string, s: string, n: nat)
    requires SegmentLen(s) > 0
    ensures Output(b, Normal, s, n) == b + s[..SegmentLen(s)] + Render(Lex(s[SegmentLen(s)..]), n + 1)
  {
    assert s[..0] == "" && s[0..] == s && b + "" == b;
    LexSegment(s);
    hide Lex, SegmentLen;
    assert Lex(s)[1..] == Lex(s[SegmentLen(s)..]);
    assert b + (s[..SegmentLen(s)] + Render(Lex(s)[1..], n + 1)) == b + s[..SegmentLen(s)] + Render(Lex(s)[1..], n + 1);
  }

  lemma EnterSegment(b: string, s: string, k: nat, state': State, n: nat)
    requires 0 < k <= |s| && SegmentLen(s) == k + Inside(state', s[k..])
    ensures Output(b, Normal, s, n) == Output(b + s[..k], state', s[k..], n)
  {
    SegmentOutput(b, s, n);
    hide Inside, Lex, Render, SegmentLen;
    var m := Inside(state', s[k..]);
    CutPrefix(b, s, k, m, Render(Lex(s[k + m..]), n + 1));
  }

  lemma OneCharacter(b: string, s: string, n: nat)
    requires s != "" && SegmentLen(s) == 0
    ensures s[0] == '?' ==> Output(b, Normal, s, n) == Output(b + "$" + Itoa(n + 1), Normal, s[1..], n + 1)
    ensures s[0] != '?' ==> Output(b, Normal, s, n) == Output(b + s[..1], Normal, s[1..], n)
  {
    assert s[..0] == "" && s[0..] == s && s[1..][..0] == "" && s[1..][0..] == s[1..];
    var ts := [if s[0] == '?' then Hole else Plain(s[0])] + Lex(s[1..]);
    assert Lex(s) == ts && ts[1..] == Lex(s[1..]);
  }

  lemma Lookahead(query: string, i: nat, b: string)
    requires i < |query|
    ensures query[i..] != "" && query[i..][0] == query[i] && query[i..][..1] == [query[i]]
    ensures query[i..][1..] == query[i + 1..]
    ensures |query[i..]| > 1 <==> i + 1 < |query|
    ensures i + 1 < |query| ==> query[i..][1] == query[i + 1] && query[i..][2..] == query[i + 2..]
    ensures i + 1 < |query| ==> query[i..][..2] == [query[i], query[i + 1]]
    ensures i + 1 < |query| ==> b + [query[i]] + [query[i + 1]] == b + [query[i], query[i + 1]]
  {}

  lemma InsideQuotes(b: string, state: State, quote: char, query: string, i: nat, n: nat)
    requires i < |query| && ((state == Single && quote == '\'') || (state == Double && quote == '"'))
    ensures query[i] != quote ==>
              Output(b, state, query[i..], n) == Output(b + [query[i]], state, query[i + 1..], n)
    ensures query[i] == quote && i + 1 < |query| && query[i + 1] == quote ==>
              Output(b, state, query[i..], n) == Output(b + [query[i]] + [query[i + 1]], state, query[i + 2..], n)
    ensures query[i] == quote && !(i + 1 < |query| && query[i + 1] == quote) ==>
              Output(b, state, query[i..], n) == Output(b + [query[i]], Normal, query[i + 1..], n)
  {
    hide Output;
    Lookahead(query, i, b);
    var s := query[i..];
    if s[0] != quote {
      Advance(b, state, s, 1, state, n);
    } else if |s| > 1 && s[1] == quote {
      Advance(b, state, s, 2, state, n);
    } else {
      Advance(b, state, s, 1, Normal, n);
    }
  }

  lemma InsideLineComment(b: string, query: string, i: nat, n: nat)
    requires i < |query|
    ensures Output(b, LineComment, query[i..], n) ==
            Output(b + [query[i]], if query[i] == '\n' then Normal else LineComment, query[i + 1..], n)
  {
    hide Output;
    Lookahead(query, i, b);
    Advance(b, LineComment, query[i..], 1, if query[i] == '\n' then Normal else LineComment, n);
  }

  lemma InsideBlockComment(b: string, query: string, i: nat, n: nat)
    requires i < |query|
    ensures if query[i] == '*' && i + 1 < |query| && query[i + 1] == '/'
            then Output(b, BlockComment, query[i..], n) == Output(b + [query[i]] + ['/'], Normal, query[i + 2..], n)
            else Output(b, BlockComment, query[i..], n) == Output(b + [query[i]], BlockComment, query[i + 1..], n)
  {
    hide Output;
    Lookahead(query, i, b);
    if query[i] == '*' && i + 1 < |query| && query[i + 1] == '/' {
      Advance(b, BlockComment, query[i..], 2, Normal, n);
    } else {
      Advance(b, BlockComment, query[i..], 1, BlockComment, n);
    }
  }

  lemma OpensQuotes(b: string, query: string, i: nat, n: nat)
    requires i < |query| && (query[i] == '\'' || query[i] == '"')
    ensures Output(b, Normal, query[i..], n) ==
            Output(b + [query[i]], if query[i] == '\'' then Single else Double, query[i + 1..], n)
  {
    hide Output;
    Lookahead(query, i, b);
    EnterSegment(b, query[i..], 1, if query[i] == '\'' then Single else Double, n);
  }

  lemma OpensComment(b: string, query: string, i: nat, n: nat)
    requires i + 1 < |query|
    requires (query[i] == '-' && query[i + 1] == '-') || (query[i] == '/' && query[i + 1] == '*')
    ensures query[i] == '-' ==> Output(b, Normal, query[i..], n) == Output(b + "--", LineComment, query[i + 2..], n)
    ensures query[i] == '/' ==> Output(b, Normal, query[i..], n) == Output(b + "/*", BlockComment, query[i + 2..], n)
  {
    hide Output;
    Lookahead(query, i, b);
    EnterSegment(b, query[i..], 2, if query[i] == '-' then LineComment else BlockComment, n);
  }

  lemma Outside(b: string, query: string, i: nat, n: nat)
    requires i < |query| && query[i] != '\'' && query[i] != '"'
    requires i + 1 < |query| ==> !(query[i] == '-' && query[i + 1] == '-') && !(query[i] == '/' && query[i + 1] == '*')
    ensures query[i] == '?' ==>
              Output(b, Normal, query[i..], n) == Output(b + "$" + Itoa(n + 1), Normal, query[i + 1..], n + 1)
    ensures query[i] != '?' ==>
              Output(b, Normal, query[i..], n) == Output(b + [query[i]], Normal, query[i + 1..], n)
  {
    hide Output, Itoa;
    Lookahead(query, i, b);
    OneCharacter(b, query[i..], n);
  }

  lemma FirstAndLast(query: string, b: string, state: State, n: nat)
    ensures Output("", Normal, query[0..], 0) == Rebound(query)
    ensures Output(b, state, query[|query|..], n) == b
  {
    assert query[0..] == query && query[..0] == "";
    assert query[|query|..] == "";
  }

  method Rebind(query: string, d: Dialect) returns (r: string)
    ensures r == if d == Postgres then Rebound(query) else query
  {
    hide *;
    if d != Postgres {
      return query;
    }
    var b := "";
    var n := 0;
    var state := Normal;
    var i := 0;
    FirstAndLast(query, b, state, n);
    while i < |query|
      invariant 0 <= i <= |query|
      invariant Output(b, state, query[i..], n) == Rebound(query)
    {
      var c := query[i];
      match state {
        case Single =>
          InsideQuotes(b, state, '\'', query, i, n);
          b := b + [c];
          if c == '\'' {
            if i + 1 < |query| && query[i + 1] == '\'' {
              b := b + [query[i + 1]];
              i := i + 1;
            } else {
              state := Normal;
            }
          }
        case Double =>
          InsideQuotes(b, state, '"', query, i, n);
          b := b + [c];
          if c == '"' {
            if i + 1 < |query| && query[i + 1] == '"' {
              b := b + [query[i + 1]];
              i := i + 1;
            } else {
              state := Normal;
            }
          }
        case LineComment =>
          InsideLineComment(b, query, i, n);
          b := b + [c];
          if c == '\n' {
            state := Normal;
          }
        case BlockComment =>
          InsideBlockComment(b, query, i, n);
          b := b + [c];
          if c == '*' && i + 1 < |query| && query[i + 1] == '/' {
            b := b + ['/'];
            i := i + 1;
            state := Normal;
          }
        case Normal =>
          if c == '\'' {
            OpensQuotes(b, query, i, n);
            b := b + [c];
            state := Single;
          } else if c == '"' {
            OpensQuotes(b, query, i, n);
            b := b + [c];
            state := Double;
          } else if c == '-' && i + 1 < |query| && query[i + 1] == '-' {
            OpensComment(b, query, i, n);
            b := b + "--";
            i := i + 1;
            state := LineComment;
          } else if c == '/' && i + 1 < |query| && query[i + 1] == '*' {
            OpensComment(b, query, i, n);
            b := b + "/*";
            i := i + 1;
            state := BlockComment;
          } else if c == '?' {
            Outside(b, query, i, n);
            n := n + 1;
            b := b + "$";
            b := b + Itoa(n);
          } else {
            Outside(b, query, i, n);
            b := b + [c];
          }
      }
      i := i + 1;
    }
    FirstAndLast(query, b, state, n);
    return b;
  }
}
