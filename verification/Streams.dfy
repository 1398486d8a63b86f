/** Byte sources and sinks: a source hands out its bytes in pieces of its own choosing,
    a sink may run out of room. */
module Streams {
  import opened Wrappers
  import opened Bytes

  datatype ReadError = NoError | EOF | UnexpectedEOF | ReadFailed

  class Reader {
    var rest: bytes
    var pieces: seq<nat>   // how much each coming read offers at most; unlimited when used up
    const broken: bool     // ends with a failure instead of EOF

    constructor (content: bytes, pieces: seq<nat>, broken: bool)
      ensures rest == content && this.pieces == pieces && this.broken == broken
    {
      this.rest, this.pieces, this.broken := content, pieces, broken;
    }

    method Read(max: nat) returns (got: bytes, err: ReadError)
      modifies this
      ensures got + rest == old(rest) && |got| <= max
      ensures err == if old(rest) != [] then NoError else if broken then ReadFailed else EOF
      ensures pieces == if old(pieces) == [] || old(rest) == [] then old(pieces) else old(pieces)[1..]
      ensures old(pieces) == [] && old(rest) != [] && max > 0 ==> got != []
    {
      if rest == [] {
        return [], if broken then ReadFailed else EOF;
      }
      var n := Min(max, |rest|);
      if pieces != [] {
        n := Min(n, pieces[0]);
        pieces := pieces[1..];
      }
      got, err := rest[..n], NoError;
      rest := rest[n..];
    }

    /** Fills a buffer of size `n`. What it gets depends on the content alone, not on the pieces. */
    method ReadFull(n: nat) returns (got: bytes, err: ReadError)
      modifies this
      ensures got == old(rest)[..Min(n, |old(rest)|)] && rest == old(rest)[Min(n, |old(rest)|)..]
      ensures err == if n <= |old(rest)| then NoError
                     else if broken then ReadFailed
                     else if old(rest) == [] then EOF else UnexpectedEOF
    {
      got, err := [], NoError;
      while |got| < n && err == NoError
        invariant |got| <= n && got + rest == old(rest)
        invariant err != NoError ==> rest == [] && |got| < n && err == if broken then ReadFailed else EOF
        decreases n - |got| + (if err == NoError then 1 else 0), |pieces|
      {
        var piece;
        piece, err := Read(n - |got|);
        got := got + piece;
      }
      if err == EOF && got != [] {
        err := UnexpectedEOF;
      }
      assert old(rest)[..|got|] == got && old(rest)[|got|..] == rest;
    }
  }

  class Writer {
    var data: bytes
    const limit: Option<nat>

    predicate Valid()
      reads this
    {
      limit.Some? ==> |data| <= limit.value
    }

    constructor (limit: Option<nat>)
      ensures Valid() && data == [] && this.limit == limit
    {
      data, this.limit := [], limit;
    }

    /** How many of `n` further bytes the sink takes. */
    function Takes(n: nat): (m: nat)
      requires Valid()
      reads this
      ensures m <= n
    {
      if limit.None? then n else Min(n, limit.value - |data|)
    }

    predicate Fits(n: nat)
      reads this
    {
      limit.None? || |data| + n <= limit.value
    }

    method Write(p: bytes) returns (ok: bool)
      requires Valid()
      modifies this
      ensures data == old(data) + p[..old(Takes(|p|))]
      ensures old(Fits(|p|)) ==> data == old(data) + p
      ensures Valid() && (ok <==> old(Fits(|p|)))
    {
      var n := Takes(|p|);
      data := data + p[..n];
      ok := n == |p|;
    }
  }
}
