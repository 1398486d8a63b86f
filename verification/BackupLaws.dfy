/** Which streams decryption accepts, and what it writes, when the cipher is ideal. */
module BackupLaws {
  import opened Wrappers
  import opened Bytes
  import opened Nbbk2
  import BackupCrypto

  // ---- The idealised cipher ----

  predicate IsChunk(e: Sealing, i: nat, nonce: bytes, plain: bytes, aad: bytes)
  {
    e.SealsChunk(i) && nonce == e.Nonce(i) && plain == e.Chunk(i) && aad == ChunkAad(i)
  }

  predicate IsFooter(e: Sealing, nonce: bytes, plain: bytes, aad: bytes)
  {
    && e.extent.Whole?
    && nonce == e.Nonce(e.ChunkCount()) && plain == BigEndian(e.ChunkCount(), 8) && aad == ChunkAad(FOOTER_INDEX)
  }

  /** The run `e` sealed `plain` under these parameters. */
  ghost predicate SealedBy(e: Sealing, key: Key, nonce: bytes, plain: bytes, aad: bytes)
  {
    && key == e.DerivedKey()
    && (IsFooter(e, nonce, plain, aad) || exists i: nat :: IsChunk(e, i, nonce, plain, aad))
  }

  ghost predicate Sealed(history: seq<Sealing>, key: Key, nonce: bytes, plain: bytes, aad: bytes)
  {
    exists e <- history :: SealedBy(e, key, nonce, plain, aad)
  }

  /** Sealing adds a tag; opening succeeds exactly on what some run of `history` sealed. */
  ghost predicate Ideal(c: Cipher, history: seq<Sealing>)
  {
    && (forall k, n, p, a :: |c.seal(k, n, p, a)| == |p| + TAG_SIZE)
    && (forall k, n, s, a :: c.open(k, n, s, a).Some? ==>
          Sealed(history, k, n, c.open(k, n, s, a).value, a) && s == c.seal(k, n, c.open(k, n, s, a).value, a))
    && (forall k, n, p, a :: Sealed(history, k, n, p, a) ==> c.open(k, n, c.seal(k, n, p, a), a) == Some(p))
  }

  /** Every run drew a fresh salt and full-size nonces, and stayed below 2^64 - 1 chunks. */
  ghost predicate Honest(history: seq<Sealing>)
  {
    && (forall e <- history :: e.passphrase != "" && |e.salt| == SALT_SIZE && e.ChunkCount() < FOOTER_INDEX)
    && (forall e <- history, i: nat :: |e.Nonce(i)| == NONCE_SIZE)
    && (forall d <- history, e <- history :: d.salt == e.salt ==> d == e)
  }

  lemma AadInjective(i: nat, j: nat)
    requires i <= FOOTER_INDEX && j <= FOOTER_INDEX && ChunkAad(i) == ChunkAad(j)
    ensures i == j
  {
    WordSizes();
    assert ChunkAad(i)[5..] == BigEndian(i, 8) && ChunkAad(j)[5..] == BigEndian(j, 8);
    BigEndianRoundTrip(i, 8);
    BigEndianRoundTrip(j, 8);
  }

  /** Under the key of `e`, the only thing that opens as record `i` is chunk `i` of `e`. */
  lemma OpensAsChunk(c: Cipher, history: seq<Sealing>, e: Sealing, i: nat, nonce: bytes, sealed: bytes)
    requires Ideal(c, history) && Honest(history) && e in history && i < FOOTER_INDEX
    requires c.open(e.DerivedKey(), nonce, sealed, ChunkAad(i)).Some?
    ensures e.SealsChunk(i)
    ensures nonce == e.Nonce(i) && sealed == c.seal(e.DerivedKey(), e.Nonce(i), e.Chunk(i), ChunkAad(i))
    ensures c.open(e.DerivedKey(), nonce, sealed, ChunkAad(i)) == Some(e.Chunk(i))
  {
    hide ChunkAad, Sealing.Chunk, Sealing.ChunkCount;
    var p := c.open(e.DerivedKey(), nonce, sealed, ChunkAad(i)).value;
    var d :| d in history && SealedBy(d, e.DerivedKey(), nonce, p, ChunkAad(i));
    assert d == e;
    if IsFooter(e, nonce, p, ChunkAad(i)) {
      AadInjective(i, FOOTER_INDEX);
    } else {
      var j: nat :| IsChunk(e, j, nonce, p, ChunkAad(i));
      AadInjective(i, j);
    }
  }

  lemma OpensAsFooter(c: Cipher, history: seq<Sealing>, e: Sealing, nonce: bytes, sealed: bytes)
    requires Ideal(c, history) && Honest(history) && e in history
    requires c.open(e.DerivedKey(), nonce, sealed, ChunkAad(FOOTER_INDEX)).Some?
    ensures var n := e.ChunkCount();
            && e.extent.Whole?
            && nonce == e.Nonce(n)
            && sealed == c.seal(e.DerivedKey(), e.Nonce(n), BigEndian(n, 8), ChunkAad(FOOTER_INDEX))
            && c.open(e.DerivedKey(), nonce, sealed, ChunkAad(FOOTER_INDEX)) == Some(BigEndian(n, 8))
  {
    hide ChunkAad, Sealing.Chunk, Sealing.ChunkCount, BigEndian;
    var p := c.open(e.DerivedKey(), nonce, sealed, ChunkAad(FOOTER_INDEX)).value;
    var d :| d in history && SealedBy(d, e.DerivedKey(), nonce, p, ChunkAad(FOOTER_INDEX));
    assert d == e;
    if !IsFooter(e, nonce, p, ChunkAad(FOOTER_INDEX)) {
      var j: nat :| IsChunk(e, j, nonce, p, ChunkAad(FOOTER_INDEX));
      AadInjective(j, FOOTER_INDEX);
    }
  }

  /** Sealed records of an honest run open again. */
  lemma HonestOpens(c: Cipher, history: seq<Sealing>, e: Sealing, i: nat)
    requires Ideal(c, history) && e in history && e.SealsChunk(i)
    ensures c.open(e.DerivedKey(), e.Nonce(i), c.seal(e.DerivedKey(), e.Nonce(i), e.Chunk(i), ChunkAad(i)), ChunkAad(i))
            == Some(e.Chunk(i))
  {
    assert IsChunk(e, i, e.Nonce(i), e.Chunk(i), ChunkAad(i));
    assert SealedBy(e, e.DerivedKey(), e.Nonce(i), e.Chunk(i), ChunkAad(i));
    assert Sealed(history, e.DerivedKey(), e.Nonce(i), e.Chunk(i), ChunkAad(i));
  }

  lemma HonestFooterOpens(c: Cipher, history: seq<Sealing>, e: Sealing)
    requires Ideal(c, history) && e in history && e.extent.Whole?
    ensures var n := e.ChunkCount();
            var plain := BigEndian(n, 8);
            var aad := ChunkAad(FOOTER_INDEX);
            c.open(e.DerivedKey(), e.Nonce(n), c.seal(e.DerivedKey(), e.Nonce(n), plain, aad), aad) == Some(plain)
  {
    var n := e.ChunkCount();
    assert SealedBy(e, e.DerivedKey(), e.Nonce(n), BigEndian(n, 8), ChunkAad(FOOTER_INDEX));
    assert Sealed(history, e.DerivedKey(), e.Nonce(n), BigEndian(n, 8), ChunkAad(FOOTER_INDEX));
  }

  // ---- One record ----

  lemma SplitRecord(s: bytes, m: nat)
    requires |s| >= 4 + NONCE_SIZE + m
    ensures var r := s[4..];
            s == BigEndian(FromBigEndian(s[..4]), 4) + r[..NONCE_SIZE] + r[NONCE_SIZE..][..m] + r[NONCE_SIZE..][m..]
  {
    FromBigEndianRoundTrip(s[..4]);
    var r := s[4..];
    assert r == r[..NONCE_SIZE] + (r[NONCE_SIZE..][..m] + r[NONCE_SIZE..][m..]);
  }

  lemma JoinRecord(len: nat, nonce: bytes, sealed: bytes, tail: bytes)
    requires len <= CHUNK && |nonce| == NONCE_SIZE
    ensures var s := BigEndian(len, 4) + nonce + sealed + tail;
            && |s| == 4 + NONCE_SIZE + |sealed| + |tail|
            && FromBigEndian(s[..4]) == len
            && s[4..][..NONCE_SIZE] == nonce
            && s[4..][NONCE_SIZE..][..|sealed|] == sealed
            && s[4..][NONCE_SIZE..][|sealed|..] == tail
  {
    WordSizes();
    BigEndianRoundTrip(len, 4);
    var s := BigEndian(len, 4) + nonce + sealed + tail;
    assert s[..4] == BigEndian(len, 4);
    assert s[4..] == nonce + (sealed + tail);
    assert s[4..][NONCE_SIZE..] == sealed + tail;
  }

  lemma ReadsHonestChunk(c: Cipher, history: seq<Sealing>, e: Sealing, k: nat, tail: bytes, written: bytes)
    requires Ideal(c, history) && Honest(history) && e in history && e.SealsChunk(k)
    ensures ReadRecord(c, e.DerivedKey(), Progress(ChunkRecord(c, e, k) + tail, k, written))
            == Next(Progress(tail, k + 1, written + e.Chunk(k)))
  {
    hide ChunkAad, BigEndian, FromBigEndian, Sealing.Chunk, Sealing.ChunkCount, Sealing.Nonce, SealedBy;
    HonestOpens(c, history, e, k);
    var sealed := c.seal(e.DerivedKey(), e.Nonce(k), e.Chunk(k), ChunkAad(k));
    JoinRecord(|e.Chunk(k)|, e.Nonce(k), sealed, tail);
  }

  lemma ReadsHonestFooter(c: Cipher, history: seq<Sealing>, e: Sealing, tail: bytes, written: bytes)
    requires Ideal(c, history) && Honest(history) && e in history && e.extent.Whole?
    ensures ReadRecord(c, e.DerivedKey(), Progress(FooterRecord(c, e) + tail, e.ChunkCount(), written))
            == Stop(Accepted)
  {
    var n := e.ChunkCount();
    WordSizes();
    BigEndianRoundTrip(n, 8);
    hide ChunkAad, BigEndian, FromBigEndian, Sealing.ChunkCount, Sealing.Nonce, SealedBy;
    HonestFooterOpens(c, history, e);
    var sealed := c.seal(e.DerivedKey(), e.Nonce(n), BigEndian(n, 8), ChunkAad(FOOTER_INDEX));
    JoinRecord(0, e.Nonce(n), sealed, tail);
    assert BigEndian(n, 8)[..8] == BigEndian(n, 8);
  }

  lemma ReadChunkIsHonest(c: Cipher, history: seq<Sealing>, e: Sealing, p: Progress)
    requires Ideal(c, history) && Honest(history) && e in history && p.index <= e.ChunkCount()
    requires ReadRecord(c, e.DerivedKey(), p).Next?
    ensures var q := ReadRecord(c, e.DerivedKey(), p).progress;
            && e.SealsChunk(p.index)
            && p.rest == ChunkRecord(c, e, p.index) + q.rest
            && q.index == p.index + 1 && q.written == p.written + e.Chunk(p.index)
  {
    hide ChunkAad, BigEndian, FromBigEndian, Sealing.Chunk, Sealing.ChunkCount, Sealing.Nonce, SealedBy;
    var n := FromBigEndian(p.rest[..4]);
    var r := p.rest[4..];
    OpensAsChunk(c, history, e, p.index, r[..NONCE_SIZE], r[NONCE_SIZE..][..n + TAG_SIZE]);
    SplitRecord(p.rest, n + TAG_SIZE);
  }

  lemma ReadFooterIsHonest(c: Cipher, history: seq<Sealing>, e: Sealing, p: Progress)
    requires Ideal(c, history) && Honest(history) && e in history
    requires ReadRecord(c, e.DerivedKey(), p) == Stop(Accepted)
    ensures e.extent.Whole? && p.index == e.ChunkCount() && FooterRecord(c, e) <= p.rest
  {
    var n := e.ChunkCount();
    WordSizes();
    BigEndianRoundTrip(n, 8);
    hide ChunkAad, BigEndian, FromBigEndian, Sealing.ChunkCount, Sealing.Nonce, SealedBy;
    var r := p.rest[4..];
    OpensAsFooter(c, history, e, r[..NONCE_SIZE], r[NONCE_SIZE..][..8 + TAG_SIZE]);
    WholeCount(BigEndian(n, 8));
    BeginsWithRecord(p.rest, 8 + TAG_SIZE);
  }

  lemma WholeCount(b: bytes)
    requires |b| == 8
    ensures b[..8] == b
  {}

  lemma BeginsWithRecord(s: bytes, m: nat)
    requires |s| >= 4 + NONCE_SIZE + m
    ensures BigEndian(FromBigEndian(s[..4]), 4) + s[4..][..NONCE_SIZE] + s[4..][NONCE_SIZE..][..m] <= s
  {
    hide BigEndian, FromBigEndian;
    SplitRecord(s, m);
  }

  // ---- The whole stream ----

  /** The plaintext of the first `k` chunks. */
  function ChunkPrefix(e: Sealing, k: nat): bytes { e.plain[..Min(k * CHUNK, |e.plain|)] }

  lemma ChunkPrefixNext(e: Sealing, k: nat)
    ensures ChunkPrefix(e, 0) == []
    ensures k < e.ChunkCount() ==> ChunkPrefix(e, k + 1) == ChunkPrefix(e, k) + e.Chunk(k)
    ensures k >= e.ChunkCount() ==> ChunkPrefix(e, k) == e.plain
  {}

  /** Reading stream `s` (after the header) has got as far as the honest run `e`, and no other way. */
  ghost predicate OnTrack(c: Cipher, e: Sealing, s: bytes, p: Progress)
  {
    && p.index <= e.ChunkCount()
    && s == Records(c, e, p.index) + p.rest
    && p.written == ChunkPrefix(e, p.index)
  }

  /** The state of the reading loop after `turns` turns, or where it stopped before. */
  function After(c: Cipher, key: Key, p: Progress, turns: nat): Turn
  {
    if turns == 0 then Next(p)
    else
      match After(c, key, p, turns - 1)
      case Stop(outcome) => Stop(outcome)
      case Next(q) => ReadRecord(c, key, q)
  }

  lemma StaysOnTrack(c: Cipher, history: seq<Sealing>, e: Sealing, s: bytes, p: Progress)
    requires Ideal(c, history) && Honest(history) && e in history && OnTrack(c, e, s, p)
    requires ReadRecord(c, e.DerivedKey(), p).Next?
    ensures var q := ReadRecord(c, e.DerivedKey(), p).progress;
            OnTrack(c, e, s, q) && q.index == p.index + 1
  {
    hide Ideal, Honest, ReadRecord, ChunkRecord, Sealing.Chunk, Sealing.ChunkCount, ChunkPrefix;
    var q := ReadRecord(c, e.DerivedKey(), p).progress;
    ReadChunkIsHonest(c, history, e, p);
    ChunkPrefixNext(e, p.index);
    assert Records(c, e, p.index) + (ChunkRecord(c, e, p.index) + q.rest) == Records(c, e, q.index) + q.rest;
  }

  /** At every step of the loop, on any stream with the key of an honest run, what has been
      written is that run's plaintext up to a whole number of chunks. */
  lemma {:induction false} WrittenIsChunkPrefix(c: Cipher, history: seq<Sealing>, e: Sealing, s: bytes, turns: nat)
    requires Ideal(c, history) && Honest(history) && e in history
    requires After(c, e.DerivedKey(), Progress(s, 0, []), turns).Next?
    ensures var q := After(c, e.DerivedKey(), Progress(s, 0, []), turns).progress;
            q.index == turns && OnTrack(c, e, s, q)
  {
    hide Ideal, Honest, ReadRecord, Sealing.ChunkCount, ChunkPrefix;
    if turns == 0 {
      ChunkPrefixNext(e, 0);
      assert [] + s == s;
    } else {
      WrittenIsChunkPrefix(c, history, e, s, turns - 1);
      StaysOnTrack(c, history, e, s, After(c, e.DerivedKey(), Progress(s, 0, []), turns - 1).progress);
    }
  }

  /** What follows from being on track: an accepted stream continues with the rest of the run. */
  lemma {:induction false} OnTrackResult(c: Cipher, history: seq<Sealing>, e: Sealing, s: bytes, p: Progress)
    requires Ideal(c, history) && Honest(history) && e in history && OnTrack(c, e, s, p)
    ensures var d := ReadRecords(c, e.DerivedKey(), p);
            && (exists k: nat :: k <= e.ChunkCount() && d.written == ChunkPrefix(e, k))
            && (d.outcome == Accepted ==>
                  e.extent.Whole? && d.written == e.plain && Records(c, e, e.ChunkCount()) + FooterRecord(c, e) <= s)
    decreases |p.rest|
  {
    hide Ideal, Honest, ReadRecord, FooterRecord, Records, Sealing.ChunkCount, ChunkPrefix;
    match ReadRecord(c, e.DerivedKey(), p)
    case Next(q) =>
      StaysOnTrack(c, history, e, s, p);
      OnTrackResult(c, history, e, s, q);
    case Stop(outcome) =>
      if outcome == Accepted {
        ReadFooterIsHonest(c, history, e, p);
        ChunkPrefixNext(e, p.index);
        PrefixAppend(Records(c, e, p.index), FooterRecord(c, e), p.rest);
      }
  }

  lemma PrefixAppend(a: bytes, b: bytes, r: bytes)
    requires b <= r
    ensures a + b <= a + r
  {}

  /** A stream that starts with all records of a run is read to the end and accepted. */
  lemma {:induction false} HonestStreamAccepted(c: Cipher, history: seq<Sealing>, e: Sealing, s: bytes, tail: bytes,
                                                p: Progress)
    requires Ideal(c, history) && Honest(history) && e in history && OnTrack(c, e, s, p)
    requires e.extent.Whole? && s == Records(c, e, e.ChunkCount()) + (FooterRecord(c, e) + tail)
    ensures ReadRecords(c, e.DerivedKey(), p) == Decryption(Accepted, e.plain)
    decreases e.ChunkCount() - p.index
  {
    hide Ideal, Honest, ReadRecord, FooterRecord, ChunkRecord, Sealing.ChunkCount, Sealing.Chunk, ChunkPrefix;
    var n := e.ChunkCount();
    ChunkPrefixNext(e, p.index);
    if p.index == n {
      SamePrefix(Records(c, e, n), p.rest, FooterRecord(c, e) + tail);
      ReadsHonestFooter(c, history, e, tail, p.written);
    } else {
      NextRecordFollows(c, e, s, p, FooterRecord(c, e) + tail);
      var r := p.rest[|ChunkRecord(c, e, p.index)|..];
      ReadsHonestChunk(c, history, e, p.index, r, p.written);
      var q := Progress(r, p.index + 1, p.written + e.Chunk(p.index));
      StaysOnTrack(c, history, e, s, p);
      HonestStreamAccepted(c, history, e, s, tail, q);
    }
  }

  lemma SamePrefix(a: bytes, x: bytes, y: bytes)
    requires a + x == a + y
    ensures x == y
  {
    assert (a + x)[|a|..] == x && (a + y)[|a|..] == y;
  }

  lemma NextRecordFollows(c: Cipher, e: Sealing, s: bytes, p: Progress, footer: bytes)
    requires p.index < e.ChunkCount()
    requires s == Records(c, e, p.index) + p.rest == Records(c, e, e.ChunkCount()) + footer
    ensures ChunkRecord(c, e, p.index) <= p.rest
    ensures p.rest == ChunkRecord(c, e, p.index) + p.rest[|ChunkRecord(c, e, p.index)|..]
  {
    hide ChunkRecord, Sealing.ChunkCount;
    var a := Records(c, e, p.index);
    var rec := ChunkRecord(c, e, p.index);
    assert Records(c, e, p.index + 1) == a + rec;
    RecordsGrow(c, e, p.index + 1, e.ChunkCount());
    assert a + rec <= s;
    assert s[..|a + rec|][|a|..] == rec && s[|a|..] == p.rest;
    assert p.rest[..|rec|] == rec;
  }

  /** The run of `history`, if any, that used this passphrase and salt. */
  ghost predicate Owns(e: Sealing, passphrase: string, s: bytes)
  {
    |s| >= HEADER_SIZE && e.passphrase == passphrase && e.salt == s[5..HEADER_SIZE]
  }

  lemma OpensUnderOwnKey(c: Cipher, history: seq<Sealing>, key: Key, nonce: bytes, sealed: bytes, aad: bytes)
    requires Ideal(c, history)
    ensures c.open(key, nonce, sealed, aad).Some? ==> exists e <- history :: e.DerivedKey() == key
  {}

  /** Without such a run nothing opens: the stream is rejected and nothing is written. */
  lemma ForeignKeyRejected(c: Cipher, history: seq<Sealing>, passphrase: string, s: bytes)
    requires Ideal(c, history) && Honest(history)
    requires forall e <- history :: !Owns(e, passphrase, s)
    ensures Decrypted(c, passphrase, s).outcome != Accepted && Decrypted(c, passphrase, s).written == []
  {
    hide BigEndian, FromBigEndian, ChunkAad, IsFooter, IsChunk, Honest;
    if |s| >= HEADER_SIZE {
      var key := Key(passphrase, s[5..HEADER_SIZE]);
      forall n, t, a ensures c.open(key, n, t, a).None? {
        OpensUnderOwnKey(c, history, key, n, t, a);
      }
    }
  }

  lemma HeaderOwner(c: Cipher, e: Sealing, s: bytes, tail: bytes)
    requires |e.salt| == SALT_SIZE && s == Header(e.salt) + tail
    ensures |s| >= HEADER_SIZE && s[..4] == MAGIC && s[4] == VERSION
    ensures s[5..HEADER_SIZE] == e.salt && s[HEADER_SIZE..] == tail
    ensures Owns(e, e.passphrase, s)
  {}

  lemma SplitHeader(s: bytes)
    requires |s| >= HEADER_SIZE && s[..4] == MAGIC && s[4] == VERSION
    ensures s == Header(s[5..HEADER_SIZE]) + s[HEADER_SIZE..]
  {
    assert s[..5] == MAGIC + [VERSION];
    assert s == s[..5] + (s[5..HEADER_SIZE] + s[HEADER_SIZE..]);
  }

  /** Decryption accepts exactly the streams that start with an envelope some run completed under the passphrase,
      whatever other runs broke off. */
  lemma AcceptedIff(c: Cipher, history: seq<Sealing>, passphrase: string, s: bytes)
    requires Ideal(c, history) && Honest(history)
    ensures Decrypted(c, passphrase, s).outcome == Accepted <==>
            exists e <- history :: e.extent.Whole? && e.passphrase == passphrase && Envelope(c, e) <= s
  {
    hide Ideal, Honest, Envelope, ReadRecords;
    if e: Sealing :| e in history && e.extent.Whole? && e.passphrase == passphrase && Envelope(c, e) <= s {
      EnvelopeAccepted(c, history, e, s);
    } else if Decrypted(c, passphrase, s).outcome == Accepted {
      var e := AcceptedHasOwner(c, history, passphrase, s);
      assert e in history && e.extent.Whole? && e.passphrase == passphrase && Envelope(c, e) <= s;
    }
  }

  /** And then the output is the plaintext of that envelope. */
  lemma EnvelopeAccepted(c: Cipher, history: seq<Sealing>, e: Sealing, s: bytes)
    requires Ideal(c, history) && Honest(history) && e in history && e.extent.Whole? && Envelope(c, e) <= s
    ensures Decrypted(c, e.passphrase, s) == Decryption(Accepted, e.plain)
  {
    assert |e.salt| == SALT_SIZE && e.passphrase != "";
    hide Ideal, Honest, ReadRecords, FooterRecord, Sealing.ChunkCount, ChunkPrefix, Header;
    var n := e.ChunkCount();
    var tail := s[|Envelope(c, e)|..];
    var body := Records(c, e, n) + (FooterRecord(c, e) + tail);
    EnvelopeParts(c, e, tail);
    assert s == Envelope(c, e) + tail;
    HeaderOwner(c, e, s, body);
    ChunkPrefixNext(e, 0);
    assert [] + body == body;
    HonestStreamAccepted(c, history, e, body, tail, Progress(body, 0, []));
  }

  lemma EnvelopeParts(c: Cipher, e: Sealing, tail: bytes)
    ensures Envelope(c, e) + tail == Header(e.salt) + (Records(c, e, e.ChunkCount()) + (FooterRecord(c, e) + tail))
  {}

  lemma AcceptedHasOwner(c: Cipher, history: seq<Sealing>, passphrase: string, s: bytes) returns (e: Sealing)
    requires Ideal(c, history) && Honest(history) && Decrypted(c, passphrase, s).outcome == Accepted
    ensures e in history && e.extent.Whole? && e.passphrase == passphrase && Envelope(c, e) <= s
    ensures Decrypted(c, passphrase, s).written == e.plain
  {
    hide Ideal, Honest, ReadRecords, Records, FooterRecord, Sealing.ChunkCount, ChunkPrefix, Header;
    if forall e <- history :: !Owns(e, passphrase, s) {
      ForeignKeyRejected(c, history, passphrase, s);
    }
    e :| e in history && Owns(e, passphrase, s);
    var body := s[HEADER_SIZE..];
    NothingReadYet(c, e, body);
    OnTrackResult(c, history, e, body, Progress(body, 0, []));
    SplitHeader(s);
    EnvelopeParts(c, e, []);
    PrefixAppend(Header(e.salt), Records(c, e, e.ChunkCount()) + FooterRecord(c, e), body);
    assert FooterRecord(c, e) + [] == FooterRecord(c, e) && Envelope(c, e) + [] == Envelope(c, e);
  }

  lemma NothingReadYet(c: Cipher, e: Sealing, body: bytes)
    ensures OnTrack(c, e, body, Progress(body, 0, []))
  {
    ChunkPrefixNext(e, 0);
    assert [] + body == body;
  }

  // ---- Consequences ----

  /** Encrypting and then decrypting gives the plaintext back, whatever follows the envelope. */
  lemma RoundTrip(c: Cipher, history: seq<Sealing>, e: Sealing, tail: bytes)
    requires Ideal(c, history) && Honest(history) && e in history && e.extent.Whole?
    ensures Decrypted(c, e.passphrase, Envelope(c, e) + tail) == Decryption(Accepted, e.plain)
  {
    EnvelopeAccepted(c, history, e, Envelope(c, e) + tail);
  }

  /** The bytes where a stream carries its salt. */
  ghost predicate CarriesSalt(e: Sealing, s: bytes)
  {
    |s| >= HEADER_SIZE && s[5..HEADER_SIZE] == e.salt
  }

  lemma EnvelopeCarriesSalt(c: Cipher, e: Sealing, s: bytes)
    requires |e.salt| == SALT_SIZE && Envelope(c, e) <= s
    ensures CarriesSalt(e, s)
  {
    hide Header, Records, FooterRecord, Sealing.ChunkCount;
    var tail := s[|Envelope(c, e)|..];
    EnvelopeParts(c, e, tail);
    HeaderOwner(c, e, s, Records(c, e, e.ChunkCount()) + (FooterRecord(c, e) + tail));
  }

  /** Deleting, swapping, splicing, cutting or changing anything in an envelope, short of replacing
      its salt, leaves a stream that no passphrase opens. */
  lemma AlteredRejected(c: Cipher, history: seq<Sealing>, e: Sealing, passphrase: string, s: bytes)
    requires Ideal(c, history) && Honest(history) && e in history
    requires CarriesSalt(e, s) && !(Envelope(c, e) <= s)
    ensures Decrypted(c, passphrase, s).outcome != Accepted
  {
    hide Decrypted, Ideal, Envelope;
    if Decrypted(c, passphrase, s).outcome == Accepted {
      var d := AcceptedHasOwner(c, history, passphrase, s);
      EnvelopeCarriesSalt(c, d, s);
    }
  }

  lemma StrictPrefixRejected(c: Cipher, history: seq<Sealing>, e: Sealing, passphrase: string, s: bytes)
    requires Ideal(c, history) && Honest(history) && e in history
    requires s < Envelope(c, e)
    ensures Decrypted(c, passphrase, s).outcome != Accepted
  {
    if |s| >= HEADER_SIZE {
      EnvelopeCarriesSalt(c, e, Envelope(c, e));
      assert s[5..HEADER_SIZE] == Envelope(c, e)[5..HEADER_SIZE];
      AlteredRejected(c, history, e, passphrase, s);
    }
  }

  /** No stream that carries the salt of a run that broke off is accepted, under any passphrase. */
  lemma CutOffRejected(c: Cipher, history: seq<Sealing>, e: Sealing, passphrase: string, s: bytes)
    requires Ideal(c, history) && Honest(history) && e in history && e.extent.CutOff? && CarriesSalt(e, s)
    ensures Decrypted(c, passphrase, s).outcome != Accepted
  {
    hide Decrypted, Ideal, Envelope;
    if Decrypted(c, passphrase, s).outcome == Accepted {
      var d := AcceptedHasOwner(c, history, passphrase, s);
      EnvelopeCarriesSalt(c, d, s);
    }
  }

  /** What an encryption that failed left in an empty sink is rejected under every passphrase. With a source that
      breaks off no footer is sealed. */
  lemma FailedRunRejected(c: Cipher, history: seq<Sealing>, e: Sealing, passphrase: string,
                          limit: Option<nat>, left: bytes, broken: bool, ok: bool)
    requires Ideal(c, history) && Honest(history) && e in history
    requires BackupCrypto.Landed(limit, [], left, BackupCrypto.Goal(c, e, broken), ok)
    requires (broken || !ok) && (broken ==> e.extent.CutOff?)
    ensures Decrypted(c, passphrase, left).outcome != Accepted
  {
    hide Ideal, Honest, Envelope, Decrypted, BackupCrypto.Landed;
    GoalInEnvelope(c, e, broken);
    LandedPrefix(limit, left, BackupCrypto.Goal(c, e, broken), ok);
    if !broken {
      StrictPrefixRejected(c, history, e, passphrase, left);
    } else if |left| < HEADER_SIZE {
      TooShort(c, passphrase, left);
    } else {
      PrefixCarriesSalt(c, history, e, left);
      CutOffRejected(c, history, e, passphrase, left);
    }
  }

  lemma GoalInEnvelope(c: Cipher, e: Sealing, broken: bool)
    ensures BackupCrypto.Goal(c, e, broken) <= Envelope(c, e) && BackupCrypto.Goal(c, e, false) == Envelope(c, e)
  {
    hide Records, FooterRecord, Header, Sealing.ChunkCount;
  }

  lemma LandedPrefix(limit: Option<nat>, left: bytes, goal: bytes, ok: bool)
    requires BackupCrypto.Landed(limit, [], left, goal, ok)
    ensures left <= goal && (!ok ==> left < goal)
  {}

  lemma TooShort(c: Cipher, passphrase: string, s: bytes)
    requires |s| < HEADER_SIZE
    ensures Decrypted(c, passphrase, s).outcome != Accepted
  {}

  lemma PrefixCarriesSalt(c: Cipher, history: seq<Sealing>, e: Sealing, s: bytes)
    requires Honest(history) && e in history && s <= Envelope(c, e) && |s| >= HEADER_SIZE
    ensures CarriesSalt(e, s)
  {
    hide Envelope;
    EnvelopeCarriesSalt(c, e, Envelope(c, e));
    assert s[5..HEADER_SIZE] == Envelope(c, e)[5..HEADER_SIZE];
  }

  /** A wrong passphrase gives the same error as damage, and writes nothing. */
  lemma WrongPassphraseRejected(c: Cipher, history: seq<Sealing>, e: Sealing, passphrase: string)
    requires Ideal(c, history) && Honest(history) && e in history
    requires passphrase != "" && passphrase != e.passphrase
    ensures Decrypted(c, passphrase, Envelope(c, e)) == Decryption(InvalidFormat, [])
  {
    hide Ideal, ReadRecords, Records, FooterRecord, Sealing.ChunkCount;
    var s := Envelope(c, e);
    EnvelopeParts(c, e, []);
    assert s + [] == s;
    HeaderOwner(c, e, s, Records(c, e, e.ChunkCount()) + (FooterRecord(c, e) + []));
    forall d <- history ensures !Owns(d, passphrase, s) {
      if d.salt == e.salt { assert d == e; }
    }
    ForeignKeyRejected(c, history, passphrase, s);
    RecordOutcomes(c, Key(passphrase, e.salt), Progress(s[HEADER_SIZE..], 0, []));
  }

  /** Each error has its cause: no passphrase, a header that is short or has other magic bytes, another version; any
      other stream is accepted or invalid. */
  lemma ErrorCauses(c: Cipher, passphrase: string, s: bytes)
    ensures var r := Decrypted(c, passphrase, s).outcome;
            && (r == EmptyPassphrase <==> passphrase == "")
            && (r == UnsupportedVersion <==>
                passphrase != "" && |s| >= 21 && s[..4] == [0x4E, 0x42, 0x42, 0x4B] && s[4] != 2)
            && (passphrase != "" && (|s| < 21 || s[..4] != [0x4E, 0x42, 0x42, 0x4B]) ==> r == InvalidFormat)
  {
    hide ReadRecords;
    if passphrase != "" && |s| >= HEADER_SIZE {
      RecordOutcomes(c, Key(passphrase, s[5..HEADER_SIZE]), Progress(s[HEADER_SIZE..], 0, []));
    }
  }

  /** An envelope begins with the magic bytes, the version and the salt. */
  lemma EnvelopeStarts(c: Cipher, e: Sealing)
    requires |e.salt| == SALT_SIZE
    ensures |Envelope(c, e)| >= 21
    ensures Envelope(c, e)[..5] == [0x4E, 0x42, 0x42, 0x4B, 2] && Envelope(c, e)[5..21] == e.salt
  {
    hide Records, FooterRecord, Sealing.ChunkCount;
    var s := Envelope(c, e);
    EnvelopeParts(c, e, []);
    assert s + [] == s;
    HeaderOwner(c, e, s, Records(c, e, e.ChunkCount()) + (FooterRecord(c, e) + []));
  }

  /** A record that announces more than 2^20 bytes is refused whatever the cipher. */
  lemma OversizeRefused(c: Cipher, key: Key, p: Progress)
    requires |p.rest| >= 4 && FromBigEndian(p.rest[..4]) > 0x10_0000
    ensures ReadRecord(c, key, p) == Stop(InvalidFormat)
  {
    hide FromBigEndian;
  }

  lemma {:induction false} RecordOutcomes(c: Cipher, key: Key, p: Progress)
    ensures ReadRecords(c, key, p).outcome in {Accepted, InvalidFormat}
    decreases |p.rest|
  {
    match ReadRecord(c, key, p)
    case Stop(outcome) =>
    case Next(q) => RecordOutcomes(c, key, q);
  }

  /** Accepted or not, a stream carrying an honest salt has only whole chunks of that plaintext written. */
  lemma WritesWholeChunks(c: Cipher, history: seq<Sealing>, e: Sealing, passphrase: string, s: bytes)
    requires Ideal(c, history) && Honest(history) && e in history && CarriesSalt(e, s)
    ensures exists k: nat :: k <= e.ChunkCount() && Decrypted(c, passphrase, s).written == ChunkPrefix(e, k)
  {
    hide Ideal, ReadRecords, Records, FooterRecord, Sealing.ChunkCount, ChunkPrefix;
    ChunkPrefixNext(e, 0);
    if e.passphrase == passphrase && s[..4] == MAGIC && s[4] == VERSION {
      NothingReadYet(c, e, s[HEADER_SIZE..]);
      OnTrackResult(c, history, e, s[HEADER_SIZE..], Progress(s[HEADER_SIZE..], 0, []));
    } else if e.passphrase != passphrase {
      forall d <- history ensures !Owns(d, passphrase, s) {
        if d.salt == e.salt { assert d == e; }
      }
      ForeignKeyRejected(c, history, passphrase, s);
      assert Decrypted(c, passphrase, s).written == ChunkPrefix(e, 0);
    } else {
      assert Decrypted(c, passphrase, s).written == ChunkPrefix(e, 0);
    }
  }

  lemma {:induction false} RecordsLength(c: Cipher, history: seq<Sealing>, e: Sealing, k: nat)
    requires Ideal(c, history) && Honest(history) && e in history && k <= e.ChunkCount()
    ensures |Records(c, e, k)| == |ChunkPrefix(e, k)| + 32 * k
  {
    hide Ideal, ChunkPrefix, Sealing.Chunk, Sealing.ChunkCount;
    if k == 0 {
      ChunkPrefixNext(e, 0);
    } else {
      RecordsLength(c, history, e, k - 1);
      ChunkPrefixNext(e, k - 1);
      ChunkLength(c, history, e, k - 1);
    }
  }

  lemma ChunkLength(c: Cipher, history: seq<Sealing>, e: Sealing, k: nat)
    requires Ideal(c, history) && Honest(history) && e in history && k < e.ChunkCount()
    ensures |ChunkRecord(c, e, k)| == |e.Chunk(k)| + 32
  {}

  lemma EnvelopeLength(c: Cipher, history: seq<Sealing>, e: Sealing)
    requires Ideal(c, history) && Honest(history) && e in history
    ensures |Envelope(c, e)| == 21 + |e.plain| + 32 * ((|e.plain| + CHUNK - 1) / CHUNK) + 40
  {
    RecordsLength(c, history, e, e.ChunkCount());
    ChunkPrefixNext(e, e.ChunkCount());
    assert |FooterRecord(c, e)| == 40;
  }

  /** The idealisation can be met: any length-preserving sealing that keeps plaintexts apart has such an `open`. */
  lemma IdealIsRealizable(seal: (Key, bytes, bytes, bytes) -> bytes, history: seq<Sealing>)
    requires forall k, n, p, a :: |seal(k, n, p, a)| == |p| + TAG_SIZE
    requires forall k, n, p, p', a :: seal(k, n, p, a) == seal(k, n, p', a) ==> p == p'
    ensures exists open :: Ideal(Cipher(seal, open), history)
  {
    hide SealedBy;
    var open := (k: Key, n: bytes, s: bytes, a: bytes) =>
      if exists p :: Sealed(history, k, n, p, a) && seal(k, n, p, a) == s
      then var p :| Sealed(history, k, n, p, a) && seal(k, n, p, a) == s; Some(p)
      else None;
    assert Ideal(Cipher(seal, open), history);
  }
}
