/** The streaming encryption and decryption of backups. */
module BackupCrypto {
  import opened Wrappers
  import opened Bytes
  import opened Streams
  import opened Nbbk2

  datatype Error = Ok | Refused(outcome: Outcome) | SourceFailed | SinkFailed

  /** A sink that held `before` was sent `goal`: it took all of it, or ran full part-way. */
  predicate Landed(limit: Option<nat>, before: bytes, after: bytes, goal: bytes, ok: bool)
  {
    && (ok <==> limit.None? || |before| + |goal| <= limit.value)
    && (if ok then after == before + goal else before <= after < before + goal)
  }

  lemma LandedNext(limit: Option<nat>, d0: bytes, d1: bytes, d2: bytes, g1: bytes, g2: bytes, ok: bool)
    requires Landed(limit, d0, d1, g1, true) && Landed(limit, d1, d2, g2, ok)
    ensures Landed(limit, d0, d2, g1 + g2, ok)
  {
    assert d0 + g1 + g2 == d0 + (g1 + g2);
  }

  lemma LandedShort(limit: Option<nat>, d0: bytes, d1: bytes, part: bytes, goal: bytes)
    requires Landed(limit, d0, d1, part, false) && part <= goal
    ensures Landed(limit, d0, d1, goal, false)
  {
    assert d0 + part <= d0 + goal;
  }

  method WriteRecord(c: Cipher, dst: Writer, key: Key, len: nat, nonce: bytes, plain: bytes, aad: bytes)
    returns (ok: bool)
    requires dst.Valid()
    modifies dst
    ensures dst.Valid() && Landed(dst.limit, old(dst.data), dst.data, SealedRecord(c, key, len, nonce, plain, aad), ok)
  {
    var sealed := c.seal(key, nonce, plain, aad);
    ok := dst.Write(BigEndian(len, 4));
    if ok {
      ok := dst.Write(nonce);
    }
    if ok {
      ok := dst.Write(sealed);
    }
  }

  /** What a run over this source writes: no footer when the source breaks off. */
  ghost function Goal(c: Cipher, e: Sealing, broken: bool): bytes
  {
    if broken then Head(c, e, e.ChunkCount()) else Envelope(c, e)
  }

  /** Reading a whole buffer after `k` chunks yields the next chunk, or nothing at the end. */
  method FillBuffer(src: Reader, ghost e: Sealing, ghost k: nat) returns (buf: bytes, readErr: ReadError)
    requires k <= e.ChunkCount() && src.rest == e.Unread(k)
    modifies src
    ensures k < e.ChunkCount() ==> buf == e.Chunk(k) && src.rest == e.Unread(k + 1)
    ensures k == e.ChunkCount() ==> buf == [] && src.rest == e.Unread(k)
    ensures readErr != NoError ==> k + 1 >= e.ChunkCount() && (readErr == ReadFailed <==> src.broken)
    ensures k == e.ChunkCount() ==> readErr != NoError
  {
    buf, readErr := src.ReadFull(CHUNK);
  }

  lemma NothingRead(e: Sealing)
    ensures e.Unread(0) == e.plain
  {}

  lemma HeadNext(c: Cipher, e: Sealing, k: nat, buf: bytes)
    requires k < e.ChunkCount() && buf == e.Chunk(k)
    ensures Head(c, e, k + 1) ==
            Head(c, e, k) + SealedRecord(c, Key(e.passphrase, e.salt), |buf|, e.Nonce(k), buf, ChunkAad(k))
  {}

  lemma HeadFits(c: Cipher, e: Sealing, k: nat, broken: bool)
    requires k <= e.ChunkCount()
    ensures Head(c, e, 0) == Header(e.salt)
    ensures Head(c, e, k) <= Goal(c, e, broken)
  {
    RecordsGrow(c, e, k, e.ChunkCount());
  }

  lemma GoalReached(c: Cipher, e: Sealing)
    ensures Goal(c, e, true) == Head(c, e, e.ChunkCount())
    ensures var n := e.ChunkCount();
            Goal(c, e, false) == Head(c, e, n)
              + SealedRecord(c, Key(e.passphrase, e.salt), 0, e.Nonce(n), BigEndian(n, 8), ChunkAad(FOOTER_INDEX))
  {}

  method WriteHeader(c: Cipher, dst: Writer, salt: bytes, ghost e: Sealing, ghost broken: bool) returns (ok: bool)
    requires dst.Valid() && e.salt == salt
    modifies dst
    ensures dst.Valid()
    ensures Landed(dst.limit, old(dst.data), dst.data, if ok then Head(c, e, 0) else Goal(c, e, broken), ok)
  {
    hide Head, Goal, Sealing.ChunkCount;
    var header := MAGIC + [VERSION] + salt;
    HeadFits(c, e, 0, broken);
    ghost var before := dst.data;
    ok := dst.Write(header);
    if !ok {
      LandedShort(dst.limit, before, dst.data, header, Goal(c, e, broken));
    }
  }

  /** Writes record `index` after the header and the `index` records before it. */
  method WriteChunk(c: Cipher, dst: Writer, key: Key, nonce: bytes, plain: bytes, index: nat,
                    ghost e: Sealing, ghost before: bytes, ghost broken: bool)
    returns (ok: bool)
    requires dst.Valid() && index < e.ChunkCount()
    requires key == Key(e.passphrase, e.salt) && nonce == e.Nonce(index) && plain == e.Chunk(index)
    requires Landed(dst.limit, before, dst.data, Head(c, e, index), true)
    modifies dst
    ensures dst.Valid()
    ensures Landed(dst.limit, before, dst.data, if ok then Head(c, e, index + 1) else Goal(c, e, broken), ok)
  {
    hide Landed, Head, Goal, SealedRecord, ChunkAad, Sealing.ChunkCount, Sealing.Chunk;
    HeadNext(c, e, index, plain);
    HeadFits(c, e, index + 1, broken);
    ghost var d1 := dst.data;
    ok := WriteRecord(c, dst, key, |plain|, nonce, plain, ChunkAad(index));
    LandedNext(dst.limit, before, d1, dst.data, Head(c, e, index),
               SealedRecord(c, key, |plain|, nonce, plain, ChunkAad(index)), ok);
    if !ok {
      LandedShort(dst.limit, before, dst.data, Head(c, e, index + 1), Goal(c, e, broken));
    }
  }

  method WriteFooter(c: Cipher, dst: Writer, key: Key, nonce: bytes, chunkCount: nat,
                     ghost e: Sealing, ghost before: bytes)
    returns (ok: bool)
    requires dst.Valid() && chunkCount == e.ChunkCount()
    requires key == Key(e.passphrase, e.salt) && nonce == e.Nonce(chunkCount)
    requires Landed(dst.limit, before, dst.data, Head(c, e, chunkCount), true)
    modifies dst
    ensures dst.Valid() && Landed(dst.limit, before, dst.data, Goal(c, e, false), ok)
  {
    hide Landed, Head, Goal, SealedRecord, ChunkAad, Sealing.ChunkCount;
    GoalReached(c, e);
    ghost var d1 := dst.data;
    var count := BigEndian(chunkCount, 8);
    ok := WriteRecord(c, dst, key, 0, nonce, count, ChunkAad(FOOTER_INDEX));
    LandedNext(dst.limit, before, d1, dst.data, Head(c, e, chunkCount),
               SealedRecord(c, key, 0, nonce, count, ChunkAad(FOOTER_INDEX)), ok);
  }

  /** What is written does not depend on how far the run will turn out to have got. */
  method EncryptStream(c: Cipher, dst: Writer, src: Reader, passphrase: string, salt: bytes, draws: seq<bytes>,
                       ghost extent: Extent)
    returns (r: Error)
    requires dst.Valid()
    modifies dst, src
    ensures dst.Valid()
    ensures passphrase == "" ==> r == Refused(EmptyPassphrase) && unchanged(dst, src)
    ensures passphrase != "" ==>
              var e := Sealing(passphrase, salt, draws, old(src.rest), extent);
              && Landed(dst.limit, old(dst.data), dst.data, Goal(c, e, src.broken), r != SinkFailed)
              && (r == SinkFailed || r == if src.broken then SourceFailed else Ok)
  {
    hide Landed, Head, Goal, Draw, Sealing.ChunkCount, Sealing.Chunk, Sealing.Unread;
    if passphrase == "" {
      return Refused(EmptyPassphrase);
    }
    ghost var e := Sealing(passphrase, salt, draws, src.rest, extent);
    ghost var before := dst.data;
    var key := Key(passphrase, salt);
    var ok := WriteHeader(c, dst, salt, e, src.broken);
    if !ok {
      return SinkFailed;
    }
    NothingRead(e);
    var index: nat := 0;
    var readErr := NoError;
    while readErr == NoError
      invariant dst.Valid() && index <= e.ChunkCount()
      invariant Landed(dst.limit, before, dst.data, Head(c, e, index), true)
      invariant src.rest == e.Unread(index)
      invariant readErr != NoError ==> index == e.ChunkCount() && (readErr == ReadFailed <==> src.broken)
      decreases e.ChunkCount() - index + (if readErr == NoError then 1 else 0)
    {
      var buf;
      buf, readErr := FillBuffer(src, e, index);
      if |buf| > 0 {
        ok := WriteChunk(c, dst, key, Draw(draws, index), buf, index, e, before, src.broken);
        if !ok {
          return SinkFailed;
        }
        index := index + 1;
      }
    }
    GoalReached(c, e);
    if readErr == ReadFailed {
      return SourceFailed;
    }
    ok := WriteFooter(c, dst, key, Draw(draws, index), index, e, before);
    return if ok then Ok else SinkFailed;
  }

  method ReadFooter(c: Cipher, key: Key, src: Reader, chunkCount: nat) returns (outcome: Outcome)
    modifies src
    ensures outcome == Nbbk2.ReadFooter(c, key, old(src.rest), chunkCount)
  {
    hide ChunkAad, FromBigEndian;
    var nonce, err := src.ReadFull(NONCE_SIZE);
    if err != NoError {
      return InvalidFormat;
    }
    var sealed;
    sealed, err := src.ReadFull(8 + TAG_SIZE);
    if err != NoError {
      return InvalidFormat;
    }
    var plain := c.open(key, nonce, sealed, ChunkAad(FOOTER_INDEX));
    if plain.None? || |plain.value| < 8 || FromBigEndian(plain.value[..8]) != chunkCount {
      return InvalidFormat;
    }
    return Accepted;
  }

  /** One turn of the reading loop, up to writing the decrypted chunk. */
  method ReadRecord(c: Cipher, key: Key, src: Reader, index: nat, ghost written: bytes)
    returns (stopped: bool, outcome: Outcome, plain: bytes)
    modifies src
    ensures Nbbk2.ReadRecord(c, key, Progress(old(src.rest), index, written)) ==
            if stopped then Stop(outcome)
            else Next(Progress(src.rest, (index + 1) % 0x1_0000_0000_0000_0000, written + plain))
  {
    hide ChunkAad, FromBigEndian, Nbbk2.ReadFooter;
    var lenBuf, err := src.ReadFull(4);
    if err != NoError {
      return true, InvalidFormat, [];
    }
    var plainLen := FromBigEndian(lenBuf);
    if plainLen == 0 {
      outcome := ReadFooter(c, key, src, index);
      return true, outcome, [];
    }
    if plainLen > CHUNK {
      return true, InvalidFormat, [];
    }
    var nonce;
    nonce, err := src.ReadFull(NONCE_SIZE);
    if err != NoError {
      return true, InvalidFormat, [];
    }
    var sealed;
    sealed, err := src.ReadFull(plainLen + TAG_SIZE);
    if err != NoError {
      return true, InvalidFormat, [];
    }
    var chunk := c.open(key, nonce, sealed, ChunkAad(index));
    if chunk.None? {
      return true, InvalidFormat, [];
    }
    return false, InvalidFormat, chunk.value;
  }

  lemma FullSinkStays(c: Cipher, key: Key, p: Progress, limit: Option<nat>, before: bytes, after: bytes)
    requires Landed(limit, before, after, p.written, false)
    ensures Landed(limit, before, after, ReadRecords(c, key, p).written, false)
  {
    LandedShort(limit, before, after, p.written, ReadRecords(c, key, p).written);
  }

  lemma NothingSent(dst: Writer)
    requires dst.Valid()
    ensures Landed(dst.limit, dst.data, dst.data, [], true)
  {}

  method DecryptRecords(c: Cipher, dst: Writer, src: Reader, key: Key) returns (r: Error)
    requires dst.Valid()
    modifies dst, src
    ensures dst.Valid()
    ensures var d := ReadRecords(c, key, Progress(old(src.rest), 0, []));
            && Landed(dst.limit, old(dst.data), dst.data, d.written, r != SinkFailed)
            && (r == SinkFailed || r == if d.outcome == Accepted then Ok else Refused(d.outcome))
  {
    hide Landed, Nbbk2.ReadRecord;
    ghost var before := dst.data;
    ghost var p := Progress(src.rest, 0, []);
    ghost var d := ReadRecords(c, key, p);
    NothingSent(dst);
    var index: nat := 0;
    while true
      invariant dst.Valid()
      invariant p.rest == src.rest && p.index == index && ReadRecords(c, key, p) == d
      invariant Landed(dst.limit, before, dst.data, p.written, true)
      decreases |src.rest|
    {
      var stopped, outcome, plain := ReadRecord(c, key, src, index, p.written);
      if stopped {
        return if outcome == Accepted then Ok else Refused(outcome);
      }
      ghost var d1 := dst.data;
      var ok := WriteBytes(dst, plain);
      LandedNext(dst.limit, before, d1, dst.data, p.written, plain, ok);
      index := (index + 1) % 0x1_0000_0000_0000_0000;
      p := Progress(src.rest, index, p.written + plain);
      if !ok {
        FullSinkStays(c, key, p, dst.limit, before, dst.data);
        return SinkFailed;
      }
    }
  }

  method WriteBytes(dst: Writer, p: bytes) returns (ok: bool)
    requires dst.Valid()
    modifies dst
    ensures dst.Valid() && Landed(dst.limit, old(dst.data), dst.data, p, ok)
  {
    ok := dst.Write(p);
  }

  method DecryptStream(c: Cipher, dst: Writer, src: Reader, passphrase: string) returns (r: Error)
    requires dst.Valid()
    modifies dst, src
    ensures dst.Valid()
    ensures var d := Decrypted(c, passphrase, old(src.rest));
            && Landed(dst.limit, old(dst.data), dst.data, d.written, r != SinkFailed)
            && (r == SinkFailed || r == if d.outcome == Accepted then Ok else Refused(d.outcome))
  {
    hide Landed, ReadRecords, Nbbk2.ReadRecord;
    ghost var before := dst.data;
    NothingSent(dst);
    if passphrase == "" {
      return Refused(EmptyPassphrase);
    }
    var header, err := src.ReadFull(HEADER_SIZE);
    if err != NoError {
      return Refused(InvalidFormat);
    }
    if header[..4] != MAGIC {
      return Refused(InvalidFormat);
    }
    if header[4] != VERSION {
      return Refused(UnsupportedVersion);
    }
    r := DecryptRecords(c, dst, src, Key(passphrase, header[5..]));
  }

  /** In-memory encryption; the outcome does not depend on the pieces the source reads in. */
  method Encrypt(c: Cipher, plain: bytes, pieces: seq<nat>, passphrase: string, salt: bytes, draws: seq<bytes>)
    returns (r: Error, envelope: bytes)
    ensures passphrase == "" ==> r == Refused(EmptyPassphrase) && envelope == []
    ensures passphrase != "" ==> r == Ok && envelope == Envelope(c, Sealing(passphrase, salt, draws, plain, Whole))
  {
    var out := new Writer(None);
    var src := new Reader(plain, pieces, false);
    r := EncryptStream(c, out, src, passphrase, salt, draws, Whole);
    envelope := if r == Ok then out.data else [];
  }

  /** In-memory decryption; a refused envelope yields no plaintext. */
  method Decrypt(c: Cipher, envelope: bytes, pieces: seq<nat>, passphrase: string) returns (r: Error, plain: bytes)
    ensures var d := Decrypted(c, passphrase, envelope);
            if d.outcome == Accepted then r == Ok && plain == d.written else r == Refused(d.outcome) && plain == []
  {
    hide Decrypted;
    var out := new Writer(None);
    var src := new Reader(envelope, pieces, false);
    r := DecryptStream(c, out, src, passphrase);
    plain := if r == Ok then out.data else [];
  }
}
