/** The NBBK2 backup format: what an envelope is, and what reading one amounts to. */
module Nbbk2 {
  import opened Wrappers
  import opened Bytes

  const MAGIC: bytes := [0x4e, 0x42, 0x42, 0x4b]  // "NBBK"
  const VERSION: byte := 2
  const SALT_SIZE := 16
  const NONCE_SIZE := 12
  const TAG_SIZE := 16
  const CHUNK := 0x10_0000
  const FOOTER_INDEX := 0xffff_ffff_ffff_ffff
  const HEADER_SIZE := 21

  /** Key derivation is idealised: two keys are equal only for equal passphrase and salt. */
  datatype Key = Key(passphrase: string, salt: bytes)

  /** The authenticated cipher: `seal(key, nonce, plain, aad)` and `open(key, nonce, sealed, aad)`. */
  datatype Cipher = Cipher(
    seal: (Key, bytes, bytes, bytes) -> bytes,
    open: (Key, bytes, bytes, bytes) -> Option<bytes>)

  // ---- Writing ----

  function Draw(draws: seq<bytes>, i: nat): bytes
  {
    if i < |draws| then draws[i] else seq(NONCE_SIZE, _ => 0)
  }

  /** How far a run got before its source or its sink failed: it sealed all its records, or some chunks only. */
  datatype Extent = Whole | CutOff(chunks: nat)

  /** One run of the encryption: its inputs, its random draws and how far it got. */
  datatype Sealing = Sealing(passphrase: string, salt: bytes, draws: seq<bytes>, plain: bytes, extent: Extent)
  {
    predicate SealsChunk(i: nat) { i < ChunkCount() && (extent.Whole? || i < extent.chunks) }

    function DerivedKey(): Key { Key(passphrase, salt) }

    /** The `i`-th nonce drawn; a list of draws that is too short is continued with zeros. */
    function Nonce(i: nat): bytes { Draw(draws, i) }

    function ChunkCount(): nat { (|plain| + CHUNK - 1) / CHUNK }

    /** What is left to read after `k` chunks. */
    function Unread(k: nat): bytes { plain[Min(k * CHUNK, |plain|)..] }

    function Chunk(i: nat): (c: bytes)
      requires i < ChunkCount()
      ensures 0 < |c| <= CHUNK
    {
      plain[i * CHUNK..Min((i + 1) * CHUNK, |plain|)]
    }
  }

  function Header(salt: bytes): bytes { MAGIC + [VERSION] + salt }

  function ChunkAad(index: nat): bytes { MAGIC + [VERSION] + BigEndian(index, 8) }

  function SealedRecord(c: Cipher, key: Key, len: nat, nonce: bytes, plain: bytes, aad: bytes): bytes
  {
    BigEndian(len, 4) + nonce + c.seal(key, nonce, plain, aad)
  }

  function ChunkRecord(c: Cipher, e: Sealing, i: nat): bytes
    requires i < e.ChunkCount()
  {
    SealedRecord(c, e.DerivedKey(), |e.Chunk(i)|, e.Nonce(i), e.Chunk(i), ChunkAad(i))
  }

  function FooterRecord(c: Cipher, e: Sealing): bytes
  {
    var n := e.ChunkCount();
    SealedRecord(c, e.DerivedKey(), 0, e.Nonce(n), BigEndian(n, 8), ChunkAad(FOOTER_INDEX))
  }

  /** The first `k` data records. */
  function Records(c: Cipher, e: Sealing, k: nat): bytes
    requires k <= e.ChunkCount()
  {
    if k == 0 then [] else Records(c, e, k - 1) + ChunkRecord(c, e, k - 1)
  }

  /** The header and the first `k` data records. */
  function Head(c: Cipher, e: Sealing, k: nat): bytes
    requires k <= e.ChunkCount()
  {
    Header(e.salt) + Records(c, e, k)
  }

  function Envelope(c: Cipher, e: Sealing): bytes
  {
    Head(c, e, e.ChunkCount()) + FooterRecord(c, e)
  }

  lemma {:induction false} RecordsGrow(c: Cipher, e: Sealing, k: nat, n: nat)
    requires k <= n <= e.ChunkCount()
    ensures Records(c, e, k) <= Records(c, e, n)
    ensures Head(c, e, k) <= Head(c, e, n)
  {
    if k < n {
      RecordsGrow(c, e, k, n - 1);
    }
  }

  // ---- Reading ----

  datatype Outcome = Accepted | EmptyPassphrase | InvalidFormat | UnsupportedVersion

  /** The reading loop between two records. */
  datatype Progress = Progress(rest: bytes, index: nat, written: bytes)

  datatype Turn = Next(progress: Progress) | Stop(outcome: Outcome)

  function ReadFooter(c: Cipher, key: Key, r: bytes, index: nat): Outcome
  {
    if |r| < NONCE_SIZE + 8 + TAG_SIZE then InvalidFormat
    else
      match c.open(key, r[..NONCE_SIZE], r[NONCE_SIZE..][..8 + TAG_SIZE], ChunkAad(FOOTER_INDEX))
      case None => InvalidFormat
      case Some(plain) =>
        if |plain| >= 8 && FromBigEndian(plain[..8]) == index then Accepted else InvalidFormat
  }

  /** One turn of the reading loop; the record index is a 64-bit counter. */
  function ReadRecord(c: Cipher, key: Key, p: Progress): (t: Turn)
    ensures t.Next? ==> |t.progress.rest| < |p.rest|
    ensures t.Next? ==> p.written <= t.progress.written
  {
    if |p.rest| < 4 then Stop(InvalidFormat)
    else
      var n := FromBigEndian(p.rest[..4]);
      var r := p.rest[4..];
      if n == 0 then Stop(ReadFooter(c, key, r, p.index))
      else if n > CHUNK || |r| < NONCE_SIZE + n + TAG_SIZE then Stop(InvalidFormat)
      else
        match c.open(key, r[..NONCE_SIZE], r[NONCE_SIZE..][..n + TAG_SIZE], ChunkAad(p.index))
        case None => Stop(InvalidFormat)
        case Some(plain) =>
          Next(Progress(r[NONCE_SIZE..][n + TAG_SIZE..], (p.index + 1) % 0x1_0000_0000_0000_0000, p.written + plain))
  }

  datatype Decryption = Decryption(outcome: Outcome, written: bytes)

  function ReadRecords(c: Cipher, key: Key, p: Progress): (d: Decryption)
    ensures p.written <= d.written
    decreases |p.rest|
  {
    match ReadRecord(c, key, p)
    case Stop(outcome) => Decryption(outcome, p.written)
    case Next(q) => ReadRecords(c, key, q)
  }

  /** Outcome of decrypting stream `s`, and everything written to the sink on the way. */
  function Decrypted(c: Cipher, passphrase: string, s: bytes): Decryption
  {
    if passphrase == "" then Decryption(EmptyPassphrase, [])
    else if |s| < HEADER_SIZE || s[..4] != MAGIC then Decryption(InvalidFormat, [])
    else if s[4] != VERSION then Decryption(UnsupportedVersion, [])
    else ReadRecords(c, Key(passphrase, s[5..HEADER_SIZE]), Progress(s[HEADER_SIZE..], 0, []))
  }
}
