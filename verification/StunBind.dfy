/** The STUN binding exchange: at most three requests, each answered by an arbitrary event. */
module StunBind {
  import opened Wrappers
  import opened Bytes
  import opened StunAttributes
  import opened StunLaws

  const BINDING_RESPONSE := 0x0101
  const BINDING_ERROR := 0x0111
  const MAGIC_COOKIE := 0x2112A442
  const MAX_RETRIES := 3
  const BUFFER_SIZE := 1500

  /** What the socket does with one request and the read after it. */
  datatype Attempt =
    | WriteFailed
    | DeadlineFailed
    | TimedOut
    | ReadFailed
    | Received(source: Address, datagram: bytes)

  datatype Outcome =
    | Mapped(addr: Address)
    | NoMappedAddress
    | ServerError(error: Option<StunError>, alternate: Option<Address>)
    | WriteError
    | DeadlineError
    | ReadError
    | Timeout
    | Exhausted

  /** The four-byte form of an IPv4 address held in sixteen bytes. */
  function Canonical(ip: bytes): bytes
  {
    if |ip| == 16 && ip[..12] == [0, 0, 0, 0, 0, 0, 0, 0, 0, 0, 0xff, 0xff] then ip[12..] else ip
  }

  predicate SameEndpoint(a: Address, b: Address)
  {
    Canonical(a.ip) == Canonical(b.ip) && a.port == b.port
  }

  function Truncated(datagram: bytes): bytes
  {
    datagram[..Min(|datagram|, BUFFER_SIZE)]
  }

  datatype Header = Header(typ: nat, length: nat, cookie: nat, tid: bytes)

  function ParseHeader(data: bytes): (h: Option<Header>)
    ensures h.None? <==> |data| < 20
  {
    if |data| < 20 then None
    else Some(Header(FromBigEndian(data[0..2]), FromBigEndian(data[2..4]), FromBigEndian(data[4..8]), data[8..20]))
  }

  /** Section 7.3.3 of RFC 5389: the answer comes from the server that was asked, echoes the cookie and the
      transaction, holds as many bytes as it announces, and its FINGERPRINT is in order. */
  predicate Authentic(crc: bytes -> nat, server: Address, tid: bytes, source: Address, data: bytes)
  {
    && SameEndpoint(source, server)
    && |data| >= 20
    && data[4..8] == COOKIE
    && data[8..20] == tid
    && |data| >= 20 + FromBigEndian(data[2..4])
    && FingerprintOk(crc, data[..20 + FromBigEndian(data[2..4])])
  }

  /** What the attributes of an authentic message say. */
  function Contents(data: bytes, tid: bytes): Parsed
    requires |tid| == 12 && |data| >= 20 && |data| >= 20 + FromBigEndian(data[2..4])
  {
    Collected(Walk(data[..20 + FromBigEndian(data[2..4])][20..], 0), tid)
  }

  /** What a datagram makes of the exchange; nothing, unless it is an authentic final response. */
  function Reply(crc: bytes -> nat, server: Address, tid: bytes, source: Address, data: bytes): Option<Outcome>
    requires |tid| == 12
  {
    if !Authentic(crc, server, tid, source, data) then None
    else if FromBigEndian(data[0..2]) == BINDING_ERROR then
      Some(ServerError(Contents(data, tid).error, Contents(data, tid).alternate))
    else if FromBigEndian(data[0..2]) == BINDING_RESPONSE then
      Some(if Contents(data, tid).mapped.Some? then Mapped(Contents(data, tid).mapped.value) else NoMappedAddress)
    else None
  }

  /** How an attempt ends the exchange, if it does. */
  function Conclusion(crc: bytes -> nat, server: Address, tid: bytes, a: Attempt, last: bool): Option<Outcome>
    requires |tid| == 12
  {
    match a
    case WriteFailed => if last then Some(WriteError) else None
    case DeadlineFailed => Some(DeadlineError)
    case TimedOut => if last then Some(Timeout) else None
    case ReadFailed => if last then Some(ReadError) else None
    case Received(source, datagram) => Reply(crc, server, tid, source, Truncated(datagram))
  }

  predicate Silent(crc: bytes -> nat, server: Address, tid: bytes, script: seq<Attempt>, n: nat)
    requires |tid| == 12 && n <= |script|
  {
    forall k | 0 <= k < n :: Conclusion(crc, server, tid, script[k], k == MAX_RETRIES - 1).None?
  }

  /** After `sent` requests the first conclusive attempt decided the outcome, or there was none. */
  predicate Concludes(crc: bytes -> nat, server: Address, tid: bytes, script: seq<Attempt>, sent: nat, r: Outcome)
    requires |tid| == 12 && |script| == MAX_RETRIES
  {
    && 0 < sent <= MAX_RETRIES
    && Silent(crc, server, tid, script, sent - 1)
    && match Conclusion(crc, server, tid, script[sent - 1], sent == MAX_RETRIES)
       case Some(o) => r == o
       case None => sent == MAX_RETRIES && r == Exhausted
  }

  lemma CookieBytes(b: bytes)
    requires |b| == 4
    ensures FromBigEndian(b) == MAGIC_COOKIE <==> b == COOKIE
  {
    FromBigEndianRoundTrip(b);
    FromBigEndianRoundTrip(COOKIE);
    assert FromBigEndian(COOKIE[..1]) == 0x21;
    assert COOKIE[..2][..1] == COOKIE[..1] && FromBigEndian(COOKIE[..2]) == 0x2112;
    assert COOKIE[..3][..2] == COOKIE[..2] && FromBigEndian(COOKIE[..3]) == 0x2112A4;
    assert FromBigEndian(COOKIE) == MAGIC_COOKIE;
  }

  /** Each of the up to three attempts is what the socket did; `sent` counts the requests. */
  method StunBind(crc: bytes -> nat, server: Address, tid: bytes, script: seq<Attempt>)
      returns (r: Outcome, sent: nat)
    requires |tid| == 12 && |script| == MAX_RETRIES
    ensures Concludes(crc, server, tid, script, sent, r)
  {
    hide Reply, Truncated;
    sent := 0;
    for attempt := 0 to MAX_RETRIES
      invariant sent == attempt && Silent(crc, server, tid, script, attempt)
    {
      var event := script[attempt];
      sent := sent + 1;
      if event.WriteFailed? {
        if attempt == MAX_RETRIES - 1 {
          return WriteError, sent;
        }
        continue;
      }
      if event.DeadlineFailed? {
        return DeadlineError, sent;
      }
      if event.TimedOut? {
        if attempt < MAX_RETRIES - 1 {
          continue;
        }
        return Timeout, sent;
      }
      if event.ReadFailed? {
        if attempt == MAX_RETRIES - 1 {
          return ReadError, sent;
        }
        continue;
      }
      var reply := HandleDatagram(crc, server, tid, event.source, Truncated(event.datagram));
      if reply.Some? {
        return reply.value, sent;
      }
    }
    return Exhausted, sent;
  }

  method HandleDatagram(crc: bytes -> nat, server: Address, tid: bytes, source: Address, data: bytes)
      returns (reply: Option<Outcome>)
    requires |tid| == 12
    ensures reply == Reply(crc, server, tid, source, data)
  {
    hide FromBigEndian, FingerprintOk, Collected, Walk, Canonical;
    if !SameEndpoint(source, server) {
      return None;
    }
    var header := ParseHeader(data);
    if header == None {
      return None;
    }
    var hdr := header.value;
    CookieBytes(data[4..8]);
    if hdr.cookie != MAGIC_COOKIE || hdr.tid != tid {
      return None;
    }
    var msgLen := hdr.length;
    if |data| < 20 + msgLen {
      return None;
    }
    var pkt := data[..20 + msgLen];
    var ok := ValidFingerprint(crc, pkt);
    if !ok {
      return None;
    }
    var body := pkt[20..];
    if hdr.typ == BINDING_ERROR {
      var p := ParseAttributes(body, tid);
      return Some(ServerError(p.error, p.alternate));
    } else if hdr.typ == BINDING_RESPONSE {
      var p := ParseAttributes(body, tid);
      if p.mapped == None {
        return Some(NoMappedAddress);
      }
      return Some(Mapped(p.mapped.value));
    }
    return None;
  }

  // ---- What the exchange can return ----

  lemma ConclusionUnique(crc: bytes -> nat, server: Address, tid: bytes, script: seq<Attempt>,
                         sent: nat, r: Outcome, sent': nat, r': Outcome)
    requires |tid| == 12 && |script| == MAX_RETRIES
    requires Concludes(crc, server, tid, script, sent, r) && Concludes(crc, server, tid, script, sent', r')
    ensures sent == sent' && r == r'
  {
    hide Conclusion;
  }

  /** An authentic success response carrying `addr`. */
  predicate Answers(crc: bytes -> nat, server: Address, tid: bytes, a: Attempt, addr: Address)
    requires |tid| == 12
  {
    && a.Received?
    && var data := Truncated(a.datagram);
       && Authentic(crc, server, tid, a.source, data)
       && FromBigEndian(data[0..2]) == BINDING_RESPONSE
       && Contents(data, tid).mapped == Some(addr)
  }

  /** Attempt `k` gives the exchange no reason to stop: nothing arrived, or what did is not an authentic final
      response. */
  predicate Inconclusive(crc: bytes -> nat, server: Address, tid: bytes, a: Attempt)
    requires |tid| == 12
  {
    match a
    case DeadlineFailed => false
    case Received(source, datagram) =>
      var data := Truncated(datagram);
      Authentic(crc, server, tid, source, data) ==>
        FromBigEndian(data[0..2]) != BINDING_RESPONSE && FromBigEndian(data[0..2]) != BINDING_ERROR
    case _ => true
  }

  /** An address is returned exactly when one of the first three attempts brings an authentic success response
      carrying it and none before it ends the exchange: a forged datagram never yields an address. */
  lemma MappedIff(crc: bytes -> nat, server: Address, tid: bytes, script: seq<Attempt>, sent: nat, addr: Address)
    requires |tid| == 12 && |script| == MAX_RETRIES
    ensures Concludes(crc, server, tid, script, sent, Mapped(addr)) <==>
            && 0 < sent <= MAX_RETRIES
            && Answers(crc, server, tid, script[sent - 1], addr)
            && forall k | 0 <= k < sent - 1 :: Inconclusive(crc, server, tid, script[k])
  {
    hide FromBigEndian, Authentic, Contents, Truncated;
  }

  /** What forgers send in place of what other forgers sent does not change the outcome. */
  lemma ForgeriesIgnored(crc: bytes -> nat, server: Address, tid: bytes, script: seq<Attempt>, script': seq<Attempt>,
                         sent: nat, r: Outcome)
    requires |tid| == 12 && |script| == |script'| == MAX_RETRIES
    requires forall k | 0 <= k < MAX_RETRIES ::
               || script[k] == script'[k]
               || (script[k].Received? && script'[k].Received? &&
                   Inconclusive(crc, server, tid, script[k]) && Inconclusive(crc, server, tid, script'[k]))
    requires Concludes(crc, server, tid, script, sent, r)
    ensures Concludes(crc, server, tid, script', sent, r)
  {
    hide FromBigEndian, Authentic, Contents, Truncated;
  }

  // ---- What an honest server sends ----

  function HeaderBytes(typ: nat, length: nat, tid: bytes): (h: bytes)
    requires |tid| == 12
    ensures |h| == 20
  {
    BigEndian(typ, 2) + BigEndian(length, 2) + COOKIE + tid
  }

  function Message(typ: nat, tid: bytes, ws: seq<Wire>): bytes
    requires |tid| == 12
  {
    HeaderBytes(typ, |EncodedAll(ws)|, tid) + EncodedAll(ws)
  }

  lemma HeaderFields(typ: nat, length: nat, tid: bytes)
    requires |tid| == 12 && typ < 0x1_0000 && length < 0x1_0000
    ensures var h := HeaderBytes(typ, length, tid);
            FromBigEndian(h[0..2]) == typ && FromBigEndian(h[2..4]) == length && h[4..8] == COOKIE && h[8..20] == tid
  {
    WordSizes();
    BigEndianRoundTrip(typ, 2);
    BigEndianRoundTrip(length, 2);
    hide BigEndian, FromBigEndian;
    Slices(BigEndian(typ, 2), BigEndian(length, 2), COOKIE, tid);
  }

  lemma Slices(typ: bytes, length: bytes, cookie: bytes, tid: bytes)
    requires |typ| == |length| == 2 && |cookie| == 4 && |tid| == 12
    ensures var h := typ + length + cookie + tid;
            h[0..2] == typ && h[2..4] == length && h[4..8] == cookie && h[8..20] == tid
  {}

  lemma Prefixed(h: bytes, rest: bytes, from: nat, to: nat)
    requires from <= to <= |h|
    ensures (h + rest)[from..to] == h[from..to]
  {}

  lemma TruncatedTail(msg: bytes, tail: bytes)
    requires |msg| <= BUFFER_SIZE
    ensures exists tail' :: Truncated(msg + tail) == msg + tail'
  {
    assert Truncated(msg + tail) == msg + Truncated(msg + tail)[|msg|..];
  }

  /** A well-formed message from the server is authentic exactly when its FINGERPRINT is in order, whatever
      follows it in the datagram, and then its contents are what was put in. */
  lemma MessageRead(crc: bytes -> nat, server: Address, source: Address, tid: bytes, typ: nat, ws: seq<Wire>,
                    tail: bytes)
    requires |tid| == 12 && typ < 0x1_0000 && AllWellFormed(ws) && |EncodedAll(ws)| < 0x1_0000
    requires SameEndpoint(source, server)
    ensures var data := Message(typ, tid, ws) + tail;
            && (Authentic(crc, server, tid, source, data) <==> FingerprintOk(crc, Message(typ, tid, ws)))
            && |data| >= 20 + |EncodedAll(ws)| && FromBigEndian(data[2..4]) == |EncodedAll(ws)|
            && FromBigEndian(data[0..2]) == typ
            && Contents(data, tid) == Collected(Items(ws, 0), tid)
  {
    hide FromBigEndian, FingerprintOk, Collected, Walk, Items, HeaderBytes, EncodedAll, AllWellFormed, SameEndpoint;
    var body := EncodedAll(ws);
    var h := HeaderBytes(typ, |body|, tid);
    HeaderFields(typ, |body|, tid);
    ParseInvertsEncode(ws, tid);
    assert h + body + tail == h + (body + tail);
    Prefixed(h, body + tail, 0, 2);
    Prefixed(h, body + tail, 2, 4);
    Prefixed(h, body + tail, 4, 8);
    Prefixed(h, body + tail, 8, 20);
    assert (h + body + tail)[..20 + |body|] == h + body;
    assert (h + body)[20..] == body;
  }

  /** The mapped address of a list is its last one. */
  lemma {:induction false} MappedLast(items: seq<Item>, tid: bytes, i: nat)
    requires |tid| == 12 && i < |items| && MappedIn(items[i].attr, tid).Some?
    requires forall j | i < j < |items| :: MappedIn(items[j].attr, tid).None?
    ensures Collected(items, tid).mapped == MappedIn(items[i].attr, tid)
  {
    hide MappedIn, ErrorIn, AlternateIn;
    LastValueWins(items, tid);
    var values := MappedValues(items, tid);
    assert values[i].Some?;
  }

  /** An honest success response reaches the client: whatever other attributes surround it, the address the
      server put in its last address attribute is returned, unless a FINGERPRINT is out of order. */
  lemma HonestResponseAnswers(crc: bytes -> nat, server: Address, source: Address, tid: bytes, ws: seq<Wire>,
                              tail: bytes, i: nat, addr: Address, xor: bool)
    requires |tid| == 12 && AllWellFormed(ws) && SameEndpoint(source, server)
    requires 20 + |EncodedAll(ws)| <= BUFFER_SIZE
    requires (|addr.ip| == 4 || |addr.ip| == 16) && addr.port < 0x1_0000
    requires i < |ws|
    requires ws[i].attr == Attr(if xor then XOR_MAPPED_ADDRESS else MAPPED_ADDRESS, EncodedAddress(addr, xor, tid))
    requires forall j | i < j < |ws| :: MappedIn(ws[j].attr, tid).None?
    ensures Answers(crc, server, tid, Received(source, Message(BINDING_RESPONSE, tid, ws) + tail), addr) <==>
            FingerprintOk(crc, Message(BINDING_RESPONSE, tid, ws))
  {
    hide FromBigEndian, FingerprintOk, Collected, Walk, Items, EncodedAll, AllWellFormed, SameEndpoint, Authentic,
         ParsedAddress, EncodedAddress, Truncated, Contents;
    var msg := Message(BINDING_RESPONSE, tid, ws);
    TruncatedTail(msg, tail);
    var tail' :| Truncated(msg + tail) == msg + tail';
    MessageRead(crc, server, source, tid, BINDING_RESPONSE, ws, tail');
    ParseInvertsEncode(ws, tid);
    AddressRoundTrip(addr, xor, tid);
    MappedLast(Items(ws, 0), tid, i);
  }

  /** So behind any inconclusive attempts the honest answer is what the exchange returns. */
  lemma HonestServerReached(crc: bytes -> nat, server: Address, source: Address, tid: bytes, ws: seq<Wire>, tail: bytes,
                            i: nat, addr: Address, xor: bool, script: seq<Attempt>, k: nat)
    requires |tid| == 12 && AllWellFormed(ws) && SameEndpoint(source, server)
    requires 20 + |EncodedAll(ws)| <= BUFFER_SIZE
    requires (|addr.ip| == 4 || |addr.ip| == 16) && addr.port < 0x1_0000
    requires i < |ws|
    requires ws[i].attr == Attr(if xor then XOR_MAPPED_ADDRESS else MAPPED_ADDRESS, EncodedAddress(addr, xor, tid))
    requires forall j | i < j < |ws| :: MappedIn(ws[j].attr, tid).None?
    requires FingerprintOk(crc, Message(BINDING_RESPONSE, tid, ws))
    requires |script| == MAX_RETRIES && k < MAX_RETRIES
    requires forall j | 0 <= j < k :: Inconclusive(crc, server, tid, script[j])
    requires script[k] == Received(source, Message(BINDING_RESPONSE, tid, ws) + tail)
    ensures Concludes(crc, server, tid, script, k + 1, Mapped(addr))
  {
    hide FromBigEndian, FingerprintOk, EncodedAll, AllWellFormed, SameEndpoint, Message, EncodedAddress, Inconclusive,
         Answers, Concludes, MappedIn;
    HonestResponseAnswers(crc, server, source, tid, ws, tail, i, addr, xor);
    MappedIff(crc, server, tid, script, k + 1, addr);
  }
}
