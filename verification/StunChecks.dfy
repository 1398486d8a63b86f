/** The checks of the binding exchange written out (section 7.3.3 of RFC 5389), and every outcome by its cause. */
module StunChecks {
  import opened Wrappers
  import opened Bytes
  import opened StunAttributes
  import opened StunLaws
  import opened StunBind

  const V4_IN_V6: bytes := [0, 0, 0, 0, 0, 0, 0, 0, 0, 0, 0xff, 0xff]

  /** Equal addresses, or an IPv4 address and its form in sixteen bytes. */
  predicate SameIp(a: bytes, b: bytes)
  {
    a == b || (|a| == 4 && b == V4_IN_V6 + a) || (|b| == 4 && a == V4_IN_V6 + b)
  }

  lemma SameEndpointIff(a: Address, b: Address)
    ensures SameEndpoint(a, b) <==> SameIp(a.ip, b.ip) && a.port == b.port
  {
    hide SameIp;
    CanonicalIff(a.ip, b.ip);
  }

  lemma CanonicalIff(a: bytes, b: bytes)
    ensures Canonical(a) == Canonical(b) <==> SameIp(a, b)
  {
    CanonicalForm(a);
    CanonicalForm(b);
    hide Canonical;
  }

  lemma CanonicalForm(a: bytes)
    ensures Canonical(a) == a || (|Canonical(a)| == 4 && a == V4_IN_V6 + Canonical(a))
    ensures |a| == 4 ==> Canonical(a) == a && Canonical(V4_IN_V6 + a) == a
    ensures Canonical(a) == a && |a| == 16 ==> a[..12] != V4_IN_V6
  {
    if |a| == 16 {
      assert a == a[..12] + a[12..];
    }
    assert (V4_IN_V6 + a)[..12] == V4_IN_V6 && (V4_IN_V6 + a)[12..] == a;
  }

  lemma TwoBytes(b: bytes)
    requires |b| == 2
    ensures var high: nat := b[0]; var low: nat := b[1]; FromBigEndian(b) == 256 * high + low
  {
    assert b[..1] == [b[0]] && b[..1][..0] == [];
    assert FromBigEndian(b[..1]) == b[0];
  }

  /** The number of bytes a message announces behind its header. */
  function Announced(data: bytes): nat
    requires |data| >= 20
  {
    var high: nat := data[2];
    var low: nat := data[3];
    256 * high + low
  }

  function TypeOf(data: bytes): nat
    requires |data| >= 20
  {
    var high: nat := data[0];
    var low: nat := data[1];
    256 * high + low
  }

  lemma HeaderNumbers(data: bytes)
    requires |data| >= 20
    ensures FromBigEndian(data[2..4]) == Announced(data) && FromBigEndian(data[0..2]) == TypeOf(data)
  {
    hide FromBigEndian;
    TwoBytes(data[2..4]);
    TwoBytes(data[0..2]);
  }

  lemma AuthenticIff(crc: bytes -> nat, server: Address, tid: bytes, source: Address, data: bytes)
    ensures Authentic(crc, server, tid, source, data) <==>
            && SameIp(source.ip, server.ip) && source.port == server.port
            && |data| >= 20
            && data[4..8] == [0x21, 0x12, 0xA4, 0x42]
            && data[8..20] == tid
            && |data| >= 20 + Announced(data)
            && FingerprintOk(crc, data[..20 + Announced(data)])
  {
    hide FromBigEndian, FingerprintOk, SameIp, SameEndpoint, Announced;
    SameEndpointIff(source, server);
    if |data| >= 20 {
      HeaderNumbers(data);
    }
  }

  /** A datagram with another source, cookie or transaction, with fewer bytes than it announces, or with a FINGERPRINT
      out of order ends nothing: before the last attempt it is as good as silence, and after the last one there is no
      attempt left. */
  lemma ImproperSkipped(crc: bytes -> nat, server: Address, tid: bytes, script: seq<Attempt>, k: nat,
                        sent: nat, r: Outcome)
    requires |tid| == 12 && |script| == MAX_RETRIES && k < MAX_RETRIES && script[k].Received?
    requires var source, data := script[k].source, Truncated(script[k].datagram);
             || !SameIp(source.ip, server.ip) || source.port != server.port
             || |data| < 20
             || data[4..8] != [0x21, 0x12, 0xA4, 0x42]
             || data[8..20] != tid
             || |data| < 20 + Announced(data)
             || !FingerprintOk(crc, data[..20 + Announced(data)])
    ensures Concludes(crc, server, tid, script, sent, r) && sent == k + 1 ==> sent == MAX_RETRIES && r == Exhausted
    ensures k < MAX_RETRIES - 1 ==>
              (Concludes(crc, server, tid, script, sent, r) <==>
               Concludes(crc, server, tid, script[k := TimedOut], sent, r))
  {
    hide FromBigEndian, FingerprintOk, SameIp, Announced, Truncated, Authentic, Contents;
    AuthenticIff(crc, server, tid, script[k].source, Truncated(script[k].datagram));
    if k < MAX_RETRIES - 1 {
      var script' := script[k := TimedOut];
      if Concludes(crc, server, tid, script, sent, r) {
        Unheard(crc, server, tid, script, script', k, sent, r);
      }
      if Concludes(crc, server, tid, script', sent, r) {
        Unheard(crc, server, tid, script', script, k, sent, r);
      }
    }
  }

  /** Two attempts before the last that end nothing are as good as each other. */
  lemma Unheard(crc: bytes -> nat, server: Address, tid: bytes, script: seq<Attempt>, script': seq<Attempt>, k: nat,
                sent: nat, r: Outcome)
    requires |tid| == 12 && |script| == |script'| == MAX_RETRIES && k < MAX_RETRIES - 1
    requires forall j | 0 <= j < MAX_RETRIES && j != k :: script[j] == script'[j]
    requires Conclusion(crc, server, tid, script[k], false).None?
    requires Conclusion(crc, server, tid, script'[k], false).None?
    requires Concludes(crc, server, tid, script, sent, r)
    ensures Concludes(crc, server, tid, script', sent, r)
  {
    hide Conclusion;
  }

  /** Whenever a response ends the exchange, it came from the server and passed every check, and its type says which
      kind of outcome it is. */
  lemma FinalResponseChecked(crc: bytes -> nat, server: Address, tid: bytes, script: seq<Attempt>,
                             sent: nat, r: Outcome)
    requires |tid| == 12 && |script| == MAX_RETRIES && Concludes(crc, server, tid, script, sent, r)
    requires r.Mapped? || r.NoMappedAddress? || r.ServerError?
    ensures 0 < sent <= MAX_RETRIES && script[sent - 1].Received?
    ensures var source, data := script[sent - 1].source, Truncated(script[sent - 1].datagram);
            && SameIp(source.ip, server.ip) && source.port == server.port
            && |data| >= 20
            && data[4..8] == [0x21, 0x12, 0xA4, 0x42]
            && data[8..20] == tid
            && |data| >= 20 + Announced(data)
            && FingerprintOk(crc, data[..20 + Announced(data)])
            && TypeOf(data) == (if r.ServerError? then 0x0111 else 0x0101)
            && var p := Collected(Walk(data[20..20 + Announced(data)], 0), tid);
               match r
               case Mapped(addr) => p.mapped == Some(addr)
               case NoMappedAddress => p.mapped == None
               case _ => r == ServerError(p.error, p.alternate)
  {
    hide FromBigEndian, FingerprintOk, SameIp, Announced, TypeOf, Truncated, Authentic, Collected, Walk;
    var a := script[sent - 1];
    if a.Received? {
      var data := Truncated(a.datagram);
      AuthenticIff(crc, server, tid, a.source, data);
      if |data| >= 20 {
        HeaderNumbers(data);
        Body(data, Announced(data));
      }
    }
  }

  lemma Body(data: bytes, n: nat)
    ensures |data| >= 20 + n ==> data[..20 + n][20..] == data[20..20 + n]
  {}

  /** An answer to another transaction, for instance a late one to an earlier exchange on the same socket, is
      skipped, however well formed. */
  lemma LateAnswerSkipped(crc: bytes -> nat, server: Address, tid: bytes, other: bytes, ws: seq<Wire>, tail: bytes,
                          typ: nat, source: Address, script: seq<Attempt>, k: nat, sent: nat, r: Outcome)
    requires |tid| == |other| == 12 && other != tid && typ < 0x1_0000 && |EncodedAll(ws)| < 0x1_0000
    requires |script| == MAX_RETRIES && k < MAX_RETRIES
    requires script[k] == Received(source, Message(typ, other, ws) + tail)
    ensures Concludes(crc, server, tid, script, sent, r) && sent == k + 1 ==> sent == MAX_RETRIES && r == Exhausted
    ensures k < MAX_RETRIES - 1 ==>
              (Concludes(crc, server, tid, script, sent, r) <==>
               Concludes(crc, server, tid, script[k := TimedOut], sent, r))
  {
    hide FingerprintOk, SameIp, Announced, EncodedAll, HeaderBytes, Concludes;
    var h, body := HeaderBytes(typ, |EncodedAll(ws)|, other), EncodedAll(ws);
    HeaderFields(typ, |body|, other);
    assert Message(typ, other, ws) + tail == h + (body + tail);
    CutHeader(h, body + tail);
    ImproperSkipped(crc, server, tid, script, k, sent, r);
  }

  lemma CutHeader(h: bytes, rest: bytes)
    requires |h| == 20
    ensures |Truncated(h + rest)| >= 20 && Truncated(h + rest)[8..20] == h[8..20]
  {}

  /** When no attempt ends the exchange before its time, the last one names the reason. */
  lemma OutOfAttempts(crc: bytes -> nat, server: Address, tid: bytes, script: seq<Attempt>)
    requires |tid| == 12 && |script| == MAX_RETRIES
    requires forall k | 0 <= k < MAX_RETRIES :: Inconclusive(crc, server, tid, script[k])
    ensures Concludes(crc, server, tid, script, MAX_RETRIES,
                      match script[MAX_RETRIES - 1]
                      case WriteFailed => WriteError
                      case TimedOut => Timeout
                      case ReadFailed => ReadError
                      case _ => Exhausted)
  {
    hide FromBigEndian, Authentic, Contents, Truncated;
  }

  /** A deadline that cannot be set ends the exchange at once. */
  lemma DeadlineEnds(crc: bytes -> nat, server: Address, tid: bytes, script: seq<Attempt>, k: nat)
    requires |tid| == 12 && |script| == MAX_RETRIES && k < MAX_RETRIES && script[k] == DeadlineFailed
    requires forall j | 0 <= j < k :: Inconclusive(crc, server, tid, script[j])
    ensures Concludes(crc, server, tid, script, k + 1, DeadlineError)
  {
    hide FromBigEndian, Authentic, Contents, Truncated;
  }

  /** The read buffer holds 1500 bytes; what a datagram has beyond them is lost. */
  lemma TruncatedIs(datagram: bytes)
    ensures Truncated(datagram) == if |datagram| <= 1500 then datagram else datagram[..1500]
  {
    assert |datagram| <= 1500 ==> datagram[..|datagram|] == datagram;
  }

  // ---- Attributes ----

  /** Exactly the values of known family and sufficient length are addresses, and each is what an encoder writes for the
      address, but for the first byte and whatever follows. */
  lemma ParsedIsEncoded(value: bytes, xor: bool, tid: bytes)
    requires |tid| == 12
    ensures ParsedAddress(value, xor, tid).Some? <==>
            (|value| >= 8 && value[1] == 1) || (|value| >= 20 && value[1] == 2)
    ensures ParsedAddress(value, xor, tid).Some? ==>
              var addr := ParsedAddress(value, xor, tid).value;
              && |addr.ip| == (if value[1] == 1 then 4 else 16) && addr.port < 0x1_0000
              && value[1..4 + |addr.ip|] == EncodedAddress(addr, xor, tid)[1..]
  {
    hide FromBigEndian, BigEndian, Xor, XorBytes;
    if ParsedAddress(value, xor, tid).Some? {
      var addr := ParsedAddress(value, xor, tid).value;
      var n := if value[1] == 1 then 4 else 16;
      PortBack(value[2..4]);
      XorBytesTwice(value[4..4 + n], COOKIE + tid);
      XorShortKey(value[4..4 + n], tid);
      WithoutFirst(value, n, [0, value[1]], value[2..4], value[4..4 + n]);
    }
  }

  lemma WithoutFirst(value: bytes, n: nat, first: bytes, port: bytes, ip: bytes)
    requires |value| >= 4 + n && |first| == 2 && first[1] == value[1] && port == value[2..4] && ip == value[4..4 + n]
    ensures value[1..4 + n] == (first + port + ip)[1..]
  {}

  lemma PortBack(b: bytes)
    requires |b| == 2
    ensures var n := FromBigEndian(b);
            n < 0x1_0000 && Xor(n, PORT_MASK, 16) < 0x1_0000
            && BigEndian(n, 2) == b && BigEndian(Xor(Xor(n, PORT_MASK, 16), PORT_MASK, 16), 2) == b
  {
    hide Xor, FromBigEndian, BigEndian;
    WordSizes();
    BitWidths();
    FromBigEndianRoundTrip(b);
    XorTwice(FromBigEndian(b), PORT_MASK, 16);
  }

  /** Only the two address types carry a mapped address, only ERROR-CODE an error and only ALTERNATE-SERVER another
      server. */
  lemma OnlyKnownTypes(a: Attr, tid: bytes)
    requires |tid| == 12
    ensures MappedIn(a, tid) == if a.typ == 0x0001 then ParsedAddress(a.value, false, tid)
                                else if a.typ == 0x0020 then ParsedAddress(a.value, true, tid) else None
    ensures ErrorIn(a).Some? <==> a.typ == 0x0009 && |a.value| >= 4
    ensures AlternateIn(a, tid).Some? ==> a.typ == 0x8023
  {}

  /** Attributes before a truncated one count, the truncated one does not. */
  lemma {:induction false} WalkToTruncated(pre: bytes, ws: seq<Wire>, tail: bytes)
    requires AllWellFormed(ws) && |pre| % 4 == 0
    requires |tail| < 4 || FromBigEndian(tail[2..4]) > |tail| - 4
    ensures Walk(pre + (EncodedAll(ws) + tail), |pre|) == Items(ws, |pre|)
    decreases |ws|
  {
    hide Encoded, ItemAt, NextPos, FromBigEndian, AttrAt;
    var data := pre + (EncodedAll(ws) + tail);
    if ws == [] {
      assert data == pre + tail;
      Truncation(pre, tail);
    } else {
      assert EncodedAll(ws) + tail == Encoded(ws[0]) + (EncodedAll(ws[1..]) + tail);
      EncodedHead(pre, ws[0], EncodedAll(ws[1..]) + tail);
      var pre' := pre + Encoded(ws[0]);
      assert data == pre' + (EncodedAll(ws[1..]) + tail);
      WalkToTruncated(pre', ws[1..], tail);
    }
  }

  lemma Truncation(pre: bytes, tail: bytes)
    requires |tail| < 4 || FromBigEndian(tail[2..4]) > |tail| - 4
    ensures !AttrAt(pre + tail, |pre|)
  {
    hide FromBigEndian;
    assert |tail| >= 4 ==> (pre + tail)[|pre| + 2..|pre| + 4] == tail[2..4];
  }

  /** The sample of section 2.2 of RFC 5769: 192.0.2.1, port 32853. */
  lemma SampleAddress(tid: bytes)
    requires |tid| == 12
    ensures ParsedAddress([0x00, 0x01, 0xa1, 0x47, 0xe1, 0x12, 0xa6, 0x43], true, tid) ==
            Some(Address([192, 0, 2, 1], 32853))
  {
    hide Xor, FromBigEndian;
    var value: bytes := [0x00, 0x01, 0xa1, 0x47, 0xe1, 0x12, 0xa6, 0x43];
    TwoBytes(value[2..4]);
    SamplePort();
    SampleByte0();
    SampleByte1();
    SampleByte2();
    SampleByte3();
    assert value[2..4] == [0xa1, 0x47] && value[4..8] == [0xe1, 0x12, 0xa6, 0x43];
    assert XorBytes([0xe1, 0x12, 0xa6, 0x43], COOKIE) == [192, 0, 2, 1];
  }

  lemma SamplePort()
    ensures Xor(0xa147, PORT_MASK, 16) == 32853
  {
    hide Pow2;
    assert Xor(1, 0, 1) == 1 && Xor(2, 0, 2) == 2 && Xor(5, 1, 3) == 4 && Xor(10, 2, 4) == 8;
    assert Xor(20, 4, 5) == 16 && Xor(40, 8, 6) == 32 && Xor(80, 16, 7) == 64 && Xor(161, 33, 8) == 128;
    assert Xor(322, 66, 9) == 256 && Xor(645, 132, 10) == 513 && Xor(1290, 264, 11) == 1026;
    assert Xor(2580, 529, 12) == 2053 && Xor(5160, 1058, 13) == 4106 && Xor(10321, 2116, 14) == 8213;
    assert Xor(20643, 4233, 15) == 16426 && Xor(41287, 8466, 16) == 32853;
  }

  lemma SampleByte0()
    ensures Xor(0xe1, 0x21, 8) == 192
  {
    hide Pow2;
    assert Xor(1, 0, 1) == 1 && Xor(3, 0, 2) == 3 && Xor(7, 1, 3) == 6 && Xor(14, 2, 4) == 12;
    assert Xor(28, 4, 5) == 24 && Xor(56, 8, 6) == 48 && Xor(112, 16, 7) == 96 && Xor(225, 33, 8) == 192;
  }

  lemma SampleByte1()
    ensures Xor(0x12, 0x12, 8) == 0
  {
    hide Pow2;
    assert Xor(0, 0, 1) == 0 && Xor(0, 0, 2) == 0 && Xor(0, 0, 3) == 0 && Xor(1, 1, 4) == 0;
    assert Xor(2, 2, 5) == 0 && Xor(4, 4, 6) == 0 && Xor(9, 9, 7) == 0 && Xor(18, 18, 8) == 0;
  }

  lemma SampleByte2()
    ensures Xor(0xa6, 0xa4, 8) == 2
  {
    hide Pow2;
    assert Xor(1, 1, 1) == 0 && Xor(2, 2, 2) == 0 && Xor(5, 5, 3) == 0 && Xor(10, 10, 4) == 0;
    assert Xor(20, 20, 5) == 0 && Xor(41, 41, 6) == 0 && Xor(83, 82, 7) == 1 && Xor(166, 164, 8) == 2;
  }

  lemma SampleByte3()
    ensures Xor(0x43, 0x42, 8) == 1
  {
    hide Pow2;
    assert Xor(0, 0, 1) == 0 && Xor(1, 1, 2) == 0 && Xor(2, 2, 3) == 0 && Xor(4, 4, 4) == 0;
    assert Xor(8, 8, 5) == 0 && Xor(16, 16, 6) == 0 && Xor(33, 33, 7) == 0 && Xor(67, 66, 8) == 1;
  }

  // ---- Error responses ----

  /** An ERROR-CODE value (section 15.6): two reserved bytes, a byte whose low three bits are the class, the number
      and the reason. */
  function EncodedError(reserved: bytes, high: nat, kind: nat, number: byte, reason: bytes): (value: bytes)
    requires |reserved| == 2 && high < 32 && kind < 8
  {
    reserved + [8 * high + kind, number] + reason
  }

  /** The reserved bits do not matter; the code is a hundred times the class and the number. */
  lemma ErrorRoundTrip(reserved: bytes, high: nat, kind: nat, number: byte, reason: bytes)
    requires |reserved| == 2 && high < 32 && kind < 8
    ensures ErrorIn(Attr(0x0009, EncodedError(reserved, high, kind, number, reason))) ==
            Some(StunError(100 * kind + number, reason))
  {
    var value := EncodedError(reserved, high, kind, number, reason);
    assert |value| >= 4 && value[2] == 8 * high + kind && value[3] == number && value[4..] == reason;
    LowBits(high, kind);
  }

  lemma LowBits(high: nat, kind: nat)
    requires kind < 8
    ensures (8 * high + kind) % 8 == kind
  {}

  /** The alternate server is decoded plain. */
  lemma AlternateRoundTrip(addr: Address, tid: bytes)
    requires |tid| == 12 && (|addr.ip| == 4 || |addr.ip| == 16) && addr.port < 0x1_0000
    ensures AlternateIn(Attr(0x8023, EncodedAddress(addr, false, tid)), tid) == Some(addr)
  {
    hide ParsedAddress, EncodedAddress;
    AddressRoundTrip(addr, false, tid);
  }

  lemma ErrorLast(items: seq<Item>, tid: bytes, i: nat)
    requires |tid| == 12 && i < |items| && ErrorIn(items[i].attr).Some?
    requires forall k | i < k < |items| :: ErrorIn(items[k].attr).None?
    ensures Collected(items, tid).error == ErrorIn(items[i].attr)
  {
    hide MappedIn, ErrorIn, AlternateIn, Collected;
    LastValueWins(items, tid);
    assert ErrorValues(items)[i].Some?;
  }

  lemma AlternateLast(items: seq<Item>, tid: bytes, i: nat)
    requires |tid| == 12 && i < |items| && AlternateIn(items[i].attr, tid).Some?
    requires forall k | i < k < |items| :: AlternateIn(items[k].attr, tid).None?
    ensures Collected(items, tid).alternate == AlternateIn(items[i].attr, tid)
  {
    hide MappedIn, ErrorIn, AlternateIn, Collected;
    LastValueWins(items, tid);
    assert AlternateValues(items, tid)[i].Some?;
  }

  /** An honest error response ends the exchange with its code, reason and alternate server, up to its FINGERPRINT. */
  lemma HonestErrorReached(crc: bytes -> nat, server: Address, source: Address, tid: bytes, ws: seq<Wire>, tail: bytes,
                           i: nat, j: nat, kind: nat, number: byte, reason: bytes, alt: Address,
                           script: seq<Attempt>, k: nat)
    requires |tid| == 12 && AllWellFormed(ws) && SameEndpoint(source, server)
    requires 20 + |EncodedAll(ws)| <= BUFFER_SIZE
    requires kind < 8 && (|alt.ip| == 4 || |alt.ip| == 16) && alt.port < 0x1_0000
    requires i < |ws| && ws[i].attr == Attr(0x0009, EncodedError([0, 0], 0, kind, number, reason))
    requires j < |ws| && ws[j].attr == Attr(0x8023, EncodedAddress(alt, false, tid))
    requires forall n | i < n < |ws| :: ErrorIn(ws[n].attr).None?
    requires forall n | j < n < |ws| :: AlternateIn(ws[n].attr, tid).None?
    requires FingerprintOk(crc, Message(BINDING_ERROR, tid, ws))
    requires |script| == MAX_RETRIES && k < MAX_RETRIES
    requires forall n | 0 <= n < k :: Inconclusive(crc, server, tid, script[n])
    requires script[k] == Received(source, Message(BINDING_ERROR, tid, ws) + tail)
    ensures Concludes(crc, server, tid, script, k + 1,
                      ServerError(Some(StunError(100 * kind + number, reason)), Some(alt)))
  {
    hide FromBigEndian, FingerprintOk, Collected, Walk, Items, EncodedAll, AllWellFormed, SameEndpoint, Authentic,
         EncodedAddress, EncodedError, Truncated, Contents, ErrorIn, AlternateIn, Message;
    var msg := Message(BINDING_ERROR, tid, ws);
    MessageFits(tid, ws);
    TruncatedTail(msg, tail);
    var tail' :| Truncated(msg + tail) == msg + tail';
    MessageRead(crc, server, source, tid, BINDING_ERROR, ws, tail');
    ParseInvertsEncode(ws, tid);
    ErrorRoundTrip([0, 0], 0, kind, number, reason);
    AlternateRoundTrip(alt, tid);
    ErrorLast(Items(ws, 0), tid, i);
    AlternateLast(Items(ws, 0), tid, j);
  }

  lemma MessageFits(tid: bytes, ws: seq<Wire>)
    requires |tid| == 12
    ensures |Message(BINDING_ERROR, tid, ws)| == 20 + |EncodedAll(ws)|
  {
    hide EncodedAll;
  }
}
