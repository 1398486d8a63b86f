/** STUN attributes (section 15 of RFC 5389): type, length, value and padding to four bytes. */
module StunAttributes {
  import opened Wrappers
  import opened Bytes

  const MAPPED_ADDRESS := 0x0001
  const ERROR_CODE := 0x0009
  const XOR_MAPPED_ADDRESS := 0x0020
  const ALTERNATE_SERVER := 0x8023
  const FINGERPRINT := 0x8028
  const COOKIE: bytes := [0x21, 0x12, 0xA4, 0x42]
  const PORT_MASK := 0x2112
  const FINGERPRINT_MASK := 0x5354554e

  // ---- Exclusive or ----

  function Pow2(bits: nat): (p: nat)
    ensures p > 0
  {
    if bits == 0 then 1 else 2 * Pow2(bits - 1)
  }

  /** Exclusive or of the low `bits` bits. */
  function Xor(a: nat, b: nat, bits: nat): (r: nat)
    ensures r < Pow2(bits)
  {
    if bits == 0 then 0 else (a + b) % 2 + 2 * Xor(a / 2, b / 2, bits - 1)
  }

  lemma Parity(a: nat, b: nat)
    ensures ((a + b) % 2 + b) % 2 == a % 2
  {}

  lemma XorUnfold(bit: nat, x: nat, b: nat, bits: nat)
    requires bit < 2 && bits > 0
    ensures Xor(bit + 2 * x, b, bits) == (bit + b) % 2 + 2 * Xor(x, b / 2, bits - 1)
  {
    hide Xor, Pow2;
    XorStep(bit + 2 * x, b, bits);
    Halves(bit, x, b);
  }

  lemma XorNone(a: nat, b: nat)
    ensures Xor(a, b, 0) == 0
  {}

  lemma XorStep(a: nat, b: nat, bits: nat)
    requires bits > 0
    ensures Xor(a, b, bits) == (a + b) % 2 + 2 * Xor(a / 2, b / 2, bits - 1)
  {
    hide Pow2;
  }

  lemma Halves(bit: nat, x: nat, b: nat)
    requires bit < 2
    ensures (bit + 2 * x) / 2 == x && (bit + 2 * x + b) % 2 == (bit + b) % 2
  {}

  lemma {:induction false} XorTwice(a: nat, b: nat, bits: nat)
    requires a < Pow2(bits)
    ensures Xor(Xor(a, b, bits), b, bits) == a
  {
    hide Xor;
    if bits == 0 {
      XorNone(Xor(a, b, 0), b);
    } else {
      XorStep(a, b, bits);
      XorUnfold((a + b) % 2, Xor(a / 2, b / 2, bits - 1), b, bits);
      Parity(a, b);
      XorTwice(a / 2, b / 2, bits - 1);
    }
  }

  /** Bit `k` of a number, counted from the lowest. */
  function Bit(n: nat, k: nat): nat
  {
    if k == 0 then n % 2 else Bit(n / 2, k - 1)
  }

  /** Each bit is the exclusive or of the bits of the operands. */
  lemma {:induction false} XorBit(a: nat, b: nat, bits: nat, k: nat)
    requires k < bits
    ensures Bit(Xor(a, b, bits), k) == if Bit(a, k) == Bit(b, k) then 0 else 1
  {
    hide Xor, Pow2;
    var low, high := (a + b) % 2, Xor(a / 2, b / 2, bits - 1);
    XorStep(a, b, bits);
    Halves(low, high, 0);
    if k > 0 {
      XorBit(a / 2, b / 2, bits - 1, k - 1);
    }
  }

  lemma BitWidths()
    ensures Pow2(8) == 0x100 && Pow2(16) == 0x1_0000 && Pow2(32) == 0x1_0000_0000
  {
    assert Pow2(4) == 16 && Pow2(8) == 0x100;
    assert Pow2(12) == 0x1000 && Pow2(16) == 0x1_0000;
    assert Pow2(20) == 0x10_0000 && Pow2(24) == 0x100_0000;
    assert Pow2(28) == 0x1000_0000 && Pow2(32) == 0x1_0000_0000;
  }

  function XorByte(a: byte, b: byte): byte
  {
    BitWidths();
    Xor(a, b, 8)
  }

  function XorBytes(a: bytes, key: bytes): (r: bytes)
    requires |a| <= |key|
    ensures |r| == |a| && forall i | 0 <= i < |a| :: r[i] == XorByte(a[i], key[i])
  {
    seq(|a|, i requires 0 <= i < |a| => XorByte(a[i], key[i]))
  }

  lemma XorBytesTwice(a: bytes, key: bytes)
    requires |a| <= |key|
    ensures XorBytes(XorBytes(a, key), key) == a
  {
    BitWidths();
    forall i | 0 <= i < |a| ensures XorBytes(XorBytes(a, key), key)[i] == a[i] {
      XorTwice(a[i], key[i], 8);
    }
  }

  // ---- Addresses ----

  datatype Address = Address(ip: bytes, port: nat)

  /** What a MAPPED-ADDRESS style value decodes to (sections 15.1, 15.2 and 15.11). */
  function ParsedAddress(value: bytes, xor: bool, tid: bytes): Option<Address>
    requires |tid| == 12
  {
    if |value| < 4 then None
    else
      var port := FromBigEndian(value[2..4]);
      var port' := if xor then Xor(port, PORT_MASK, 16) else port;
      if value[1] == 1 && |value| >= 8 then
        Some(Address(if xor then XorBytes(value[4..8], COOKIE) else value[4..8], port'))
      else if value[1] == 2 && |value| >= 20 then
        Some(Address(if xor then XorBytes(value[4..20], COOKIE + tid) else value[4..20], port'))
      else None
  }

  method ParseAddressValue(value: bytes, xor: bool, tid: bytes) returns (r: Option<Address>)
    requires |tid| == 12
    ensures r == ParsedAddress(value, xor, tid)
  {
    if |value| < 4 {
      return None;
    }
    var family := value[1];
    var port: nat := FromBigEndian(value[2..4]);
    if family == 1 {
      if |value| < 8 {
        return None;
      }
      var ip := value[4..8];
      if xor {
        port := Xor(port, PORT_MASK, 16);
        ip := [XorByte(value[4], COOKIE[0]), XorByte(value[5], COOKIE[1]),
               XorByte(value[6], COOKIE[2]), XorByte(value[7], COOKIE[3])];
        assert ip == XorBytes(value[4..8], COOKIE);
      }
      return Some(Address(ip, port));
    } else if family == 2 {
      if |value| < 20 {
        return None;
      }
      var addr := new byte[16](i requires 0 <= i < 16 && |value| >= 20 => value[4 + i]);
      assert addr[..] == value[4..20];
      if xor {
        port := Xor(port, PORT_MASK, 16);
        XorInPlace(addr, COOKIE + tid);
      }
      return Some(Address(addr[..], port));
    }
    return None;
  }

  method XorInPlace(a: array<byte>, key: bytes)
    requires a.Length <= |key|
    modifies a
    ensures a[..] == XorBytes(old(a[..]), key)
  {
    for i := 0 to a.Length
      invariant forall k | 0 <= k < i :: a[k] == XorByte(old(a[k]), key[k])
      invariant forall k | i <= k < a.Length :: a[k] == old(a[k])
    {
      a[i] := XorByte(a[i], key[i]);
    }
  }

  /** The value a server sends for `addr`. */
  function EncodedAddress(addr: Address, xor: bool, tid: bytes): (value: bytes)
    requires |tid| == 12 && (|addr.ip| == 4 || |addr.ip| == 16) && addr.port < 0x1_0000
    ensures |value| == 4 + |addr.ip|
  {
    var port := if xor then Xor(addr.port, PORT_MASK, 16) else addr.port;
    var ip := if xor then XorBytes(addr.ip, COOKIE + tid) else addr.ip;
    [0, if |addr.ip| == 4 then 1 else 2] + BigEndian(port, 2) + ip
  }

  lemma PortRoundTrip(port: nat)
    requires port < 0x1_0000
    ensures FromBigEndian(BigEndian(port, 2)) == port
    ensures Xor(port, PORT_MASK, 16) < 0x1_0000
    ensures Xor(FromBigEndian(BigEndian(Xor(port, PORT_MASK, 16), 2)), PORT_MASK, 16) == port
  {
    WordSizes();
    BitWidths();
    hide Xor, FromBigEndian, BigEndian, Pow2, Pow256;
    BigEndianRoundTrip(port, 2);
    BigEndianRoundTrip(Xor(port, PORT_MASK, 16), 2);
    XorTwice(port, PORT_MASK, 16);
  }

  lemma AddressLayout(family: byte, port: bytes, ip: bytes)
    requires |port| == 2
    ensures var value := [0, family] + port + ip;
            |value| == 4 + |ip| && value[1] == family && value[2..4] == port && value[4..4 + |ip|] == ip
  {}

  lemma XorShortKey(ip: bytes, tid: bytes)
    requires |ip| <= |COOKIE + tid|
    ensures |ip| == 4 ==> XorBytes(ip, COOKIE) == XorBytes(ip, COOKIE + tid)
  {}

  /** Decoding undoes encoding, for IPv4 and IPv6, plain and XORed. */
  lemma AddressRoundTrip(addr: Address, xor: bool, tid: bytes)
    requires |tid| == 12 && (|addr.ip| == 4 || |addr.ip| == 16) && addr.port < 0x1_0000
    ensures ParsedAddress(EncodedAddress(addr, xor, tid), xor, tid) == Some(addr)
  {
    hide Xor, FromBigEndian, BigEndian, XorBytes, XorByte;
    var port := if xor then Xor(addr.port, PORT_MASK, 16) else addr.port;
    var ip := if xor then XorBytes(addr.ip, COOKIE + tid) else addr.ip;
    PortRoundTrip(addr.port);
    AddressLayout(if |addr.ip| == 4 then 1 else 2, BigEndian(port, 2), ip);
    XorBytesTwice(addr.ip, COOKIE + tid);
    XorShortKey(ip, tid);
  }

  // ---- The attribute list ----

  datatype Attr = Attr(typ: nat, value: bytes)

  datatype Item = Item(pos: nat, attr: Attr)

  function RoundUp(n: nat): (m: nat)
    ensures n <= m < n + 4 && m % 4 == 0
  {
    if n % 4 == 0 then n else n + (4 - n % 4)
  }

  /** Whether a whole attribute starts at `pos`. */
  predicate AttrAt(data: bytes, pos: nat)
  {
    pos + 4 <= |data| && FromBigEndian(data[pos + 2..pos + 4]) <= |data| - (pos + 4)
  }

  function ItemAt(data: bytes, pos: nat): Item
    requires AttrAt(data, pos)
  {
    var len := FromBigEndian(data[pos + 2..pos + 4]);
    Item(pos, Attr(FromBigEndian(data[pos..pos + 2]), data[pos + 4..pos + 4 + len]))
  }

  function NextPos(data: bytes, pos: nat): (next: nat)
    requires AttrAt(data, pos)
    ensures next >= pos + 4
  {
    RoundUp(pos + 4 + FromBigEndian(data[pos + 2..pos + 4]))
  }

  /** The attributes from `pos` on, up to the end or the first truncated one. */
  function Walk(data: bytes, pos: nat): seq<Item>
    decreases |data| - pos
  {
    if AttrAt(data, pos) then [ItemAt(data, pos)] + Walk(data, NextPos(data, pos)) else []
  }

  datatype StunError = StunError(code: nat, reason: bytes)

  datatype Parsed = Parsed(mapped: Option<Address>, error: Option<StunError>, alternate: Option<Address>)

  function MappedIn(a: Attr, tid: bytes): Option<Address>
    requires |tid| == 12
  {
    if a.typ == MAPPED_ADDRESS then ParsedAddress(a.value, false, tid)
    else if a.typ == XOR_MAPPED_ADDRESS then ParsedAddress(a.value, true, tid)
    else None
  }

  /** Class and number of an ERROR-CODE value (section 15.6). */
  function ErrorNumber(value: bytes): nat
    requires |value| >= 4
  {
    var kind: nat := value[2];
    var number: nat := value[3];
    kind % 8 * 100 + number
  }

  function ErrorIn(a: Attr): Option<StunError>
  {
    if a.typ == ERROR_CODE && |a.value| >= 4
    then Some(StunError(ErrorNumber(a.value), a.value[4..])) else None
  }

  function AlternateIn(a: Attr, tid: bytes): Option<Address>
    requires |tid| == 12
  {
    if a.typ == ALTERNATE_SERVER then ParsedAddress(a.value, false, tid) else None
  }

  function OrElse<T>(later: Option<T>, earlier: Option<T>): Option<T>
  {
    if later.Some? then later else earlier
  }

  /** What one attribute contributes. */
  function Contribution(a: Attr, tid: bytes): Parsed
    requires |tid| == 12
  {
    Parsed(MappedIn(a, tid), ErrorIn(a), AlternateIn(a, tid))
  }

  /** `later` overrides `r` wherever it says something. */
  function Then(r: Parsed, later: Parsed): Parsed
  {
    Parsed(OrElse(later.mapped, r.mapped), OrElse(later.error, r.error), OrElse(later.alternate, r.alternate))
  }

  /** The last mapped, error and alternate-server values of an attribute list. */
  function Collected(items: seq<Item>, tid: bytes): Parsed
    requires |tid| == 12
  {
    if items == [] then Parsed(None, None, None)
    else Then(Contribution(items[0].attr, tid), Collected(items[1..], tid))
  }

  lemma WalkStep(data: bytes, pos: nat, r: Parsed, tid: bytes)
    requires |tid| == 12
    ensures if AttrAt(data, pos)
            then Then(r, Collected(Walk(data, pos), tid)) ==
                 Then(Then(r, Contribution(ItemAt(data, pos).attr, tid)),
                      Collected(Walk(data, NextPos(data, pos)), tid))
            else Then(r, Collected(Walk(data, pos), tid)) == r
  {
    if AttrAt(data, pos) {
      var rest := Walk(data, NextPos(data, pos));
      assert Walk(data, pos) == [ItemAt(data, pos)] + rest && Walk(data, pos)[1..] == rest;
    }
  }

  method ApplyAttribute(r: Parsed, attrType: nat, value: bytes, tid: bytes) returns (r': Parsed)
    requires |tid| == 12
    ensures r' == Then(r, Contribution(Attr(attrType, value), tid))
  {
    hide ParsedAddress;
    r' := r;
    if attrType == MAPPED_ADDRESS {
      var addr := ParseAddressValue(value, false, tid);
      if addr.Some? {
        r' := r'.(mapped := addr);
      }
    } else if attrType == XOR_MAPPED_ADDRESS {
      var addr := ParseAddressValue(value, true, tid);
      if addr.Some? {
        r' := r'.(mapped := addr);
      }
    } else if attrType == ERROR_CODE {
      if |value| >= 4 {
        r' := r'.(error := Some(StunError(ErrorNumber(value), value[4..])));
      }
    } else if attrType == ALTERNATE_SERVER {
      var addr := ParseAddressValue(value, false, tid);
      if addr.Some? {
        r' := r'.(alternate := addr);
      }
    }
  }

  method ParseAttributes(data: bytes, tid: bytes) returns (r: Parsed)
    requires |tid| == 12
    ensures r == Collected(Walk(data, 0), tid)
  {
    hide Contribution, Then, Collected, Walk, FromBigEndian;
    r := Parsed(None, None, None);
    NothingYet(Collected(Walk(data, 0), tid));
    var pos: nat := 0;
    while pos + 4 <= |data|
      invariant Then(r, Collected(Walk(data, pos), tid)) == Collected(Walk(data, 0), tid)
      decreases |data| - pos
    {
      WalkStep(data, pos, r, tid);
      var attrType := FromBigEndian(data[pos..pos + 2]);
      var attrLen := FromBigEndian(data[pos + 2..pos + 4]);
      var valuePos := pos + 4;
      if attrLen > |data| - valuePos {
        return;
      }
      r := ApplyAttribute(r, attrType, data[valuePos..valuePos + attrLen], tid);
      pos := valuePos + attrLen;
      if pos % 4 != 0 {
        pos := pos + (4 - pos % 4);
      }
    }
    WalkStep(data, pos, r, tid);
  }

  lemma NothingYet(p: Parsed)
    ensures Then(Parsed(None, None, None), p) == p
  {}

  // ---- FINGERPRINT (section 15.5) ----

  function FirstFingerprint(items: seq<Item>): Option<nat>
  {
    if items == [] then None
    else if items[0].attr.typ == FINGERPRINT then Some(items[0].pos)
    else FirstFingerprint(items[1..])
  }

  /** Offset in the packet of the first FINGERPRINT attribute the attribute walk meets, or -1. */
  function OffsetOfFingerprint(pkt: bytes): (off: int)
    ensures off == -1 || 20 <= off
  {
    if |pkt| < 24 then -1
    else match FirstFingerprint(Walk(pkt[20..], 0)) case None => -1 case Some(pos) => 20 + pos
  }

  lemma FingerprintStep(body: bytes, pos: nat)
    ensures FirstFingerprint(Walk(body, pos)) ==
            if !AttrAt(body, pos) then None
            else if ItemAt(body, pos).attr.typ == FINGERPRINT then Some(pos)
            else FirstFingerprint(Walk(body, NextPos(body, pos)))
  {
    if AttrAt(body, pos) {
      assert Walk(body, pos)[1..] == Walk(body, NextPos(body, pos));
    }
  }

  method FingerprintOffset(pkt: bytes) returns (off: int)
    ensures off == OffsetOfFingerprint(pkt)
  {
    hide FirstFingerprint, Walk, FromBigEndian;
    if |pkt| < 24 {
      return -1;
    }
    var body := pkt[20..];
    var pos: nat := 0;
    while pos + 4 <= |body|
      invariant FirstFingerprint(Walk(body, pos)) == FirstFingerprint(Walk(body, 0))
      decreases |body| - pos
    {
      FingerprintStep(body, pos);
      var attrType := FromBigEndian(body[pos..pos + 2]);
      var attrLen := FromBigEndian(body[pos + 2..pos + 4]);
      var valuePos := pos + 4;
      if attrLen > |body| - valuePos {
        return -1;
      }
      if attrType == FINGERPRINT {
        return 20 + pos;
      }
      pos := valuePos + attrLen;
      if pos % 4 != 0 {
        pos := pos + (4 - pos % 4);
      }
    }
    FingerprintStep(body, pos);
    return -1;
  }

  /** The checksum is a parameter; `crc` stands for CRC-32. */
  predicate FingerprintOk(crc: bytes -> nat, pkt: bytes)
  {
    var off := OffsetOfFingerprint(pkt);
    off < 0 ||
    (off + 8 == |pkt| && Xor(crc(pkt[..off]), FINGERPRINT_MASK, 32) == FromBigEndian(pkt[off + 4..off + 8]))
  }

  method ValidFingerprint(crc: bytes -> nat, pkt: bytes) returns (ok: bool)
    ensures ok == FingerprintOk(crc, pkt)
  {
    hide OffsetOfFingerprint, Xor, FromBigEndian;
    var off := FingerprintOffset(pkt);
    if off < 0 {
      return true;
    }
    if off + 8 != |pkt| {
      return false;
    }
    var want := Xor(crc(pkt[..off]), FINGERPRINT_MASK, 32);
    var got := FromBigEndian(pkt[off + 4..off + 8]);
    return want == got;
  }
}
