/** Parsing STUN attributes inverts encoding them, and a message is accepted exactly when its
    FINGERPRINT, if any, is last and right. */
module StunLaws {
  import opened Wrappers
  import opened Bytes
  import opened StunAttributes

  // ---- Encoding ----

  /** An attribute on the wire: its padding may hold any bytes. */
  datatype Wire = Wire(attr: Attr, padding: bytes)

  predicate WellFormed(w: Wire)
  {
    w.attr.typ < 0x1_0000 && |w.attr.value| < 0x1_0000 && |w.padding| == RoundUp(|w.attr.value|) - |w.attr.value|
  }

  predicate AllWellFormed(ws: seq<Wire>) { forall i | 0 <= i < |ws| :: WellFormed(ws[i]) }

  function Encoded(w: Wire): bytes
  {
    BigEndian(w.attr.typ, 2) + BigEndian(|w.attr.value|, 2) + w.attr.value + w.padding
  }

  function EncodedAll(ws: seq<Wire>): bytes
  {
    if ws == [] then [] else Encoded(ws[0]) + EncodedAll(ws[1..])
  }

  function Items(ws: seq<Wire>, pos: nat): seq<Item>
  {
    if ws == [] then [] else [Item(pos, ws[0].attr)] + Items(ws[1..], pos + |Encoded(ws[0])|)
  }

  lemma EncodedFields(w: Wire)
    requires WellFormed(w)
    ensures var wire, n := Encoded(w), |w.attr.value|;
            && |wire| == 4 + RoundUp(n)
            && FromBigEndian(wire[0..2]) == w.attr.typ && FromBigEndian(wire[2..4]) == n
            && wire[4..4 + n] == w.attr.value
  {
    WordSizes();
    BigEndianRoundTrip(w.attr.typ, 2);
    BigEndianRoundTrip(|w.attr.value|, 2);
    hide BigEndian, FromBigEndian, Pow256;
    Fields(BigEndian(w.attr.typ, 2), BigEndian(|w.attr.value|, 2), w.attr.value, w.padding);
  }

  lemma Fields(typ: bytes, len: bytes, value: bytes, padding: bytes)
    requires |typ| == |len| == 2
    ensures var wire := typ + len + value + padding;
            && |wire| == 4 + |value| + |padding|
            && wire[0..2] == typ && wire[2..4] == len && wire[4..4 + |value|] == value
  {}

  lemma Shifted(pre: bytes, wire: bytes, tail: bytes, from: nat, to: nat)
    requires from <= to <= |wire|
    ensures (pre + (wire + tail))[|pre| + from..|pre| + to] == wire[from..to]
  {}

  lemma EncodedHead(pre: bytes, w: Wire, tail: bytes)
    requires WellFormed(w) && |pre| % 4 == 0
    ensures var data := pre + (Encoded(w) + tail);
            && AttrAt(data, |pre|)
            && ItemAt(data, |pre|) == Item(|pre|, w.attr)
            && NextPos(data, |pre|) == |pre| + |Encoded(w)|
    ensures |Encoded(w)| % 4 == 0 && |Encoded(w)| >= 4
  {
    hide Encoded, BigEndian, FromBigEndian;
    EncodedFields(w);
    Shifted(pre, Encoded(w), tail, 0, 2);
    Shifted(pre, Encoded(w), tail, 2, 4);
    Shifted(pre, Encoded(w), tail, 4, 4 + |w.attr.value|);
  }

  /** The walk over encoded attributes meets exactly these attributes, each where it was put. */
  lemma {:induction false} WalkEncoded(pre: bytes, ws: seq<Wire>)
    requires AllWellFormed(ws) && |pre| % 4 == 0
    ensures Walk(pre + EncodedAll(ws), |pre|) == Items(ws, |pre|)
    decreases |ws|
  {
    hide Encoded, AttrAt, ItemAt, NextPos;
    var data := pre + EncodedAll(ws);
    if ws == [] {
      NoAttrAtEnd(data);
    } else {
      EncodedHead(pre, ws[0], EncodedAll(ws[1..]));
      var pre' := pre + Encoded(ws[0]);
      assert data == pre' + EncodedAll(ws[1..]);
      WalkEncoded(pre', ws[1..]);
    }
  }

  lemma NoAttrAtEnd(data: bytes)
    ensures !AttrAt(data, |data|)
  {}

  /** Parsing an encoded list yields what its attributes contribute, later ones overriding. */
  lemma ParseInvertsEncode(ws: seq<Wire>, tid: bytes)
    requires AllWellFormed(ws) && |tid| == 12
    ensures Walk(EncodedAll(ws), 0) == Items(ws, 0)
    ensures |Items(ws, 0)| == |ws| && forall i | 0 <= i < |ws| :: Items(ws, 0)[i].attr == ws[i].attr
    ensures Collected(Walk(EncodedAll(ws), 0), tid) == Collected(Items(ws, 0), tid)
  {
    WalkEncoded([], ws);
    assert [] + EncodedAll(ws) == EncodedAll(ws);
    ItemAttrs(ws, 0);
  }

  lemma {:induction false} ItemAttrs(ws: seq<Wire>, pos: nat)
    ensures |Items(ws, pos)| == |ws| && forall i | 0 <= i < |ws| :: Items(ws, pos)[i].attr == ws[i].attr
  {
    if ws != [] {
      ItemAttrs(ws[1..], pos + |Encoded(ws[0])|);
    }
  }

  /** `v` is the last value present, or absent when none is. */
  ghost predicate IsLast<T>(values: seq<Option<T>>, v: Option<T>)
  {
    if v.None? then forall i | 0 <= i < |values| :: values[i].None?
    else exists i | 0 <= i < |values| :: values[i] == v && forall j | i < j < |values| :: values[j].None?
  }

  lemma LastCons<T>(values: seq<Option<T>>, v: Option<T>)
    requires values != [] && IsLast(values[1..], v)
    ensures IsLast(values, OrElse(v, values[0]))
  {
    var rest := values[1..];
    assert forall k | 1 <= k < |values| :: values[k] == rest[k - 1];
    if v.Some? {
      var i :| 0 <= i < |rest| && rest[i] == v && forall j | i < j < |rest| :: rest[j].None?;
      assert values[i + 1] == v;
    }
  }

  function MappedValues(items: seq<Item>, tid: bytes): seq<Option<Address>>
    requires |tid| == 12
  {
    seq(|items|, i requires 0 <= i < |items| => MappedIn(items[i].attr, tid))
  }

  function ErrorValues(items: seq<Item>): seq<Option<StunError>>
  {
    seq(|items|, i requires 0 <= i < |items| => ErrorIn(items[i].attr))
  }

  function AlternateValues(items: seq<Item>, tid: bytes): seq<Option<Address>>
    requires |tid| == 12
  {
    seq(|items|, i requires 0 <= i < |items| => AlternateIn(items[i].attr, tid))
  }

  /** Each parsed value is the last one any attribute carries, and absent when none does. */
  lemma {:induction false} LastValueWins(items: seq<Item>, tid: bytes)
    requires |tid| == 12
    ensures var r := Collected(items, tid);
            && IsLast(MappedValues(items, tid), r.mapped)
            && IsLast(ErrorValues(items), r.error)
            && IsLast(AlternateValues(items, tid), r.alternate)
  {
    if items != [] {
      hide MappedIn, ErrorIn, AlternateIn, IsLast;
      var rest, later := items[1..], Collected(items[1..], tid);
      LastValueWins(rest, tid);
      assert MappedValues(items, tid)[1..] == MappedValues(rest, tid);
      assert ErrorValues(items)[1..] == ErrorValues(rest);
      assert AlternateValues(items, tid)[1..] == AlternateValues(rest, tid);
      LastCons(MappedValues(items, tid), later.mapped);
      LastCons(ErrorValues(items), later.error);
      LastCons(AlternateValues(items, tid), later.alternate);
    }
  }

  // ---- FINGERPRINT ----

  predicate NoFingerprint(ws: seq<Wire>)
  {
    forall j | 0 <= j < |ws| :: ws[j].attr.typ != FINGERPRINT
  }

  predicate FirstFingerprintAt(ws: seq<Wire>, i: nat)
  {
    i < |ws| && ws[i].attr.typ == FINGERPRINT && NoFingerprint(ws[..i])
  }

  lemma {:induction false} NothingFound(ws: seq<Wire>, pos: nat)
    requires NoFingerprint(ws)
    ensures FirstFingerprint(Items(ws, pos)) == None
  {
    if ws != [] {
      hide Encoded;
      NothingFound(ws[1..], pos + |Encoded(ws[0])|);
    }
  }

  lemma {:induction false} FoundAt(ws: seq<Wire>, pos: nat, i: nat)
    requires FirstFingerprintAt(ws, i)
    ensures FirstFingerprint(Items(ws, pos)) == Some(pos + |EncodedAll(ws[..i])|)
  {
    hide Encoded;
    if i > 0 {
      assert ws[0] == ws[..i][0];
      assert ws[1..][..i - 1] == ws[..i][1..];
      FoundAt(ws[1..], pos + |Encoded(ws[0])|, i - 1);
    }
  }

  lemma {:induction false} EncodedSplit(ws: seq<Wire>, i: nat)
    requires i <= |ws|
    ensures EncodedAll(ws) == EncodedAll(ws[..i]) + EncodedAll(ws[i..])
  {
    hide Encoded;
    if i == 0 {
      assert ws[..0] == [] && ws[0..] == ws;
    } else {
      EncodedSplit(ws[1..], i - 1);
      assert ws[1..][..i - 1] == ws[..i][1..];
      assert ws[1..][i - 1..] == ws[i..];
    }
  }

  /** Where the search looks: at the first FINGERPRINT attribute of the message. */
  lemma OffsetFound(header: bytes, ws: seq<Wire>)
    requires |header| == 20 && AllWellFormed(ws)
    ensures NoFingerprint(ws) ==> OffsetOfFingerprint(header + EncodedAll(ws)) == -1
    ensures forall i: nat | FirstFingerprintAt(ws, i) ::
              OffsetOfFingerprint(header + EncodedAll(ws)) == 20 + |EncodedAll(ws[..i])|
  {
    hide Encoded, NoFingerprint, Walk, FirstFingerprint;
    assert (header + EncodedAll(ws))[20..] == EncodedAll(ws) == [] + EncodedAll(ws);
    WalkEncoded([], ws);
    if NoFingerprint(ws) {
      NothingFound(ws, 0);
    }
    forall i: nat | FirstFingerprintAt(ws, i)
      ensures OffsetOfFingerprint(header + EncodedAll(ws)) == 20 + |EncodedAll(ws[..i])|
    {
      FoundAt(ws, 0, i);
      NotEmpty(ws);
    }
  }

  lemma NotEmpty(ws: seq<Wire>)
    requires AllWellFormed(ws) && ws != []
    ensures |EncodedAll(ws)| >= 4
  {
    hide Encoded;
    EncodedHead([], ws[0], []);
  }

  function Checksum(crc: bytes -> nat, covered: bytes): nat
  {
    Xor(crc(covered), FINGERPRINT_MASK, 32)
  }

  /** A message is accepted exactly when it carries no FINGERPRINT, or when its first FINGERPRINT
      begins the last eight bytes and the last four hold the checksum of all that precedes it. */
  lemma FingerprintIff(crc: bytes -> nat, header: bytes, ws: seq<Wire>, i: nat)
    requires |header| == 20 && AllWellFormed(ws)
    requires NoFingerprint(ws) || FirstFingerprintAt(ws, i)
    ensures FingerprintOk(crc, header + EncodedAll(ws)) <==>
            || NoFingerprint(ws)
            || (var trailer := EncodedAll(ws[i..]);
                |trailer| == 8 && FromBigEndian(trailer[4..]) == Checksum(crc, header + EncodedAll(ws[..i])))
  {
    OffsetFound(header, ws);
    if !NoFingerprint(ws) {
      EncodedSplit(ws, i);
      Cut(header, EncodedAll(ws[..i]), EncodedAll(ws[i..]));
    }
  }

  lemma Cut(header: bytes, covered: bytes, trailer: bytes)
    ensures var pkt, off := header + (covered + trailer), |header| + |covered|;
            && |pkt| == off + |trailer|
            && pkt[..off] == header + covered
            && (|trailer| == 8 ==> pkt[off + 4..off + 8] == trailer[4..])
  {}

  /** So a FINGERPRINT of the prescribed four bytes is accepted exactly when it is the last
      attribute and its value is the checksum. */
  lemma FingerprintLastIff(crc: bytes -> nat, header: bytes, ws: seq<Wire>, i: nat)
    requires |header| == 20 && AllWellFormed(ws) && FirstFingerprintAt(ws, i) && |ws[i].attr.value| == 4
    ensures FingerprintOk(crc, header + EncodedAll(ws)) <==>
            i == |ws| - 1 && FromBigEndian(ws[i].attr.value) == Checksum(crc, header + EncodedAll(ws[..i]))
  {
    hide FingerprintOk, FromBigEndian, Checksum, Encoded, AttrAt, ItemAt, NextPos;
    FingerprintIff(crc, header, ws, i);
    var w, rest := ws[i], ws[i..][1..];
    assert ws[i..][0] == w && |rest| == |ws| - 1 - i;
    EightBytes(w);
    assert EncodedAll(ws[i..]) == Encoded(w) + EncodedAll(rest);
    if rest == [] {
      assert EncodedAll(ws[i..]) == Encoded(w);
    } else {
      NotEmpty(rest);
    }
  }

  lemma EightBytes(w: Wire)
    requires WellFormed(w) && |w.attr.value| == 4
    ensures |Encoded(w)| == 8 && Encoded(w)[4..] == w.attr.value
  {
    hide BigEndian;
    assert w.padding == [];
  }

  /** The length of the value itself is not looked at: an empty FINGERPRINT that is not last is
      accepted when the header of the empty attribute behind it happens to spell the checksum. */
  lemma EmptyFingerprintAccepted(crc: bytes -> nat, header: bytes, typ: nat)
    requires |header| == 20 && typ < 0x1_0000 && typ != FINGERPRINT
    requires Checksum(crc, header) == FromBigEndian(BigEndian(typ, 2) + BigEndian(0, 2))
    ensures var ws := [Wire(Attr(FINGERPRINT, []), []), Wire(Attr(typ, []), [])];
            AllWellFormed(ws) && FingerprintOk(crc, header + EncodedAll(ws))
  {
    hide FingerprintOk, FromBigEndian, Checksum, BigEndian;
    var ws := [Wire(Attr(FINGERPRINT, []), []), Wire(Attr(typ, []), [])];
    FingerprintIff(crc, header, ws, 0);
    assert ws[0..] == ws && ws[..0] == [];
    assert ws[1..] == [ws[1]] && ws[1..][1..] == [];
    TwoEmpty(BigEndian(FINGERPRINT, 2), BigEndian(0, 2), BigEndian(typ, 2));
    assert EncodedAll([ws[1]]) == Encoded(ws[1]) + [];
    assert EncodedAll(ws) == Encoded(ws[0]) + EncodedAll([ws[1]]);
    assert header + [] == header;
  }

  lemma TwoEmpty(typ: bytes, len: bytes, next: bytes)
    requires |typ| == |len| == |next| == 2
    ensures ((typ + len + [] + []) + ((next + len + [] + []) + []))[4..] == next + len
  {}
}
