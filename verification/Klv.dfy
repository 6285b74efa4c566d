/** Fixed-length-pack KLV frames: a 16-byte label, a 4-byte long-form BER length, the value. */
module Klv {
  import opened Prelude
  import opened BigEndian

  type Ul = u: bytes | |u| == 16 witness seq(16, _ => 0)

  datatype KlvPacket = KlvPacket(ul: Ul, length: u32, value: bytes)

  const MAX_LENGTH := 0xff_ffff

  function EncodeBerLength(length: u32): Result<bytes> {
    if length > MAX_LENGTH then Err("KLV length exceeds fixed 3-byte BER payload")
    else Ok([0x83] + ToBe(length, 3))
  }

  /** The length and the number of bytes consumed. */
  function DecodeBerLength(b: bytes): (r: Result<(u32, nat)>)
    ensures r.Ok? <==> |b| >= 4 && b[0] == 0x83
  {
    if |b| < 4 then Result<(u32, nat)>.Err("missing BER length")
    else if b[0] != 0x83 then Result<(u32, nat)>.Err("invalid fixed BER length header")
    else
      FromBeBound(b[1..4]);
      Widths();
      Ok((FromBe(b[1..4]), 4))
  }

  function Encoded(packet: KlvPacket): Result<bytes> {
    if |packet.value| != packet.length then Err("KLV packet length/value mismatch")
    else
      var length :- EncodeBerLength(packet.length);
      Ok(packet.ul + length + packet.value)
  }

  function Decoded(b: bytes): Result<KlvPacket> {
    if |b| < 17 then Err("KLV packet too short")
    else
      var (length, consumed) :- DecodeBerLength(b[16..]);
      if |b| != 16 + consumed + length then Err("KLV value length mismatch")
      else Ok(KlvPacket(b[..16], length, b[16 + consumed..]))
  }

  method Encode(packet: KlvPacket) returns (r: Result<bytes>)
    ensures r == Encoded(packet)
  {
    if |packet.value| != packet.length {
      return Err("KLV packet length/value mismatch");
    }
    var out: bytes := [];
    var length :- EncodeBerLength(packet.length);
    out := out + packet.ul;
    out := out + length;
    out := out + packet.value;
    assert out == packet.ul + length + packet.value;
    r := Ok(out);
  }

  method Decode(b: bytes) returns (r: Result<KlvPacket>)
    ensures r == Decoded(b)
  {
    if |b| < 17 {
      return Err("KLV packet too short");
    }
    var ul: Ul := b[..16];
    var header :- DecodeBerLength(b[16..]);
    var (length, consumed) := header;
    var valueOffset := 16 + consumed;
    if |b| != valueOffset + length {
      return Err("KLV value length mismatch");
    }
    r := Ok(KlvPacket(ul, length, b[valueOffset..]));
  }

  /** What a well-formed frame looks like on the wire, byte by byte. */
  predicate WellFormed(b: bytes) {
    |b| >= 20 && b[16] == 0x83 && |b| == 20 + FromBe(b[17..20])
  }

  lemma {:induction false} DecodesExactlyWellFormed(b: bytes)
    ensures Decoded(b).Ok? <==> WellFormed(b)
    ensures WellFormed(b) ==> Decoded(b).value == KlvPacket(b[..16], |b| - 20, b[20..])
  {
    if |b| >= 20 {
      assert b[16..][1..4] == b[17..20];
    }
  }

  lemma {:induction false} EncodesExactly(packet: KlvPacket)
    ensures Encoded(packet).Ok? <==> |packet.value| == packet.length <= 0xff_ffff
  {
  }

  lemma {:induction false} DecodeEncoded(packet: KlvPacket)
    ensures Encoded(packet).Ok? <==> |packet.value| == packet.length <= 0xff_ffff
    ensures Encoded(packet).Ok? ==> Decoded(Encoded(packet).value) == Ok(packet)
  {
    if Encoded(packet).Err? {
      return;
    }
    var b := Encoded(packet).value;
    assert b[16..20] == [0x83] + ToBe(packet.length, 3);
    assert b[17..20] == ToBe(packet.length, 3);
    Widths();
    FromTo(packet.length, 3);
    DecodesExactlyWellFormed(b);
    assert b[..16] == packet.ul && b[20..] == packet.value;
  }

  lemma {:induction false} EncodeDecoded(b: bytes)
    requires Decoded(b).Ok?
    ensures Encoded(Decoded(b).value) == Ok(b)
  {
    DecodesExactlyWellFormed(b);
    ToFrom(b[17..20]);
    FromBeBound(b[17..20]);
    Widths();
    assert b == b[..16] + ([0x83] + b[17..20]) + b[20..];
  }

  /** Two accepted frames at the head of the same byte stream are the same frame; in
      particular no proper prefix of an accepted frame is accepted. */
  lemma {:induction false} PrefixFree(a: bytes, restA: bytes, b: bytes, restB: bytes)
    requires Decoded(a).Ok? && Decoded(b).Ok?
    requires a + restA == b + restB
    ensures a == b && restA == restB
  {
    DecodesExactlyWellFormed(a);
    DecodesExactlyWellFormed(b);
    var s := a + restA;
    assert a[17..20] == s[17..20] && b[17..20] == s[17..20];
    assert a == s[..|a|] && b == s[..|b|];
    assert restA == s[|a|..] && restB == s[|b|..];
  }

  function Stream(packets: seq<KlvPacket>): bytes
    requires forall p :: p in packets ==> Encoded(p).Ok?
  {
    if packets == [] then [] else Encoded(packets[0]).value + Stream(packets[1..])
  }

  /** The concatenation of encoded packets determines the packets. */
  lemma {:induction false} UniquelyDecodable(ps: seq<KlvPacket>, qs: seq<KlvPacket>)
    requires forall p :: p in ps ==> Encoded(p).Ok?
    requires forall q :: q in qs ==> Encoded(q).Ok?
    requires Stream(ps) == Stream(qs)
    ensures ps == qs
  {
    hide Decoded;
    if ps != [] && qs != [] {
      DecodeEncoded(ps[0]);
      DecodeEncoded(qs[0]);
      PrefixFree(Encoded(ps[0]).value, Stream(ps[1..]), Encoded(qs[0]).value, Stream(qs[1..]));
      UniquelyDecodable(ps[1..], qs[1..]);
      assert ps == [ps[0]] + ps[1..] && qs == [qs[0]] + qs[1..];
    }
  }
}
