/** The four-byte records a mote packs into each datagram (main.go:147-262).

    The first byte of a record selects its variant by its high bits; the
    remaining bits are packed integer fields. Bit operations on non-negative
    values are written arithmetically: `x >> k` is `x / 2^k`, `x & (2^k - 1)`
    is `x % 2^k`, and an OR of disjoint fields is their sum. */
module Records {
  import opened Bytes

  /** A record as it sits in the datagram. */
  type Quad = s: seq<byte> | |s| == 4 witness [0, 0, 0, 0]

  /** The variant selected by the first byte of a record. */
  datatype Kind = BlankKind | TimestampKind | ThoKind | SettingsKind | BatteryKind | BootKind | UnknownKind

  /** The decoder's switch on the first byte, taken in the order of the source:
      high nibble 0xF, high nibble 0xE, top two bits 00, top two bits 01,
      high nibble 0xC, high nibble 0xD, anything else. Each variant claims one
      range of first bytes, and the bytes 0x80-0xBF, which no case claims, are Unknown. */
  function KindOf(tag: byte): (k: Kind)
    ensures k == ThoKind <==> tag <= 0x3F
    ensures k == SettingsKind <==> 0x40 <= tag <= 0x7F
    ensures k == UnknownKind <==> 0x80 <= tag <= 0xBF
    ensures k == BatteryKind <==> 0xC0 <= tag <= 0xCF
    ensures k == BootKind <==> 0xD0 <= tag <= 0xDF
    ensures k == TimestampKind <==> 0xE0 <= tag <= 0xEF
    ensures k == BlankKind <==> 0xF0 <= tag
  {
    if tag / 16 == 0xF then BlankKind
    else if tag / 16 == 0xE then TimestampKind
    else if tag / 64 == 0 then ThoKind
    else if tag / 64 == 1 then SettingsKind
    else if tag / 16 == 0xC then BatteryKind
    else if tag / 16 == 0xD then BootKind
    else UnknownKind
  }

  /** A decoded record. Blank and Unknown keep their raw bytes (the source
      only logs them); every other variant carries its integer fields. */
  datatype Record =
    | Blank(raw: Quad)
      /** An absolute device-epoch time in seconds. */
    | Timestamp(seconds: uint32)
      /** Temperature, humidity and occupancy; `delta` seconds after the previous record. */
    | Tho(delta: nat, occupied: bool, humidity: nat, temperature: nat)
      /** The four comfort settings, each a percentage. */
    | Settings(delta: nat, seatHeat: nat, backHeat: nat, seatFan: nat, backFan: nat)
      /** The battery flag and the signed 16-bit raw voltage reading. */
    | Battery(ok: bool, delta: nat, voltage: int)
      /** A boot report: firmware version, reset count and firmware image identifier. */
    | Boot(version: nat, resets: nat, image: nat)
    | Unknown(raw: Quad)

  function KindOfRecord(rec: Record): Kind
  {
    match rec
    case Blank(_) => BlankKind
    case Timestamp(_) => TimestampKind
    case Tho(_, _, _, _) => ThoKind
    case Settings(_, _, _, _, _) => SettingsKind
    case Battery(_, _, _) => BatteryKind
    case Boot(_, _, _) => BootKind
    case Unknown(_) => UnknownKind
  }

  /** The variants that carry a relative-time delta and need an absolute time reference. */
  predicate TimeDependent(rec: Record)
  {
    rec.Tho? || rec.Settings? || rec.Battery?
  }

  /** Blank and Unknown records are the ones counted as corrupt. */
  predicate Corrupt(rec: Record)
  {
    rec.Blank? || rec.Unknown?
  }

  /** Every field fits the bits the wire format gives it. */
  predicate WellFormed(rec: Record)
  {
    match rec
    case Blank(raw) => KindOf(raw[0]) == BlankKind
    case Timestamp(s) => s < 0x1000_0000
    case Tho(d, _, h, t) => d < 8 && h < 0x1000 && t < 0x4000
    case Settings(d, sh, bh, sf, bf) => d < 4 && sh < 128 && bh < 128 && sf < 128 && bf < 128
    case Battery(_, d, v) => d < 0x800 && -0x8000 <= v < 0x8000
    case Boot(ver, rs, img) => ver < 16 && rs < 64 && img < 0x4_0000
    case Unknown(raw) => KindOf(raw[0]) == UnknownKind
  }

  /** Go's `int16(u)` of a 16-bit pattern: two's complement. */
  function Int16(u: uint16): (v: int)
    ensures -0x8000 <= v < 0x8000
    ensures v % 0x1_0000 == u
  {
    if u >= 0x8000 then u - 0x1_0000 else u
  }

  function DecodeTimestamp(r0: byte, r1: byte, r2: byte, r3: byte): (rec: Record)
    ensures rec.Timestamp? && WellFormed(rec)
  {
    Timestamp((r0 % 16) * TWO_24 + r1 * TWO_16 + r2 * TWO_8 + r3)
  }

  function DecodeTho(r0: byte, r1: byte, r2: byte, r3: byte): (rec: Record)
    ensures rec.Tho? && WellFormed(rec)
  {
    var b0: int, b1: int, b2: int, b3: int := r0, r1, r2, r3;
    Tho((b0 / 8) % 8, (b0 / 4) % 2 > 0, (b0 % 4) * 1024 + b1 * 4 + b2 / 64, (b2 % 64) * 256 + b3)
  }

  /** The four settings are computed in `uint8` arithmetic, where every shift
      and every sum wraps modulo 256. */
  function DecodeSettings(r0: byte, r1: byte, r2: byte, r3: byte): (rec: Record)
    ensures rec.Settings? && WellFormed(rec)
  {
    var b0: int, b1: int, b2: int, b3: int := r0, r1, r2, r3;
    var sh0, bh0, sf0 := (b0 % 16) * 8, (b1 % 32) * 4, (b2 % 64) * 2;
    assert 0 <= sh0 + b1 / 32 < 128 && 0 <= bh0 + b2 / 64 < 128 && 0 <= sf0 + b3 / 128 < 128;
    Low8Small(sh0); Low8Small(bh0); Low8Small(sf0);
    Low8Small(sh0 + b1 / 32); Low8Small(bh0 + b2 / 64); Low8Small(sf0 + b3 / 128);
    var seatHeat := Low8(Low8(sh0) + b1 / 32);
    var backHeat := Low8(Low8(bh0) + b2 / 64);
    var seatFan := Low8(Low8(sf0) + b3 / 128);
    Settings((b0 / 16) % 4, seatHeat, backHeat, seatFan, b3 % 128)
  }

  function DecodeBattery(r0: byte, r1: byte, r2: byte, r3: byte): (rec: Record)
    ensures rec.Battery? && WellFormed(rec)
  {
    var b0: int, b1: int := r0, r1;
    Battery(r0 % 16 >= 8, (b0 % 8) * 256 + b1, Int16(r2 * 256 + r3))
  }

  function DecodeBoot(r0: byte, r1: byte, r2: byte, r3: byte): (rec: Record)
    ensures rec.Boot? && WellFormed(rec)
  {
    var b1: int, b2: int, b3: int := r1, r2, r3;
    Boot(r0 % 16, r1 / 4, (b1 % 4) * TWO_16 + b2 * TWO_8 + b3)
  }

  /** Decodes one record. The variant is the one `KindOf` picks from the
      first byte, and every field is within its bit width. */
  function Decode(r: Quad): (rec: Record)
    ensures KindOfRecord(rec) == KindOf(r[0])
    ensures WellFormed(rec)
  {
    match KindOf(r[0])
    case BlankKind => Blank(r)
    case TimestampKind => DecodeTimestamp(r[0], r[1], r[2], r[3])
    case ThoKind => DecodeTho(r[0], r[1], r[2], r[3])
    case SettingsKind => DecodeSettings(r[0], r[1], r[2], r[3])
    case BatteryKind => DecodeBattery(r[0], r[1], r[2], r[3])
    case BootKind => DecodeBoot(r[0], r[1], r[2], r[3])
    case UnknownKind => Unknown(r)
  }

  function EncodeTimestamp(s: uint32): (r: Quad)
    requires s < 0x1000_0000
  {
    [0xE0 + s / TWO_24, (s / TWO_16) % 256, (s / TWO_8) % 256, s % 256]
  }

  function EncodeTho(d: nat, occ: bool, h: nat, t: nat): (r: Quad)
    requires d < 8 && h < 0x1000 && t < 0x4000
  {
    [d * 8 + (if occ then 4 else 0) + h / 1024, (h / 4) % 256, (h % 4) * 64 + t / 256, t % 256]
  }

  function EncodeSettings(d: nat, sh: nat, bh: nat, sf: nat, bf: nat): (r: Quad)
    requires d < 4 && sh < 128 && bh < 128 && sf < 128 && bf < 128
  {
    [0x40 + d * 16 + sh / 8, (sh % 8) * 32 + bh / 4, (bh % 4) * 64 + sf / 2, (sf % 2) * 128 + bf]
  }

  function EncodeBattery(ok: bool, d: nat, v: int): (r: Quad)
    requires d < 0x800 && -0x8000 <= v < 0x8000
  {
    var u := v % 0x1_0000;
    [0xC0 + (if ok then 8 else 0) + d / 256, d % 256, u / 256, u % 256]
  }

  function EncodeBoot(ver: nat, rs: nat, img: nat): (r: Quad)
    requires ver < 16 && rs < 64 && img < 0x4_0000
  {
    [0xD0 + ver, rs * 4 + img / TWO_16, (img / TWO_8) % 256, img % 256]
  }

  /** Packs a well-formed record back into its four bytes; the partner of `Decode`. */
  function Encode(rec: Record): (r: Quad)
    requires WellFormed(rec)
    ensures KindOf(r[0]) == KindOfRecord(rec)
  {
    match rec
    case Blank(raw) => raw
    case Timestamp(s) => EncodeTimestamp(s)
    case Tho(d, occ, h, t) => EncodeTho(d, occ, h, t)
    case Settings(d, sh, bh, sf, bf) => EncodeSettings(d, sh, bh, sf, bf)
    case Battery(ok, d, v) => EncodeBattery(ok, d, v)
    case Boot(ver, rs, img) => EncodeBoot(ver, rs, img)
    case Unknown(raw) => raw
  }

  lemma TimestampBytesRoundTrip(r0: byte, r1: byte, r2: byte, r3: byte)
    requires 0xE0 <= r0 <= 0xEF
    ensures EncodeTimestamp(DecodeTimestamp(r0, r1, r2, r3).seconds) == [r0, r1, r2, r3]
  {
    var b0: int, b1: int, b2: int, b3: int := r0, r1, r2, r3;
    var s := DecodeTimestamp(r0, r1, r2, r3).seconds;
    assert s / TWO_8 == (b0 % 16) * TWO_16 + b1 * TWO_8 + b2;
    assert s / TWO_16 == (b0 % 16) * TWO_8 + b1;
    assert s / TWO_24 == b0 % 16;
    var e := EncodeTimestamp(s);
    assert e[0] == r0 && e[1] == r1 && e[2] == r2 && e[3] == r3;
  }

  lemma ThoBytesRoundTrip(r0: byte, r1: byte, r2: byte, r3: byte)
    requires r0 <= 0x3F
    ensures var rec := DecodeTho(r0, r1, r2, r3);
            EncodeTho(rec.delta, rec.occupied, rec.humidity, rec.temperature) == [r0, r1, r2, r3]
  {
    var b0: int, b1: int, b2: int, b3: int := r0, r1, r2, r3;
    var rec := DecodeTho(r0, r1, r2, r3);
    var h, t := rec.humidity, rec.temperature;
    assert h / 1024 == b0 % 4;
    assert h / 4 == (b0 % 4) * 256 + b1;
    assert h % 4 == b2 / 64;
    assert t / 256 == b2 % 64;
    assert b0 == ((b0 / 8) % 8) * 8 + ((b0 / 4) % 2) * 4 + b0 % 4;
    var e := EncodeTho(rec.delta, rec.occupied, h, t);
    assert e[0] == r0 && e[1] == r1 && e[2] == r2 && e[3] == r3;
  }

  /** The Settings fields never reach 128, so the source's `uint8` shifts and
      sums never wrap: each field equals its value in unbounded integers. */
  lemma SettingsFieldsDoNotWrap(r0: byte, r1: byte, r2: byte, r3: byte)
    ensures var rec := DecodeSettings(r0, r1, r2, r3);
            && rec.seatHeat == (r0 % 16) * 8 + r1 / 32
            && rec.backHeat == (r1 % 32) * 4 + r2 / 64
            && rec.seatFan == (r2 % 64) * 2 + r3 / 128
            && rec.backFan == r3 % 128
  {
    var b0: int, b1: int, b2: int, b3: int := r0, r1, r2, r3;
    assert Low8((b0 % 16) * 8) == (b0 % 16) * 8;
    assert Low8((b1 % 32) * 4) == (b1 % 32) * 4;
    assert Low8((b2 % 64) * 2) == (b2 % 64) * 2;
    assert Low8((b0 % 16) * 8 + b1 / 32) == (b0 % 16) * 8 + b1 / 32;
    assert Low8((b1 % 32) * 4 + b2 / 64) == (b1 % 32) * 4 + b2 / 64;
    assert Low8((b2 % 64) * 2 + b3 / 128) == (b2 % 64) * 2 + b3 / 128;
  }

  /** Repacking the unbounded Settings fields of four bytes gives the bytes back. */
  lemma SettingsPack(b0: int, b1: int, b2: int, b3: int)
    requires 0x40 <= b0 <= 0x7F && 0 <= b1 < 256 && 0 <= b2 < 256 && 0 <= b3 < 256
    ensures var sh, bh, sf := (b0 % 16) * 8 + b1 / 32, (b1 % 32) * 4 + b2 / 64, (b2 % 64) * 2 + b3 / 128;
            && 0x40 + ((b0 / 16) % 4) * 16 + sh / 8 == b0
            && (sh % 8) * 32 + bh / 4 == b1
            && (bh % 4) * 64 + sf / 2 == b2
            && (sf % 2) * 128 + b3 % 128 == b3
  {
    var sh, bh, sf := (b0 % 16) * 8 + b1 / 32, (b1 % 32) * 4 + b2 / 64, (b2 % 64) * 2 + b3 / 128;
    assert sh / 8 == b0 % 16 && sh % 8 == b1 / 32;
    assert bh / 4 == b1 % 32 && bh % 4 == b2 / 64;
    assert sf / 2 == b2 % 64 && sf % 2 == b3 / 128;
  }

  lemma SettingsBytesRoundTrip(r0: byte, r1: byte, r2: byte, r3: byte)
    requires 0x40 <= r0 <= 0x7F
    ensures var rec := DecodeSettings(r0, r1, r2, r3);
            EncodeSettings(rec.delta, rec.seatHeat, rec.backHeat, rec.seatFan, rec.backFan) == [r0, r1, r2, r3]
  {
    var b0: int, b1: int, b2: int, b3: int := r0, r1, r2, r3;
    SettingsFieldsDoNotWrap(r0, r1, r2, r3);
    SettingsPack(b0, b1, b2, b3);
    var rec := DecodeSettings(r0, r1, r2, r3);
    assert rec.delta == (b0 / 16) % 4;
    var e := EncodeSettings(rec.delta, rec.seatHeat, rec.backHeat, rec.seatFan, rec.backFan);
    assert e[0] == r0 && e[1] == r1 && e[2] == r2 && e[3] == r3;
  }

  lemma BatteryBytesRoundTrip(r0: byte, r1: byte, r2: byte, r3: byte)
    requires 0xC0 <= r0 <= 0xCF
    ensures var rec := DecodeBattery(r0, r1, r2, r3);
            EncodeBattery(rec.ok, rec.delta, rec.voltage) == [r0, r1, r2, r3]
  {
  }

  /** Repacking the reset count and image identifier of three bytes gives the bytes back. */
  lemma BootPack(b1: int, b2: int, b3: int)
    requires 0 <= b1 < 256 && 0 <= b2 < 256 && 0 <= b3 < 256
    ensures var img := (b1 % 4) * TWO_16 + b2 * TWO_8 + b3;
            && (b1 / 4) * 4 + img / TWO_16 == b1
            && (img / TWO_8) % 256 == b2
            && img % 256 == b3
  {
    var img := (b1 % 4) * TWO_16 + b2 * TWO_8 + b3;
    assert img / TWO_16 == b1 % 4;
    assert img / TWO_8 == (b1 % 4) * 256 + b2;
  }

  lemma BootBytesRoundTrip(r0: byte, r1: byte, r2: byte, r3: byte)
    requires 0xD0 <= r0 <= 0xDF
    ensures var rec := DecodeBoot(r0, r1, r2, r3);
            EncodeBoot(rec.version, rec.resets, rec.image) == [r0, r1, r2, r3]
  {
    var b0: int, b1: int, b2: int, b3: int := r0, r1, r2, r3;
    BootPack(b1, b2, b3);
    var rec := DecodeBoot(r0, r1, r2, r3);
    assert rec.resets == b1 / 4 && rec.image == (b1 % 4) * TWO_16 + b2 * TWO_8 + b3;
    var e := EncodeBoot(rec.version, rec.resets, rec.image);
    assert e[0] == r0 && e[1] == r1 && e[2] == r2 && e[3] == r3;
  }

  /** Decoding loses no bits: every four bytes are re-created from their record. */
  lemma {:induction false} EncodeDecode(r: Quad)
    ensures Encode(Decode(r)) == r
  {
    match KindOf(r[0])
    case BlankKind =>
    case TimestampKind => TimestampBytesRoundTrip(r[0], r[1], r[2], r[3]);
    case ThoKind => ThoBytesRoundTrip(r[0], r[1], r[2], r[3]);
    case SettingsKind => SettingsBytesRoundTrip(r[0], r[1], r[2], r[3]);
    case BatteryKind => BatteryBytesRoundTrip(r[0], r[1], r[2], r[3]);
    case BootKind => BootBytesRoundTrip(r[0], r[1], r[2], r[3]);
    case UnknownKind =>
  }

  lemma TimestampFieldsRoundTrip(s: uint32)
    requires s < 0x1000_0000
    ensures var r := EncodeTimestamp(s); DecodeTimestamp(r[0], r[1], r[2], r[3]) == Timestamp(s)
  {
    var r := EncodeTimestamp(s);
    var b0: int, b1: int, b2: int, b3: int := r[0], r[1], r[2], r[3];
    assert b0 % 16 == s / TWO_24;
    assert s == (s / TWO_24) * TWO_24 + b1 * TWO_16 + b2 * TWO_8 + b3;
  }

  lemma ThoFieldsRoundTrip(d: nat, occ: bool, h: nat, t: nat)
    requires d < 8 && h < 0x1000 && t < 0x4000
    ensures var r := EncodeTho(d, occ, h, t); DecodeTho(r[0], r[1], r[2], r[3]) == Tho(d, occ, h, t)
  {
    var r := EncodeTho(d, occ, h, t);
    var b0: int, b1: int, b2: int, b3: int := r[0], r[1], r[2], r[3];
    assert (b0 / 8) % 8 == d;
    assert ((b0 / 4) % 2 > 0) == occ;
    assert b0 % 4 == h / 1024 && b2 / 64 == h % 4 && b2 % 64 == t / 256;
    assert h == (h / 1024) * 1024 + ((h / 4) % 256) * 4 + h % 4;
  }

  lemma SettingsFieldsRoundTrip(d: nat, sh: nat, bh: nat, sf: nat, bf: nat)
    requires d < 4 && sh < 128 && bh < 128 && sf < 128 && bf < 128
    ensures var r := EncodeSettings(d, sh, bh, sf, bf);
            DecodeSettings(r[0], r[1], r[2], r[3]) == Settings(d, sh, bh, sf, bf)
  {
    var r := EncodeSettings(d, sh, bh, sf, bf);
    SettingsFieldsDoNotWrap(r[0], r[1], r[2], r[3]);
    var b0: int, b1: int, b2: int, b3: int := r[0], r[1], r[2], r[3];
    assert b0 == 0x40 + d * 16 + sh / 8;
    assert b0 / 16 == 4 + d;
    assert (b0 / 16) % 4 == d && b0 % 16 == sh / 8;
    assert b1 / 32 == sh % 8 && b1 % 32 == bh / 4;
    assert b2 / 64 == bh % 4 && b2 % 64 == sf / 2;
    assert b3 / 128 == sf % 2 && b3 % 128 == bf;
    assert (b0 % 16) * 8 + b1 / 32 == sh;
    assert (b1 % 32) * 4 + b2 / 64 == bh;
    assert (b2 % 64) * 2 + b3 / 128 == sf;
  }

  lemma BatteryFieldsRoundTrip(ok: bool, d: nat, v: int)
    requires d < 0x800 && -0x8000 <= v < 0x8000
    ensures var r := EncodeBattery(ok, d, v); DecodeBattery(r[0], r[1], r[2], r[3]) == Battery(ok, d, v)
  {
  }

  lemma BootFieldsRoundTrip(ver: nat, rs: nat, img: nat)
    requires ver < 16 && rs < 64 && img < 0x4_0000
    ensures var r := EncodeBoot(ver, rs, img); DecodeBoot(r[0], r[1], r[2], r[3]) == Boot(ver, rs, img)
  {
    var r := EncodeBoot(ver, rs, img);
    var b0: int, b1: int, b2: int, b3: int := r[0], r[1], r[2], r[3];
    assert b0 % 16 == ver;
    assert b1 / 4 == rs && b1 % 4 == img / TWO_16;
    assert img == (img / TWO_16) * TWO_16 + ((img / TWO_8) % 256) * TWO_8 + img % 256;
  }

  /** Every well-formed record is what its encoding decodes to. */
  lemma {:induction false} DecodeEncode(rec: Record)
    requires WellFormed(rec)
    ensures Decode(Encode(rec)) == rec
  {
    match rec
    case Blank(_) =>
    case Timestamp(s) => TimestampFieldsRoundTrip(s);
    case Tho(d, occ, h, t) => ThoFieldsRoundTrip(d, occ, h, t);
    case Settings(d, sh, bh, sf, bf) => SettingsFieldsRoundTrip(d, sh, bh, sf, bf);
    case Battery(ok, d, v) => BatteryFieldsRoundTrip(ok, d, v);
    case Boot(ver, rs, img) => BootFieldsRoundTrip(ver, rs, img);
    case Unknown(_) =>
  }

  /** The record the bytes `00 00 00 00` decode to. */
  lemma ZeroRecordIsEmptyTho()
    ensures Decode([0, 0, 0, 0]) == Tho(0, false, 0, 0)
  {
  }
}
