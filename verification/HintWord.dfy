/** The 8-byte hint: its packed struct layout, and the 64-bit word dispatched to hardware. */
module HintWord {
  import opened CTypes
  import opened Bits

  const PHASE_PREFILL: uint8 := 0x01
  const PHASE_DECODE: uint8 := 0x02
  const PHASE_AGENTIC: uint8 := 0x03
  const PHASE_IDLE: uint8 := 0x04
  const PHASE_FORWARD: uint8 := 0x05
  const PHASE_BACKWARD: uint8 := 0x06

  const HINT_SIZE := 8

  datatype WorkloadHint = WorkloadHint(
    phaseId: uint8,
    latencyTargetNs: uint16,
    bwTargetGbps: uint16,
    securityLevel: uint8,
    priority: uint8,
    reserved: uint8)

  predicate IsPhase(p: int) { PHASE_PREFILL <= p <= PHASE_BACKWARD }

  // ---- The packed little-endian struct ----

  /** The struct whose packed little-endian image is the first eight bytes of a buffer. */
  function ParseStruct(bytes: seq<uint8>): WorkloadHint
    requires |bytes| >= HINT_SIZE
  {
    WorkloadHint(bytes[0], bytes[1] + 0x100 * (bytes[2] as int),
                 bytes[3] + 0x100 * (bytes[4] as int), bytes[5], bytes[6], bytes[7])
  }

  function StructBytes(h: WorkloadHint): (bytes: seq<uint8>)
    ensures |bytes| == HINT_SIZE
  {
    [h.phaseId,
     h.latencyTargetNs % 0x100, h.latencyTargetNs / 0x100,
     h.bwTargetGbps % 0x100, h.bwTargetGbps / 0x100,
     h.securityLevel, h.priority, h.reserved]
  }

  /** A byte string read as one little-endian unsigned number. */
  function LittleEndian(bytes: seq<uint8>): (n: nat)
  {
    if bytes == [] then 0 else bytes[0] as int + 0x100 * LittleEndian(bytes[1..])
  }

  lemma StructRoundTrip(h: WorkloadHint, bytes: seq<uint8>)
    requires |bytes| == HINT_SIZE
    ensures ParseStruct(StructBytes(h)) == h
    ensures StructBytes(ParseStruct(bytes)) == bytes
  {
    assert StructBytes(ParseStruct(bytes))[1..5] == bytes[1..5];
  }

  // ---- The dispatched word ----

  /** The encoded word as a positional sum of its five fields; the reserved byte is not sent. */
  function WordOf(h: WorkloadHint): (w: uint64)
    ensures w < 0x100_0000_0000_0000
  {
    h.phaseId
    + h.latencyTargetNs * 0x100
    + h.bwTargetGbps * 0x100_0000
    + h.securityLevel * 0x100_0000_0000
    + h.priority * 0x1_0000_0000_0000
  }

  function FieldsOf(w: uint64): WorkloadHint
  {
    WorkloadHint(
      w % 0x100,
      w / 0x100 % 0x1_0000,
      w / 0x100_0000 % 0x1_0000,
      w / 0x100_0000_0000 % 0x100,
      w / 0x1_0000_0000_0000 % 0x100,
      0)
  }

  /** The left shift of a 64-bit unsigned word. */
  function Shl64(x: uint64, k: nat): uint64
  {
    x * Pow2(k) % UINT64_SIZE
  }

  /** encode_hint: masks each field, shifts it into place and ORs it into the word. */
  method EncodeHint(h: WorkloadHint) returns (val: uint64)
    ensures val == WordOf(h)
  {
    val := 0;
    OrZero(h.phaseId);
    val := BitOr(val, h.phaseId);
    OrField(val, h.latencyTargetNs, 16, 8, 0x1_0000, 0x100);
    val := BitOr(val, Shl64(BitAnd(h.latencyTargetNs, 0xFFFF), 8));
    OrField(val, h.bwTargetGbps, 16, 24, 0x1_0000, 0x100_0000);
    val := BitOr(val, Shl64(BitAnd(h.bwTargetGbps, 0xFFFF), 24));
    OrField(val, h.securityLevel, 8, 40, 0x100, 0x100_0000_0000);
    val := BitOr(val, Shl64(BitAnd(h.securityLevel, 0xFF), 40));
    OrField(val, h.priority, 8, 48, 0x100, 0x1_0000_0000_0000);
    val := BitOr(val, Shl64(BitAnd(h.priority, 0xFF), 48));
  }

  lemma PowersOfTwo()
    ensures Pow2(8) == 0x100 && Pow2(16) == 0x1_0000 && Pow2(24) == 0x100_0000
    ensures Pow2(40) == 0x100_0000_0000 && Pow2(48) == 0x1_0000_0000_0000
  {
    assert Pow2(4) == 0x10;
    assert Pow2(8) == 0x100;
    assert Pow2(12) == 0x1000;
    assert Pow2(16) == 0x1_0000;
    assert Pow2(20) == 0x10_0000;
    assert Pow2(24) == 0x100_0000;
    assert Pow2(28) == 0x1000_0000;
    assert Pow2(32) == 0x1_0000_0000;
    assert Pow2(36) == 0x10_0000_0000;
    assert Pow2(40) == 0x100_0000_0000;
    assert Pow2(44) == 0x1000_0000_0000;
    assert Pow2(48) == 0x1_0000_0000_0000;
  }

  lemma {:induction false} OrZero(b: nat)
    ensures BitOr(0, b) == b
  {
    OrPlusAnd(0, b);
    AndZero(b);
  }

  /** One accumulation step: a width-bit field is ORed in at bit position k of a word whose bits
      from k upward are still clear. No bit is shared, so the OR is an addition. */
  lemma OrField(val: nat, field: nat, width: nat, k: nat, fieldSize: nat, place: nat)
    requires (width, fieldSize) in {(8, 0x100), (16, 0x1_0000)}
    requires (k, place) in {(8, 0x100), (24, 0x100_0000), (40, 0x100_0000_0000), (48, 0x1_0000_0000_0000)}
    requires val < place && field < fieldSize && field * place < UINT64_SIZE
    ensures BitAnd(field, fieldSize - 1) == field
    ensures Shl64(field, k) == field * place
    ensures BitAnd(val, Shl64(field, k)) == 0
    ensures BitOr(val, Shl64(field, k)) == val + field * place
  {
    PowersOfTwo();
    MaskIsMod(field, width);
    SmallMod(field, fieldSize);
    SmallMod(field * place, UINT64_SIZE);
    ShiftedIsDisjoint(val, field, k);
  }

  lemma SmallMod(x: int, m: int)
    requires 0 <= x < m
    ensures x % m == x
  {
  }

  /** The word has a field-by-field inverse: decoding an encoded hint returns everything but the
      reserved byte, and encoding a decoded word returns everything but the top byte. */
  lemma WordRoundTrip(h: WorkloadHint, w: uint64)
    ensures FieldsOf(WordOf(h)) == h.(reserved := 0)
    ensures WordOf(FieldsOf(w)) == w % 0x100_0000_0000_0000
  {
    FieldsFrom(WordOf(h), h, 0);
    var w1 := w / 0x100;
    var w2 := w1 / 0x1_0000;
    var w3 := w2 / 0x1_0000;
    var w4 := w3 / 0x100;
    var f := WorkloadHint(w % 0x100, w1 % 0x1_0000, w2 % 0x1_0000, w3 % 0x100, w4 % 0x100, 0);
    FieldsFrom(w, f, w4 / 0x100);
    DivisionUnique(w, 0x100_0000_0000_0000, w4 / 0x100);
  }

  /** Field extraction by shift and mask, for any word given as fields plus a top part. */
  lemma FieldsFrom(w: uint64, f: WorkloadHint, top: nat)
    requires w == WordOf(f) + 0x100_0000_0000_0000 * top
    ensures FieldsOf(w) == f.(reserved := 0)
  {
    var r := f.priority as int + 0x100 * top;
    var s := f.securityLevel as int + 0x100 * r;
    var b := f.bwTargetGbps as int + 0x1_0000 * s;
    var l := f.latencyTargetNs as int + 0x1_0000 * b;
    Extract(w, 0, 1, f.phaseId, l, 0x100);
    Extract(w, f.phaseId, 0x100, f.latencyTargetNs, b, 0x1_0000);
    Extract(w, f.phaseId + 0x100 * f.latencyTargetNs as int, 0x100_0000, f.bwTargetGbps, s, 0x1_0000);
    Extract(w, WordOf(f.(securityLevel := 0, priority := 0)), 0x100_0000_0000, f.securityLevel, r, 0x100);
    Extract(w, WordOf(f.(priority := 0)), 0x1_0000_0000_0000, f.priority, top, 0x100);
  }

  lemma Extract(w: int, low: int, k: int, f: int, high: int, m: int)
    requires 0 <= low < k && 0 <= f < m
    requires w == low + k * (f + m * high)
    ensures w / k % m == f
  {
    DivisionUnique(w, k, f + m * high);
    DivisionUnique(f + m * high, m, high);
  }

  lemma WordInjective(a: WorkloadHint, b: WorkloadHint)
    ensures WordOf(a) == WordOf(b) <==> a.(reserved := 0) == b.(reserved := 0)
  {
    FieldsFrom(WordOf(a), a, 0);
    FieldsFrom(WordOf(b), b, 0);
  }

  /** The 32-bit MMIO write keeps the phase, the latency and the low byte of the bandwidth, and
      nothing else. */
  lemma MmioWordKeeps(a: WorkloadHint, b: WorkloadHint)
    ensures WordOf(a) % 0x1_0000_0000 == WordOf(b) % 0x1_0000_0000
            <==> a.phaseId == b.phaseId && a.latencyTargetNs == b.latencyTargetNs
                 && a.bwTargetGbps % 0x100 == b.bwTargetGbps % 0x100
  {
    MmioWord(a);
    MmioWord(b);
  }

  lemma MmioWord(h: WorkloadHint)
    ensures WordOf(h) % 0x1_0000_0000
            == h.phaseId + h.latencyTargetNs * 0x100 + h.bwTargetGbps % 0x100 * 0x100_0000
  {
    var low := h.phaseId + h.latencyTargetNs * 0x100 + h.bwTargetGbps % 0x100 * 0x100_0000;
    var high := h.bwTargetGbps / 0x100 + h.securityLevel * 0x100 + h.priority * 0x1_0000;
    assert WordOf(h) == 0x1_0000_0000 * high + low;
    DivisionUnique(WordOf(h), 0x1_0000_0000, high);
  }

  /** The packed struct read as one little-endian number is the encoded word with the reserved
      byte on top. */
  lemma StructIsWord(h: WorkloadHint)
    ensures LittleEndian(StructBytes(h)) == WordOf(h) + h.reserved * 0x100_0000_0000_0000
  {
    EightBytes(StructBytes(h));
  }

  lemma {:induction false} EightBytes(b: seq<uint8>)
    requires |b| == 8
    ensures LittleEndian(b)
            == b[0] as int + 0x100 * (b[1] as int) + 0x1_0000 * (b[2] as int) + 0x100_0000 * (b[3] as int)
               + 0x1_0000_0000 * (b[4] as int) + 0x100_0000_0000 * (b[5] as int)
               + 0x1_0000_0000_0000 * (b[6] as int) + 0x100_0000_0000_0000 * (b[7] as int)
  {
    var b1, b2, b3, b4 := b[1..], b[2..], b[3..], b[4..];
    var b5, b6, b7 := b[5..], b[6..], b[7..];
    assert b1[1..] == b2 && b2[1..] == b3 && b3[1..] == b4 && b4[1..] == b5;
    assert b5[1..] == b6 && b6[1..] == b7 && b7[1..] == [];
    assert LittleEndian(b7) == b[7];
    assert LittleEndian(b6) == b[6] as int + 0x100 * LittleEndian(b7);
    assert LittleEndian(b5) == b[5] as int + 0x100 * LittleEndian(b6);
    assert LittleEndian(b4) == b[4] as int + 0x100 * LittleEndian(b5);
    assert LittleEndian(b3) == b[3] as int + 0x100 * LittleEndian(b4);
    assert LittleEndian(b2) == b[2] as int + 0x100 * LittleEndian(b3);
    assert LittleEndian(b1) == b[1] as int + 0x100 * LittleEndian(b2);
  }
}
