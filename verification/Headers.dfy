/** Packet and control headers: 32-bit words with fields and an odd parity bit. */
module Headers {
  import opened Division
  import opened Words
  import opened StreamSwitch

  // ---------- Shifts and fields ----------

  /** `x << n` in 32 bits. */
  function ShiftLeft(x: Word, n: nat): Word {
    Pow2Of32();
    Truncate(x * Pow2(n), 32)
  }

  lemma {:induction false} TruncateSmall(x: nat, n: nat)
    requires x < Pow2(n)
    ensures Truncate(x, n) == x
  {
    if n > 0 { TruncateSmall(x / 2, n - 1); }
  }

  /** Numbers without common bits are added by `|`. */
  lemma {:induction false} OrAdds(high: nat, low: nat, n: nat)
    requires low < Pow2(n)
    ensures Or(high * Pow2(n), low) == high * Pow2(n) + low
  {
    if n == 0 {
      OrZero(high);
    } else {
      var h := high * Pow2(n - 1);
      assert high * Pow2(n) == 2 * h;
      OrAdds(high, low / 2, n - 1);
      if high * Pow2(n) == 0 && low == 0 {
      } else {
        assert (2 * h) / 2 == h && (2 * h) % 2 == 0;
      }
    }
  }

  lemma {:induction false} OrZero(x: nat)
    ensures Or(x, 0) == x
  {
    if x != 0 { OrZero(x / 2); }
  }

  function PopCount(x: nat): nat {
    if x == 0 then 0 else x % 2 + PopCount(x / 2)
  }

  lemma PopCountStep(x: nat)
    ensures PopCount(x) == x % 2 + PopCount(x / 2)
  {
  }

  lemma PopCountSmall()
    ensures PopCount(0) == 0 && PopCount(1) == 1
  {
  }

  lemma Halve(h: nat, low: nat)
    ensures (2 * h + low) / 2 == h + low / 2 && (2 * h + low) % 2 == low % 2
  {
  }

  /** The ones of two numbers without common bits add up. */
  lemma {:induction false} PopCountAdds(high: nat, low: nat, n: nat)
    requires low < Pow2(n)
    ensures PopCount(high * Pow2(n) + low) == PopCount(high) + PopCount(low)
  {
    hide PopCount;
    if n == 0 {
      PopCountSmall();
      assert low == 0 && high * Pow2(0) == high;
    } else {
      var h := high * Pow2(n - 1);
      assert high * Pow2(n) == 2 * h;
      Halve(h, low);
      PopCountAdds(high, low / 2, n - 1);
      PopCountStep(2 * h + low);
      PopCountStep(low);
    }
  }

  /** `x & (2^n - 1)` keeps the low `n` bits. */
  lemma {:induction false} AndOnes(x: nat, n: nat)
    ensures And(x, Pow2(n) - 1) == x % Pow2(n)
  {
    hide And;
    if n == 0 || x == 0 {
      AndOfZero(x, Pow2(n) - 1);
      ZeroRemainder(x, Pow2(n));
    } else {
      var p := Pow2(n - 1);
      AndOnes(x / 2, n - 1);
      AndOnesStep(x, p);
      assert Pow2(n) == 2 * p;
    }
  }

  lemma ZeroRemainder(x: nat, p: nat)
    requires p == 1 || (x == 0 && p > 0)
    ensures x % p == 0
  {
  }

  lemma AndOnesStep(x: nat, p: nat)
    requires x > 0 && p > 0 && And(x / 2, p - 1) == (x / 2) % p
    ensures And(x, 2 * p - 1) == x % (2 * p)
  {
    hide And;
    OddMask(p);
    ModHalves(x, p);
    AndStep(x, 2 * p - 1);
  }

  lemma AndOfZero(x: nat, y: nat)
    requires x == 0 || y == 0
    ensures And(x, y) == 0
  {
  }

  lemma AndStep(x: nat, y: nat)
    requires x > 0 && y > 0
    ensures And(x, y) == 2 * And(x / 2, y / 2) + (if x % 2 == 1 && y % 2 == 1 then 1 else 0)
  {
  }

  lemma OddMask(p: nat)
    requires p > 0
    ensures (2 * p - 1) / 2 == p - 1 && (2 * p - 1) % 2 == 1
  {
  }

  lemma ModHalves(x: nat, p: nat)
    requires p > 0
    ensures x % (2 * p) == 2 * ((x / 2) % p) + x % 2
  {
    var q, r := (x / 2) / p, (x / 2) % p;
    assert x / 2 == p * q + r;
    assert x == 2 * (p * q + r) + x % 2;
    assert 2 * (p * q) == q * (2 * p);
    QuotientAndRemainder(x, 2 * p, q, 2 * r + x % 2);
  }

  /** The shift of a value that fits. */
  lemma ShiftFits(x: Word, n: nat)
    requires x * Pow2(n) < 0x1_0000_0000
    ensures ShiftLeft(x, n) == x * Pow2(n)
  {
    Pow2Of32();
    TruncateSmall(x * Pow2(n), 32);
  }

  // ---------- Parity ----------

  const LOW31: Word := 0x7FFF_FFFF

  lemma Pow2Of31()
    ensures Pow2(31) == 0x8000_0000
  {
    Pow2Of32();
  }

  /** The lower 31 bits stay, and the number of ones becomes odd. */
  ghost predicate IsOddParityOf(r: Word, word: nat) {
    r % 0x8000_0000 == word % 0x8000_0000 && PopCount(r) % 2 == 1
  }

  lemma TopBit(r: Word)
    ensures PopCount(r) == r / 0x8000_0000 + PopCount(r % 0x8000_0000) && r / 0x8000_0000 <= 1
  {
    Pow2Of31();
    PopCountAdds(r / 0x8000_0000, r % 0x8000_0000, 31);
    PopCountSmall();
    hide PopCount, Pow2;
  }

  /** There is exactly one such word. */
  lemma OddParityIsUnique(r: Word, s: Word, word: nat)
    requires IsOddParityOf(r, word) && IsOddParityOf(s, word)
    ensures r == s
  {
    TopBit(r);
    TopBit(s);
    hide PopCount;
  }

  lemma ParityOfSum(c: nat)
    ensures ((c + 1) % 2 + c) % 2 == 1
  {
  }

  lemma ParityBitMakesOdd(low: nat, parity: nat)
    requires low < 0x8000_0000 && parity == (PopCount(low) + 1) % 2
    ensures IsOddParityOf(parity * 0x8000_0000 + low, low)
  {
    hide PopCount;
    var r := parity * 0x8000_0000 + low;
    assert r / 0x8000_0000 == parity && r % 0x8000_0000 == low;
    TopBit(r);
    ParityOfSum(PopCount(low));
  }

  lemma ParityShift(parity: Word, low: nat)
    requires parity <= 1 && low < 0x8000_0000
    ensures Or(ShiftLeft(parity, 31), low) == parity * 0x8000_0000 + low
  {
    Pow2Of31();
    ShiftFits(parity, 31);
    OrAdds(parity, low, 31);
  }

  lemma LowBits(word: Word)
    ensures And(word, LOW31) == word % 0x8000_0000
  {
    Pow2Of31();
    AndOnes(word, 31);
  }

  method SetOddParityBit(word: Word) returns (r: Word)
    ensures IsOddParityOf(r, word)
  {
    hide PopCount, And, Or, ShiftLeft;
    LowBits(word);
    var lower31Bits := And(word, LOW31);
    var parity := (PopCount(lower31Bits) + 1) % 2;
    ParityShift(parity, lower31Bits);
    ParityBitMakesOdd(lower31Bits, parity);
    r := Or(ShiftLeft(parity, 31), lower31Bits);
  }

  lemma SplitParity(w: Word, v: nat)
    requires v < 0x8000_0000 && w % 0x8000_0000 == v % 0x8000_0000
    ensures w == (w / 0x8000_0000) * 0x8000_0000 + v
  {
  }

  /** A field of `size` values at `base`, with `high` above and `low` below it. */
  lemma FieldIs(w: nat, base: nat, size: nat, high: nat, field: nat, low: nat)
    requires low < base && field < size && w == (high * size + field) * base + low
    ensures w / base % size == field
  {
    QuotientAndRemainder(w, base, high * size + field, low);
    QuotientAndRemainder(high * size + field, size, high, field);
  }

  // ---------- Packet headers ----------

  /** The limits of the device. */
  datatype Limits = Limits(rows: nat, columns: nat, packetIdMaxIdx: nat, packetTypeMax: nat) {
    /** All values within the limits fit into their fields. */
    predicate Fits() {
      rows <= 32 && columns <= 128 && packetIdMaxIdx <= 31 && packetTypeMax <= 7
    }
  }

  predicate PacketInRange(lim: Limits, streamId: Word, packetType: Word, srcRow: Word, srcCol: Word) {
    srcRow < lim.rows && srcCol < lim.columns && streamId <= lim.packetIdMaxIdx && packetType <= lim.packetTypeMax
  }

  /** The fields of a packet header: [4:0], [11:5], [14:12], [15], [20:16], [27:21], [30:28] and [31]. */
  datatype PacketFields = PacketFields(
    streamId: nat, reserved0: nat, packetType: nat, reserved1: nat, srcRow: nat, srcCol: nat, reserved2: nat, parity: nat)

  function DecodePacket(w: Word): PacketFields {
    PacketFields(w % 32, w / 32 % 128, w / 4096 % 8, w / 32768 % 2, w / 65536 % 32, w / 2097152 % 128, w / 268435456 % 8,
                 w / 2147483648)
  }

  lemma SmallPowers()
    ensures Pow2(0) == 1 && Pow2(5) == 32 && Pow2(12) == 4096 && Pow2(16) == 65536 && Pow2(20) == 1048576
    ensures Pow2(21) == 2097152 && Pow2(22) == 4194304 && Pow2(24) == 16777216
  {
    assert Pow2(4) == 16;
    Pow2Sum(4, 4);
    Pow2Sum(8, 4);
    Pow2Sum(12, 4);
    Pow2Sum(16, 4);
    Pow2Sum(20, 4);
  }

  /** The fields without the parity bit, as a number. */
  function PacketValue(streamId: nat, packetType: nat, srcRow: nat, srcCol: nat): nat {
    srcCol * 2097152 + srcRow * 65536 + packetType * 4096 + streamId
  }

  /** Fields that fit do not overlap. */
  lemma PacketOr(streamId: Word, packetType: Word, srcRow: Word, srcCol: Word)
    requires streamId < 32 && packetType < 8 && srcRow < 32 && srcCol < 128
    ensures Or(Or(Or(ShiftLeft(srcCol, 21), ShiftLeft(srcRow, 16)), ShiftLeft(packetType, 12)), ShiftLeft(streamId, 0))
            == PacketValue(streamId, packetType, srcRow, srcCol)
  {
    SmallPowers();
    ShiftFits(srcCol, 21);
    ShiftFits(srcRow, 16);
    ShiftFits(packetType, 12);
    ShiftFits(streamId, 0);
    hide Pow2, ShiftLeft, Or;
    OrAdds(srcCol, srcRow * 65536, 21);
    var place := srcCol * 32 + srcRow;
    assert Or(ShiftLeft(srcCol, 21), ShiftLeft(srcRow, 16)) == place * 65536;
    OrAdds(place, packetType * 4096, 16);
    OrAdds(place * 16 + packetType, streamId, 12);
  }

  /** `|` of two words is a word. */
  lemma OrIsWord(x: Word, y: Word)
    ensures Or(x, y) < 0x1_0000_0000
  {
    Pow2Of32();
    forall i: nat ensures Bit(Truncate(Or(x, y), 32), i) <==> Bit(Or(x, y), i) {
      TruncateBit(Or(x, y), 32, i);
      OrBit(x, y, i);
      if i >= 32 {
        WordBits(x, i);
        WordBits(y, i);
      }
    }
    SameBitsAreEqual(Truncate(Or(x, y), 32), Or(x, y));
  }

  function OrWords(x: Word, y: Word): Word {
    OrIsWord(x, y);
    Or(x, y)
  }

  /** The fields shifted to their places, without the parity bit; too large fields overlap. */
  function PacketBits(streamId: Word, packetType: Word, srcRow: Word, srcCol: Word): Word {
    OrWords(OrWords(OrWords(ShiftLeft(srcCol, 21), ShiftLeft(srcRow, 16)), ShiftLeft(packetType, 12)), ShiftLeft(streamId, 0))
  }

  /** `getPacketHeader`; what is rejected is exactly what is out of range, and the parity is always odd. */
  method GetPacketHeader(lim: Limits, streamId: Word, packetType: Word, srcRow: Word, srcCol: Word) returns (r: Option<Word>)
    ensures r.Some? <==> PacketInRange(lim, streamId, packetType, srcRow, srcCol)
    ensures r.Some? ==> IsOddParityOf(r.value, PacketBits(streamId, packetType, srcRow, srcCol))
    ensures r.Some? && lim.Fits() ==> IsOddParityOf(r.value, PacketValue(streamId, packetType, srcRow, srcCol))
  {
    hide ShiftLeft, Or, IsOddParityOf, PacketValue;
    if srcRow >= lim.rows || srcCol >= lim.columns { return None; }
    if streamId > lim.packetIdMaxIdx { return None; }
    if packetType > lim.packetTypeMax { return None; }
    if lim.Fits() { PacketOr(streamId, packetType, srcRow, srcCol); }
    var header := OrWords(OrWords(OrWords(ShiftLeft(srcCol, 21), ShiftLeft(srcRow, 16)), ShiftLeft(packetType, 12)), ShiftLeft(streamId, 0));
    header := SetOddParityBit(header);
    return Some(header);
  }

  /** Decoding gives back all inputs, the reserved bits are 0, and the word has an odd number of ones. */
  lemma PacketRoundTrip(w: Word, streamId: Word, packetType: Word, srcRow: Word, srcCol: Word)
    requires streamId < 32 && packetType < 8 && srcRow < 32 && srcCol < 128
    requires IsOddParityOf(w, PacketValue(streamId, packetType, srcRow, srcCol))
    ensures DecodePacket(w) == PacketFields(streamId, 0, packetType, 0, srcRow, srcCol, 0, w / 2147483648)
    ensures PopCount(w) % 2 == 1
  {
    hide PopCount;
    var parity := w / 2147483648;
    var row, column := srcRow + 32 * srcCol, srcCol + 1024 * parity;
    SplitParity(w, PacketValue(streamId, packetType, srcRow, srcCol));
    FieldIs(w, 1, 32, 128 * packetType + 2048 * row + 67108864 * parity, streamId, 0);
    FieldIs(w, 32, 128, packetType + 16 * row + 524288 * parity, 0, streamId);
    FieldIs(w, 4096, 8, 2 * row + 65536 * parity, packetType, streamId);
    FieldIs(w, 32768, 2, row + 32768 * parity, 0, packetType * 4096 + streamId);
    FieldIs(w, 65536, 32, column, srcRow, packetType * 4096 + streamId);
    FieldIs(w, 2097152, 128, 8 * parity, srcCol, srcRow * 65536 + packetType * 4096 + streamId);
    FieldIs(w, 268435456, 8, parity, 0, PacketValue(streamId, packetType, srcRow, srcCol));
  }

  // ---------- Control headers ----------

  const ADDRESS_SHIFT: nat := 0
  const BEAT_SHIFT: nat := 20
  const OPERATION_SHIFT: nat := 22
  const STREAM_ID_SHIFT: nat := 24

  function GetCtrlPktMaxAddress(): nat {
    Pow2(BEAT_SHIFT - ADDRESS_SHIFT) - 1
  }

  function GetCtrlPktMaxLength(): nat {
    Pow2(OPERATION_SHIFT - BEAT_SHIFT)
  }

  function GetCtrlPktMaxOpcode(): nat {
    Pow2(STREAM_ID_SHIFT - OPERATION_SHIFT) - 1
  }

  /** The bounds are the largest values that fit into the fields, where the length is stored less one. */
  lemma ControlBounds()
    ensures GetCtrlPktMaxAddress() == 1048575 && GetCtrlPktMaxLength() == 4 && GetCtrlPktMaxOpcode() == 3
  {
    SmallPowers();
    assert Pow2(2) == 4;
  }

  predicate ControlInRange(lim: Limits, address: Word, length: Word, opcode: Word, streamId: Word) {
    address <= GetCtrlPktMaxAddress() && 0 < length <= GetCtrlPktMaxLength() && opcode <= GetCtrlPktMaxOpcode()
    && streamId <= lim.packetIdMaxIdx
  }

  /** The fields of a control header: [19:0], [21:20], [23:22], [28:24], [30:29] and [31]. */
  datatype ControlFields = ControlFields(address: nat, beat: nat, operation: nat, streamId: nat, reserved: nat, parity: nat)

  function DecodeControl(w: Word): ControlFields {
    ControlFields(w % 1048576, w / 1048576 % 4, w / 4194304 % 4, w / 16777216 % 32, w / 536870912 % 4, w / 2147483648)
  }

  function ControlValue(address: nat, beat: nat, operation: nat, streamId: nat): nat {
    streamId * 16777216 + operation * 4194304 + beat * 1048576 + address
  }

  lemma ControlOr(address: Word, beat: Word, operation: Word, streamId: Word)
    requires address < 1048576 && beat < 4 && operation < 4 && streamId < 32
    ensures Or(Or(Or(ShiftLeft(streamId, 24), ShiftLeft(operation, 22)), ShiftLeft(beat, 20)), ShiftLeft(address, 0))
            == ControlValue(address, beat, operation, streamId)
  {
    SmallPowers();
    ShiftFits(streamId, 24);
    ShiftFits(operation, 22);
    ShiftFits(beat, 20);
    ShiftFits(address, 0);
    hide Pow2, ShiftLeft, Or;
    OrAdds(streamId, operation * 4194304, 24);
    var kind := streamId * 4 + operation;
    assert Or(ShiftLeft(streamId, 24), ShiftLeft(operation, 22)) == kind * 4194304;
    OrAdds(kind, beat * 1048576, 22);
    OrAdds(kind * 4 + beat, address, 20);
  }

  /** The fields shifted to their places, without the parity bit; a too large stream id overlaps it. */
  function ControlBits(address: Word, beat: Word, operation: Word, streamId: Word): Word {
    OrWords(OrWords(OrWords(ShiftLeft(streamId, STREAM_ID_SHIFT), ShiftLeft(operation, OPERATION_SHIFT)),
                    ShiftLeft(beat, BEAT_SHIFT)), ShiftLeft(address, ADDRESS_SHIFT))
  }

  /** `getControlHeader`; a length is stored less one, and the parity is always odd. */
  method GetControlHeader(lim: Limits, address: Word, length: Word, opcode: Word, streamId: Word) returns (r: Option<Word>)
    ensures r.Some? <==> ControlInRange(lim, address, length, opcode, streamId)
    ensures r.Some? ==> IsOddParityOf(r.value, ControlBits(address, length - 1, opcode, streamId))
    ensures r.Some? && lim.Fits() ==> IsOddParityOf(r.value, ControlValue(address, length - 1, opcode, streamId))
  {
    hide ShiftLeft, Or, IsOddParityOf, ControlValue, GetCtrlPktMaxAddress, GetCtrlPktMaxLength, GetCtrlPktMaxOpcode;
    ControlBounds();
    if address > GetCtrlPktMaxAddress() { return None; }
    if length > GetCtrlPktMaxLength() || length == 0 { return None; }
    if opcode > GetCtrlPktMaxOpcode() { return None; }
    if streamId > lim.packetIdMaxIdx { return None; }
    if lim.Fits() { ControlOr(address, length - 1, opcode, streamId); }
    var header := OrWords(OrWords(OrWords(ShiftLeft(streamId, STREAM_ID_SHIFT), ShiftLeft(opcode, OPERATION_SHIFT)),
                                  ShiftLeft(length - 1, BEAT_SHIFT)), ShiftLeft(address, ADDRESS_SHIFT));
    header := SetOddParityBit(header);
    return Some(header);
  }

  /** Decoding gives back all inputs, with the length less one, the reserved bits are 0, and the word has an odd number of ones. */
  lemma ControlRoundTrip(w: Word, address: Word, length: Word, opcode: Word, streamId: Word)
    requires address < 1048576 && 0 < length <= 4 && opcode < 4 && streamId < 32
    requires IsOddParityOf(w, ControlValue(address, length - 1, opcode, streamId))
    ensures DecodeControl(w) == ControlFields(address, length - 1, opcode, streamId, 0, w / 2147483648)
    ensures PopCount(w) % 2 == 1
  {
    hide PopCount;
    var parity, beat := w / 2147483648, length - 1;
    SplitParity(w, ControlValue(address, beat, opcode, streamId));
    FieldIs(w, 1, 1048576, beat + 4 * opcode + 16 * streamId + 2048 * parity, address, 0);
    FieldIs(w, 1048576, 4, opcode + 4 * streamId + 512 * parity, beat, address);
    FieldIs(w, 4194304, 4, streamId + 128 * parity, opcode, beat * 1048576 + address);
    FieldIs(w, 16777216, 32, 4 * parity, streamId, opcode * 4194304 + beat * 1048576 + address);
    FieldIs(w, 536870912, 4, parity, 0, ControlValue(address, beat, opcode, streamId));
  }
}
