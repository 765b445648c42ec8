/*
 * Register-level vocabulary of the BK4819 driver (libs/radio/radio.hpp):
 * the FSK mode table, the interrupt bits, the register addresses the driver
 * uses, and the pure bit arithmetic of its read-modify-write helpers on
 * 16-bit registers.
 */
module RadioBits {

  datatype Option<T> = None | Some(value: T)

  // Register addresses used by the driver.
  const ModemCtrl: int := 0x58     // FSK mode fields and modem enable bit
  const RxFifoCtrl: int := 0x59    // bit 14 is the FIFO-clear pulse
  const IrqEnable: int := 0x3F     // interrupt-enable register
  const PaCtrl: int := 0x30        // PA enable bits 1 and 3
  const IrqStatus: int := 0x2      // interrupt causes: write 0, then read
  const IrqIndicator: int := 0x0C  // bit 0: interrupt request pending
  const CrcStatus: int := 0x0B     // bit 4: CRC ok
  const FifoData: int := 0x5F      // one 2-byte FIFO word per read
  const FreqHigh: int := 0x39
  const FreqLow: int := 0x38

  // eIrq: the two interrupt causes, same bit positions in 0x2 and 0x3F.
  const FifoAlmostFull: bv16 := 1 << 12
  const RxDone: bv16 := 1 << 13

  const RxFifoClearPulse: bv16 := 1 << 14

  /** eFskMode without its ModesCount sentinel, which is not a mode. */
  datatype FskMode = Fsk1200 | Ffsk1200_1200_1800 | Ffsk1200_1200_2400 | NoaaSame

  /** TFskModeBits: three 3-bit fields held in unsigned chars. */
  datatype FskModeBits = FskModeBits(txModeBits: bv8, rxBandWidthBits: bv8, rxModeBits: bv8)

  /** The ModesBits table, one row per mode. */
  function ModesBits(m: FskMode): (b: FskModeBits)
    ensures b.txModeBits < 8 && b.rxBandWidthBits < 8 && b.rxModeBits < 8
  {
    match m
    //                                     Tx  Bandwidth  Rx
    case Fsk1200 => FskModeBits(0, 0, 0)              // 000  000  000
    case Ffsk1200_1200_1800 => FskModeBits(1, 1, 7)   // 001  001  111
    case Ffsk1200_1200_2400 => FskModeBits(3, 4, 4)   // 011  100  100
    case NoaaSame => FskModeBits(5, 2, 0)             // 101  010  000
  }

  /** Bit i of a 16-bit register value. */
  predicate Bit(v: bv16, i: nat)
    requires i < 16
  {
    v & (1 << i) != 0
  }

  /** The width-bit field of v that starts at bit lo. */
  function Field(v: bv16, lo: nat, width: nat): bv16
    requires lo + width <= 16
  {
    (v >> lo) & ((1 << width) - 1)
  }

  // The three mode fields of register 0x58, read back.
  function RxBandWidthField(r: bv16): bv8 { Field(r, 1, 3) as bv8 }
  function RxModeField(r: bv16): bv8 { Field(r, 10, 3) as bv8 }
  function TxModeField(r: bv16): bv8 { Field(r, 13, 3) as bv8 }

  function FieldsOf(r: bv16): FskModeBits
  {
    FskModeBits(TxModeField(r), RxBandWidthField(r), RxModeField(r))
  }

  /** The mode whose table row register 0x58 currently holds, if any. */
  function DecodeFskMode(r: bv16): (m: Option<FskMode>)
    ensures m.Some? ==> ModesBits(m.value) == FieldsOf(r)
    ensures m.None? ==> forall mode :: ModesBits(mode) != FieldsOf(r)
  {
    var f := FieldsOf(r);
    if f == ModesBits(Fsk1200) then Some(Fsk1200)
    else if f == ModesBits(Ffsk1200_1200_1800) then Some(Ffsk1200_1200_1800)
    else if f == ModesBits(Ffsk1200_1200_2400) then Some(Ffsk1200_1200_2400)
    else if f == ModesBits(NoaaSame) then Some(NoaaSame)
    else None
  }

  /**
   * The value SetFskMode writes last to 0x58: the three fields cleared and
   * refilled from the table row. Reading the fields back gives the row, the
   * mode decodes again, and bits 0 and 4..9 keep their old value.
   */
  function FskModeRegister(old58: bv16, m: FskMode): (r: bv16)
    ensures FieldsOf(r) == ModesBits(m)
    ensures DecodeFskMode(r) == Some(m)
    ensures Bit(r, 0) == Bit(old58, 0) && Field(r, 4, 6) == Field(old58, 4, 6)
  {
    var b := ModesBits(m);
    (old58 & !((7 << 1) | (7 << 10) | (7 << 13)))
      | ((b.rxBandWidthBits as bv16) << 1)
      | ((b.rxModeBits as bv16) << 10)
      | ((b.txModeBits as bv16) << 13)
  }

  /** FixIrqEnRegister's test: bit 12 or bit 13 of 0x3F is clear. */
  predicate IrqEnNeedsFix(v: bv16)
    ensures IrqEnNeedsFix(v) <==> !Bit(v, 12) || !Bit(v, 13)
  {
    v & (FifoAlmostFull | RxDone) != (FifoAlmostFull | RxDone)
  }

  /**
   * The repaired interrupt-enable value: bits 12 and 13 set, bits 0..11,
   * 14 and 15 kept.
   */
  function IrqEnFixed(v: bv16): (r: bv16)
    ensures Bit(r, 12) && Bit(r, 13)
    ensures Field(r, 0, 12) == Field(v, 0, 12) && Field(r, 14, 2) == Field(v, 14, 2)
  {
    v | (FifoAlmostFull | RxDone)
  }

  /**
   * A repair is issued exactly when it would change the register, and a
   * repaired value needs none: FixIrqEnRegister is idempotent.
   */
  lemma IrqEnFixIdempotent(v: bv16)
    ensures IrqEnNeedsFix(v) <==> IrqEnFixed(v) != v
    ensures !IrqEnNeedsFix(IrqEnFixed(v))
    ensures IrqEnFixed(IrqEnFixed(v)) == IrqEnFixed(v)
  {
  }

  /** DisableFskModem's value: only the modem enable bit 0 cleared. */
  function FskModemDisabled(v: bv16): (r: bv16)
    ensures !Bit(r, 0)
    ensures Field(r, 1, 15) == Field(v, 1, 15)
  {
    v & !1
  }

  /** DisablePa's value: only bits 1 and 3 cleared. */
  function PaDisabled(v: bv16): (r: bv16)
    ensures !Bit(r, 1) && !Bit(r, 3)
    ensures Bit(r, 0) == Bit(v, 0) && Bit(r, 2) == Bit(v, 2) && Field(r, 4, 12) == Field(v, 4, 12)
  {
    v & !0xA
  }

  /** Bit 0 of 0x0C: the chip has an interrupt request pending. */
  predicate IrqRequested(reg0C: bv16)
  {
    reg0C & 1 != 0
  }

  /** CheckCrc: bit 4 of 0x0B. */
  predicate CrcOk(reg0B: bv16)
  {
    reg0B & (1 << 4) != 0
  }

  /**
   * GetFrequency's 32-bit result from the words read at 0x39 (high) and
   * 0x38 (low); both halves can be recovered from it.
   */
  function Frequency(hi: bv16, lo: bv16): (f: bv32)
    ensures (f >> 16) as bv16 == hi
    ensures (f & 0xFFFF) as bv16 == lo
  {
    ((hi as bv32) << 16) | (lo as bv32)
  }
}
