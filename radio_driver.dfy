/*
 * The CBK4819 driver class of libs/radio/radio.hpp. The chip's
 * configuration registers 0x58, 0x59, 0x3F and 0x30 are kept as storage;
 * every register access and every call into the vendor firmware's
 * primitives is appended, in order, to a bus log. Registers whose value
 * the hardware decides (0x2, 0x0C, 0x0B, 0x5F) and the chip-lock GPIO come
 * in as an Env for each interrupt.
 */
module Radio {
  import opened RadioBits
  import opened RadioSession

  /** One access to the chip, or one call of a vendor firmware primitive. */
  datatype BusEvent =
    | Read(addr: int)
    | Write(addr: int, value: bv16)
    | WriteFrequency(frequencyD10: bv32)
    | AirCopyFskSetup
    | ConfigureAndStartRxFsk
    | ConfigureAndStartTxFsk
    | AirCopy72(payload: seq<bv8>)
    | SetGpio(pin: int, high: bool)

  /** The accesses SetFskMode makes: read 0x58, write 0, write the new value. */
  function SetFskModeEvents(old58: bv16, m: FskMode): seq<BusEvent>
  {
    [Read(ModemCtrl), Write(ModemCtrl, 0), Write(ModemCtrl, FskModeRegister(old58, m))]
  }

  /** The accesses FixIrqEnRegister makes: a write only when a bit is missing. */
  function FixIrqEnEvents(old3F: bv16): seq<BusEvent>
  {
    [Read(IrqEnable)] + if IrqEnNeedsFix(old3F) then [Write(IrqEnable, IrqEnFixed(old3F))] else []
  }

  /**
   * The accesses of one HandleFifoAlmostFull on session s: four reads of
   * the FIFO word, then a read of 0x0B for the listener's CRC flag when
   * the session completes and has a listener.
   */
  function DrainEvents(s: Session): seq<BusEvent>
  {
    [Read(FifoData), Read(FifoData), Read(FifoData), Read(FifoData)] +
    if s.rxDataLen + 8 >= s.size && s.hasUser then [Read(CrcStatus)] else []
  }

  /**
   * The accesses of InterruptHandler on a pending session after 0x0C has
   * been read: none when no request is pending; otherwise the clear-then-
   * read of 0x2 and, for a FifoAlmostFull cause, the drain's accesses.
   */
  function IrqEvents(s: Session, e: Env): seq<BusEvent>
  {
    if !IrqRequested(e.reg0C) then
      []
    else
      [Write(IrqStatus, 0), Read(IrqStatus)] + (if e.irqReg & FifoAlmostFull != 0 then DrainEvents(s) else [])
  }

  /** The map holds the four stored registers 0x58, 0x59, 0x3F and 0x30. */
  predicate Stored(m: map<int, bv16>)
  {
    ModemCtrl in m && RxFifoCtrl in m && IrqEnable in m && PaCtrl in m
  }

  /** The memcpy of one 2-byte FIFO word to offsets len and len + 1. */
  method CopyWord(buf: array<bv8>, len: int, w: (bv8, bv8))
    requires 0 <= len && len + 1 < buf.Length
    modifies buf
    ensures buf[..] == old(buf[..])[len := w.0][len + 1 := w.1]
  {
    buf[len] := w.0;
    buf[len + 1] := w.1;
  }

  class CBK4819 {
    var state: State
    var rxDataLen: int                 // u16RxDataLen
    var rxBuff: array?<bv8>            // p8RxBuff
    var rxBuffSize: int                // u8RxBuffSize
    var hasUser: bool                  // pRadioUser != nullptr
    var callbacks: seq<(int, bool)>    // RxDoneHandler calls, in order
    var regs: map<int, bv16>           // 0x58, 0x59, 0x3F, 0x30
    var bus: seq<BusEvent>

    /** The session fields as a value. */
    ghost function Abstract(): Session
      reads this, rxBuff
    {
      Session(state, rxDataLen, if rxBuff == null then [] else rxBuff[..], rxBuffSize, hasUser, callbacks)
    }

    ghost predicate Valid()
      reads this, rxBuff
    {
      Inv(Abstract()) && Stored(regs)
    }

    /**
     * State Idle and counter 0, as the source's constructor sets them; the
     * registers hold whatever the chip holds. The buffer, size and listener
     * the source leaves uninitialised start as null, 0 and none here.
     */
    constructor (r58: bv16, r59: bv16, r3F: bv16, r30: bv16)
      ensures Valid()
      ensures state == Idle && rxDataLen == 0 && rxBuff == null && callbacks == [] && bus == []
      ensures regs == map[ModemCtrl := r58, RxFifoCtrl := r59, IrqEnable := r3F, PaCtrl := r30]
    {
      state := Idle;
      rxDataLen := 0;
      rxBuff := null;
      rxBuffSize := 0;
      hasUser := false;
      callbacks := [];
      regs := map[ModemCtrl := r58, RxFifoCtrl := r59, IrqEnable := r3F, PaCtrl := r30];
      bus := [];
    }

    /** Hands the frequency to the firmware's BK4819WriteFrequency. */
    method SetFrequency(frequencyD10: bv32)
      modifies this`bus
      ensures bus == old(bus) + [WriteFrequency(frequencyD10)]
    {
      bus := bus + [WriteFrequency(frequencyD10)];
    }

    /**
     * Reads the high word at 0x39 and the low word at 0x38 and joins them;
     * hi and lo are what the chip returns for those reads.
     */
    method GetFrequency(hi: bv16, lo: bv16) returns (f: bv32)
      modifies this`bus
      ensures (f >> 16) as bv16 == hi && (f & 0xFFFF) as bv16 == lo
      ensures bus == old(bus) + [Read(FreqHigh), Read(FreqLow)]
    {
      bus := bus + [Read(FreqHigh), Read(FreqLow)];
      f := Frequency(hi, lo);
    }

    /** Clears bits 1 and 3 of 0x30. */
    method DisablePa()
      requires Valid()
      modifies this`regs, this`bus
      ensures Valid()
      ensures regs == old(regs)[PaCtrl := PaDisabled(old(regs)[PaCtrl])]
      ensures bus == old(bus) + [Read(PaCtrl), Write(PaCtrl, PaDisabled(old(regs)[PaCtrl]))]
    {
      var v := regs[PaCtrl];
      bus := bus + [Read(PaCtrl)];
      regs := regs[PaCtrl := PaDisabled(v)];
      bus := bus + [Write(PaCtrl, PaDisabled(v))];
    }

    /**
     * Rewrites the three mode fields of 0x58 from the table, writing 0
     * first so that the modem's FSK state machine restarts.
     */
    method SetFskMode(m: FskMode)
      requires Valid()
      modifies this`regs, this`bus
      ensures Valid()
      ensures regs == old(regs)[ModemCtrl := FskModeRegister(old(regs)[ModemCtrl], m)]
      ensures bus == old(bus) + SetFskModeEvents(old(regs)[ModemCtrl], m)
    {
      var reg58 := regs[ModemCtrl];
      bus := bus + [Read(ModemCtrl)];
      var composed := FskModeRegister(reg58, m);
      regs := regs[ModemCtrl := 0];
      bus := bus + [Write(ModemCtrl, 0)];
      regs := regs[ModemCtrl := composed];
      bus := bus + [Write(ModemCtrl, composed)];
    }

    /**
     * Sets the FifoAlmostFull and RxDone enable bits of 0x3F again, which
     * the vendor firmware clears; writes only when one of them is missing.
     */
    method FixIrqEnRegister()
      requires Valid()
      modifies this`regs, this`bus
      ensures Valid()
      ensures regs == old(regs)[IrqEnable := IrqEnFixed(old(regs)[IrqEnable])]
      ensures bus == old(bus) + FixIrqEnEvents(old(regs)[IrqEnable])
    {
      var oldIrqEn := regs[IrqEnable];
      bus := bus + [Read(IrqEnable)];
      IrqEnFixIdempotent(oldIrqEn);
      if IrqEnNeedsFix(oldIrqEn) {
        regs := regs[IrqEnable := IrqEnFixed(oldIrqEn)];
        bus := bus + [Write(IrqEnable, IrqEnFixed(oldIrqEn))];
      }
    }

    /**
     * One call of a vendor firmware primitive, logged as ev. What the
     * primitive does to the chip is not visible here: the stored registers
     * afterwards are the given map.
     */
    method Firmware(ev: BusEvent, after: map<int, bv16>)
      requires Valid() && Stored(after)
      modifies this`regs, this`bus
      ensures Valid()
      ensures regs == after
      ensures bus == old(bus) + [ev]
    {
      regs := after;
      bus := bus + [ev];
    }

    /**
     * The blocking air-copy send: start the transmitter, set it up for air
     * copy, select Fsk1200, send the payload at p8Data, drop GPIO line 1.
     * Each primitive leaves the registers in the map given for it, so the
     * mode written to 0x58 is composed from what the air-copy setup left.
     */
    method SendSyncAirCopyMode72(payload: array<bv8>,
                                 afterTxStart: map<int, bv16>, afterSetup: map<int, bv16>,
                                 afterSend: map<int, bv16>, afterGpio: map<int, bv16>)
      requires Valid()
      requires Stored(afterTxStart) && Stored(afterSetup) && Stored(afterSend) && Stored(afterGpio)
      modifies this`regs, this`bus
      ensures Valid()
      ensures regs == afterGpio
      ensures bus == old(bus) + [ConfigureAndStartTxFsk, AirCopyFskSetup] +
        SetFskModeEvents(afterSetup[ModemCtrl], Fsk1200) + [AirCopy72(payload[..]), SetGpio(1, false)]
    {
      Firmware(ConfigureAndStartTxFsk, afterTxStart);
      Firmware(AirCopyFskSetup, afterSetup);
      SetFskMode(Fsk1200);
      Firmware(AirCopy72(payload[..]), afterSend);
      Firmware(SetGpio(1, false), afterGpio);
    }

    /**
     * Arms a receive session. A null buffer or a zero length is ignored
     * without any access to the chip; otherwise the session restarts on the
     * caller's buffer from any state, the modem is set up for air copy
     * (leaving the registers in afterSetup), Fsk1200 is composed into 0x58
     * from what the setup left, and the receiver is started (leaving the
     * registers in afterStart).
     */
    method RecieveAsyncAirCopyMode(data: array?<bv8>, dataLen: int, withUser: bool,
                                   afterSetup: map<int, bv16>, afterStart: map<int, bv16>)
      requires Valid() && 0 <= dataLen < 256
      requires data != null ==> dataLen <= data.Length
      requires Stored(afterSetup) && Stored(afterStart)
      modifies this
      ensures Valid()
      ensures Abstract() == Arm(old(Abstract()), if data == null then None else Some(data[..]), dataLen, withUser)
      ensures rxBuff == if data == null || dataLen == 0 then old(rxBuff) else data
      ensures data == null || dataLen == 0 ==> regs == old(regs) && bus == old(bus)
      ensures data != null && dataLen != 0 ==>
        regs == afterStart &&
        bus == old(bus) + [AirCopyFskSetup] + SetFskModeEvents(afterSetup[ModemCtrl], Fsk1200) + [ConfigureAndStartRxFsk]
    {
      if data == null || dataLen == 0 {
        return;
      }
      hasUser := withUser;
      rxBuff := data;
      rxBuffSize := dataLen;
      rxDataLen := 0;

      Firmware(AirCopyFskSetup, afterSetup);
      SetFskMode(Fsk1200);
      Firmware(ConfigureAndStartRxFsk, afterStart);
      state := RxPending;
    }

    /** Clears the modem enable bit 0 of 0x58. */
    method DisableFskModem()
      requires Valid()
      modifies this`regs, this`bus
      ensures Valid()
      ensures regs == old(regs)[ModemCtrl := FskModemDisabled(old(regs)[ModemCtrl])]
      ensures bus == old(bus) + [Read(ModemCtrl), Write(ModemCtrl, FskModemDisabled(old(regs)[ModemCtrl]))]
    {
      var fskSettings := regs[ModemCtrl];
      bus := bus + [Read(ModemCtrl)];
      regs := regs[ModemCtrl := FskModemDisabled(fskSettings)];
      bus := bus + [Write(ModemCtrl, FskModemDisabled(fskSettings))];
    }

    /** Pulses the FIFO-clear bit 14 of 0x59, then puts the old value back. */
    method ClearRxFifoBuff()
      requires Valid()
      modifies this`regs, this`bus
      ensures Valid()
      ensures regs == old(regs)
      ensures bus == old(bus) + [Read(RxFifoCtrl), Write(RxFifoCtrl, RxFifoClearPulse), Write(RxFifoCtrl, old(regs)[RxFifoCtrl])]
    {
      var reg59 := regs[RxFifoCtrl];
      bus := bus + [Read(RxFifoCtrl)];
      regs := regs[RxFifoCtrl := RxFifoClearPulse];
      bus := bus + [Write(RxFifoCtrl, RxFifoClearPulse)];
      regs := regs[RxFifoCtrl := reg59];
      bus := bus + [Write(RxFifoCtrl, reg59)];
    }

    /** Clears 0x2 by writing 0, then reads the interrupt causes from it. */
    method GetIrqReg(causes: bv16) returns (irqReg: bv16)
      modifies this`bus
      ensures irqReg == causes
      ensures bus == old(bus) + [Write(IrqStatus, 0), Read(IrqStatus)]
    {
      bus := bus + [Write(IrqStatus, 0)];
      irqReg := causes;
      bus := bus + [Read(IrqStatus)];
    }

    /** Bit 4 of 0x0B. */
    method CheckCrc(reg0B: bv16) returns (ok: bool)
      modifies this`bus
      ensures ok == CrcOk(reg0B)
      ensures bus == old(bus) + [Read(CrcStatus)]
    {
      bus := bus + [Read(CrcStatus)];
      ok := CrcOk(reg0B);
    }

    /**
     * The interrupt entry point. Nothing at all happens while the vendor
     * firmware holds the chip or while no session is pending. Otherwise
     * 0x3F is repaired; with the request bit of 0x0C clear nothing more
     * happens; else the causes are read from 0x2 and, for FifoAlmostFull,
     * the FIFO is drained. An RxDone cause is read and ignored.
     */
    method InterruptHandler(e: Env)
      requires Valid() && |e.fifo| == 4
      modifies this, rxBuff
      ensures Valid() && rxBuff == old(rxBuff)
      ensures Abstract() == Interrupt(old(Abstract()), e)
      ensures e.locked || old(state) == Idle ==> regs == old(regs) && bus == old(bus)
      ensures !e.locked && old(state) == RxPending ==>
        regs == old(regs)[IrqEnable := IrqEnFixed(old(regs)[IrqEnable])] &&
        bus == old(bus) + FixIrqEnEvents(old(regs)[IrqEnable]) + [Read(IrqIndicator)] +
          IrqEvents(old(Abstract()), e)
    {
      if e.locked {
        return;
      }
      if state == RxPending {
        ghost var s0 := Abstract();
        ghost var bus0 := bus + FixIrqEnEvents(regs[IrqEnable]) + [Read(IrqIndicator)];
        FixIrqEnRegister();
        bus := bus + [Read(IrqIndicator)];
        assert Abstract() == s0 && bus == bus0;
        if !IrqRequested(e.reg0C) {
          return;
        }
        var irqReg := GetIrqReg(e.irqReg);
        assert Abstract() == s0;
        // An RxDone cause would call HandleRxDone, whose call is disabled.
        if irqReg & FifoAlmostFull != 0 {
          HandleFifoAlmostFull(e.fifo, e.reg0B);
        }
      }
    }

    /**
     * One pass of HandleFifoAlmostFull's loop: read a FIFO word, copy its
     * two bytes to the buffer at the counter when the buffer is set and the
     * counter is below size - 2, and advance the 16-bit counter by 2.
     */
    method HandleFifoWord(rxData: (bv8, bv8))
      requires rxBuff != null && 0 <= rxDataLen < 0x1_0000 - 2 && rxBuffSize <= rxBuff.Length
      modifies rxBuff, this`rxDataLen, this`bus
      ensures rxBuff[..] == CopyChunk(old(rxBuff[..]), old(rxDataLen), rxBuffSize, rxData)
      ensures rxDataLen == old(rxDataLen) + 2
      ensures bus == old(bus) + [Read(FifoData)]
    {
      bus := bus + [Read(FifoData)];
      if rxBuff != null && rxDataLen < rxBuffSize - 2 {
        CopyWord(rxBuff, rxDataLen, rxData);
      }
      rxDataLen := (rxDataLen + 2) % 0x1_0000;
    }

    /**
     * HandleFifoAlmostFull's loop: four FIFO words, each copied to the
     * buffer at the counter only while the counter is below size - 2, the
     * counter advancing by 2 per word regardless.
     */
    method ReadFifoWords(fifo: seq<(bv8, bv8)>)
      requires rxBuff != null && rxBuffSize <= rxBuff.Length && |fifo| == 4
      requires 0 <= rxDataLen < 0x1_0000 - 8
      modifies rxBuff, this`rxDataLen, this`bus
      ensures rxBuff[..] == DrainChunks(old(rxBuff[..]), old(rxDataLen), rxBuffSize, fifo)
      ensures rxDataLen == old(rxDataLen) + 8
      ensures bus == old(bus) + [Read(FifoData), Read(FifoData), Read(FifoData), Read(FifoData)]
    {
      ghost var wordReads := [Read(FifoData), Read(FifoData), Read(FifoData), Read(FifoData)];
      ghost var len0 := rxDataLen;
      var i := 0;
      while i < 4
        invariant 0 <= i <= 4
        invariant rxDataLen == len0 + 2 * i
        invariant DrainChunks(rxBuff[..], rxDataLen, rxBuffSize, fifo[i..]) ==
                  DrainChunks(old(rxBuff[..]), len0, rxBuffSize, fifo)
        invariant bus == old(bus) + wordReads[..i]
      {
        assert wordReads[..i + 1] == wordReads[..i] + [Read(FifoData)];
        assert fifo[i..][0] == fifo[i] && fifo[i..][1..] == fifo[i + 1..];
        DrainChunksCons(rxBuff[..], rxDataLen, rxBuffSize, fifo[i..]);
        HandleFifoWord(fifo[i]);
        i := i + 1;
      }
      assert fifo[4..] == [];
    }

    /**
     * Drains the FIFO (four words, counter + 8) and completes the session
     * when the counter has reached the size: Idle, then the listener, if
     * any, is called with the size and the CRC bit.
     */
    method HandleFifoAlmostFull(fifo: seq<(bv8, bv8)>, reg0B: bv16)
      requires Valid() && state == RxPending && |fifo| == 4
      modifies this`rxDataLen, this`state, this`callbacks, this`bus, rxBuff
      ensures Valid() && rxBuff == old(rxBuff) && regs == old(regs)
      ensures Abstract() == Drain(old(Abstract()), fifo, reg0B)
      ensures bus == old(bus) + DrainEvents(old(Abstract()))
    {
      ghost var s0 := Abstract();
      ReadFifoWords(fifo);

      if rxDataLen >= rxBuffSize {
        state := Idle;
        if hasUser {
          var crcOk := CheckCrc(reg0B);
          callbacks := callbacks + [(rxBuffSize, crcOk)];
        }
      }
      assert Abstract() == Drain(s0, fifo, reg0B);
    }
  }
}
