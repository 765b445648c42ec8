# BK4819 radio driver: air-copy receive session

This project models `Radio::CBK4819` from `libs/radio/radio.hpp`. It is the
driver that talks to the BK4819 transceiver chip, working through the primitives
of the vendor firmware. It has two parts:

- **Register helpers.** Read-modify-write operations on 16-bit chip registers:
  - selecting an FSK mode from the `ModesBits` table into 0x58;
  - repairing the interrupt-enable bits of 0x3F;
  - disabling the modem (0x58 bit 0);
  - pulsing the FIFO clear (0x59 bit 14);
  - disabling the PA (0x30 bits 1 and 3);
  - reading the frequency (0x39/0x38);
  - reading the CRC bit (0x0B bit 4).
- **Receive session.** A small state machine:
  - `RecieveAsyncAirCopyMode` arms it on a caller buffer of `u8DataLen` bytes;
  - `InterruptHandler` advances it;
  - `HandleFifoAlmostFull` drains four 2-byte FIFO words per interrupt into the buffer, behind a bounds guard;
  - once the counter reaches the size, it completes the session: the state returns to Idle and, when a listener (`pRadioUser`) was given, it receives one `RxDoneHandler` call.

The project has three modules:

- `RadioBits` (`radio_bits.dfy`). The mode table, the register addresses and
  interrupt bits, and the pure `bv16` arithmetic of the helpers. Each helper's
  contract says which bits it sets or clears and that every other bit is kept.
  The mode register's fields decode back to the table row.
- `RadioSession` (`radio_session.dfy`). The session fields as a value
  (`Session`), with:
  - what arming (`Arm`), one drain (`Drain`) and one interrupt (`Interrupt`) do to it;
  - `Run`, which applies a sequence of interrupts;
  - the session invariant `Inv`: the counter is a multiple of 8 and below size + 8, and a pending session has a buffer of at least size bytes;
  - lemmas over arbitrary interrupt sequences: nothing happens while the chip is locked or the session is idle; the listener is called at most once per armed session; no byte at offset size - 1 or beyond is ever written;
  - lemmas over interrupts that each drain the FIFO: the session completes once the counter reaches the size, and the buffer ends up holding exactly the received bytes in every word that starts below size - 2.
- `Radio` (`radio_driver.dfy`). The class `CBK4819` itself:
  - its fields are the source's `State`, `u16RxDataLen`, `p8RxBuff` (an `array<bv8>`), `u8RxBuffSize`, whether `pRadioUser` is set, and the log of listener calls;
  - a map holds the stored registers 0x58, 0x59, 0x3F and 0x30;
  - a bus log records every register access and vendor-firmware call, in order;
  - the registers a vendor-firmware primitive leaves behind are a parameter of the method that calls it, so a value composed after such a call (the FSK mode written to 0x58) is stated in terms of what the primitive left;
  - each method is proved to change the session fields exactly as the matching `RadioSession` function says (`Abstract() == Drain(old(Abstract()), …)`), and to issue exactly the listed accesses;
  - `HandleFifoAlmostFull`'s 4-iteration loop writes the caller's array in place.

Hardware-decided values come in as parameters, because the chip, not the
driver, decides them. An interrupt receives them as one `Env`:

- the chip-lock condition, which is what `IsLockedByOrgFw` returns;
- 0x0C;
- the causes read from 0x2;
- the four 0x5F words;
- 0x0B.

Two consequences of the code are worth stating on their own:

- **The word that would exactly fill the buffer is never copied.** The copy
  guard `u16RxDataLen < u8RxBuffSize - 2` (radio.hpp:200) is strict. A 10-byte
  session therefore never receives bytes 8 and 9: at counter 8 the guard is
  false, so the second burst copies nothing (`CapacityTenTwoBursts`).
- **The counter can pass the size by up to 7.** It grows by 8 per drain and is
  compared with the size only after the loop (`Inv`, `Drain`).

## Model

| member | source | states |
|---|---|---|
| RadioBits.ModesBits | libs/radio/radio.hpp:30-36 | the four table rows; every field fits 3 bits |
| RadioBits.DecodeFskMode | libs/radio/radio.hpp:14-36 | a register decodes to a mode exactly when its three fields equal that mode's table row; None when they match no row |
| RadioBits.FskModeRegister | libs/radio/radio.hpp:81-86 | the value SetFskMode composes: bits 1-3, 10-12 and 13-15 read back as the mode's table row, it decodes to the mode again, bits 0 and 4-9 keep their old value |
| RadioBits.IrqEnNeedsFix | libs/radio/radio.hpp:94-95 | the repair test holds exactly when bit 12 or bit 13 is clear |
| RadioBits.IrqEnFixed | libs/radio/radio.hpp:97 | bits 12 and 13 set, bits 0-11, 14 and 15 unchanged |
| RadioBits.IrqEnFixIdempotent | libs/radio/radio.hpp:91-99 | a repair is due exactly when it would change the value; a repaired value needs no repair and repairing twice equals repairing once |
| RadioBits.FskModemDisabled | libs/radio/radio.hpp:121-122 | bit 0 cleared, bits 1-15 unchanged |
| RadioBits.PaDisabled | libs/radio/radio.hpp:76 | bits 1 and 3 cleared, bits 0, 2 and 4-15 unchanged |
| RadioBits.Frequency | libs/radio/radio.hpp:62 | the high half of the result is the 0x39 word and the low half the 0x38 word |
| RadioSession.CopyChunk | libs/radio/radio.hpp:200-203 | one loop pass never changes the buffer's length |
| RadioSession.DrainChunks | libs/radio/radio.hpp:197-206 | the loop over the words keeps the buffer's length and changes no byte below the counter, at size - 1 or beyond, or past the words handled |
| RadioSession.DrainChunksAt | libs/radio/radio.hpp:197-206 | byte j after the loop is byte (j - len) % 2 of word (j - len) / 2 when that word starts below size - 2, and its old value otherwise |
| RadioSession.Drain | libs/radio/radio.hpp:195-216 | a drain keeps the invariant, raises the counter by exactly 8, goes Idle exactly when the counter reaches the size, then and only then appends one listener call with the size and the CRC bit, and leaves bytes below the counter or at size - 1 and beyond unchanged |
| RadioSession.DrainKeepsUnfilledWords | libs/radio/radio.hpp:200-203 | no byte of a word starting at size - 2 or beyond changes: size 16 leaves bytes 14-15 alone, size 2 or less writes nothing |
| RadioSession.Arm | libs/radio/radio.hpp:101-117 | a null buffer or zero length changes nothing; otherwise, from any state, the session is pending on the new buffer and size with counter 0, the listener recorded, and the invariant kept |
| RadioSession.Interrupt | libs/radio/radio.hpp:161-189 | an interrupt keeps the invariant, the size, the listener and the buffer length |
| RadioSession.InterruptFrame | libs/radio/radio.hpp:161-189 | locked, idle, no request pending or no FifoAlmostFull cause (RxDone alone included) change nothing; the counter never decreases; a session still pending made no call; bytes below the counter and of words at size - 2 or beyond keep their values |
| RadioSession.Run | libs/radio/radio.hpp:161-189 | any sequence of interrupts keeps the invariant, the size, the listener and the buffer length |
| RadioSession.LockedRunChangesNothing | libs/radio/radio.hpp:163-166 | while the vendor firmware holds the chip, interrupts change nothing |
| RadioSession.IdleRunChangesNothing | libs/radio/radio.hpp:169 | an idle session ignores every interrupt |
| RadioSession.AtMostOneCallback | libs/radio/radio.hpp:208-215 | over any interrupts, earlier calls are kept and at most one listener call is added per armed session, none while still pending and none without a listener |
| RadioSession.RunKeepsBytes | libs/radio/radio.hpp:200-203 | over any interrupts, bytes below the starting counter and those of words at size - 2 or beyond keep their values, so nothing at size - 1 or beyond is ever written |
| RadioSession.DrainsComplete | libs/radio/radio.hpp:195-216 | successive draining interrupts raise the counter by 8 each; the session ends idle exactly when the counter has reached the size, and then the listener was called once with the size and the last CRC bit |
| RadioSession.RunKeepsFirstBurst | libs/radio/radio.hpp:197-206 | a byte the first burst copies keeps the received value to the end of the run |
| RadioSession.RunFillsLaterBurst | libs/radio/radio.hpp:197-206 | a byte of a later burst whose word starts below size - 2 ends holding the received value |
| RadioSession.RunFillsBuffer | libs/radio/radio.hpp:197-206 | over draining interrupts, every byte from the counter on whose word starts below size - 2 holds the matching received byte |
| RadioSession.ArmThenFill | libs/radio/radio.hpp:195-216 | arming with size C and delivering ceil(C / 8) draining interrupts ends idle with counter 8 * ceil(C / 8), one call with C, and the buffer holding the received bytes in every word starting below C - 2 and its old bytes everywhere else |
| RadioSession.CapacityTenTwoBursts | libs/radio/radio.hpp:197-215 | size 10, two bursts: bytes 0-7 from the first burst, bytes 8-9 unchanged, counter 16, one call with 10 |
| Radio.CopyWord | libs/radio/radio.hpp:202 | the two bytes of the word land at offsets len and len + 1 and nothing else changes |
| Radio.CBK4819.constructor | libs/radio/radio.hpp:53 | state Idle and counter 0, no buffer, no calls, no accesses |
| Radio.CBK4819.SetFrequency | libs/radio/radio.hpp:55-58 | one BK4819WriteFrequency call with the given value |
| Radio.CBK4819.GetFrequency | libs/radio/radio.hpp:60-63 | reads 0x39 then 0x38; the result's high half is the first word and its low half the second |
| Radio.CBK4819.DisablePa | libs/radio/radio.hpp:74-77 | 0x30 gets PaDisabled of its old value, by one read and one write; no other register changes |
| Radio.CBK4819.SetFskMode | libs/radio/radio.hpp:79-89 | 0x58 ends as FskModeRegister of its old value; the bus sees a read, a write of 0, then the final write; no other register changes |
| Radio.CBK4819.FixIrqEnRegister | libs/radio/radio.hpp:91-99 | 0x3F ends repaired; one read, plus one write only when a bit was missing |
| Radio.CBK4819.Firmware | libs/radio/radio.hpp:67-71 | one vendor-firmware call is one logged event, after which the stored registers are what the primitive left |
| Radio.CBK4819.SendSyncAirCopyMode72 | libs/radio/radio.hpp:65-72 | start TX, air-copy setup, SetFskMode(Fsk1200) composed from the 0x58 value the setup left, AirCopy72 with the payload's bytes, GPIO 1 low, in that order; the registers end as the last primitive left them |
| Radio.CBK4819.RecieveAsyncAirCopyMode | libs/radio/radio.hpp:101-117 | the session fields become Arm of the old ones; a null buffer or zero length makes no access and changes no register; otherwise air-copy setup, SetFskMode(Fsk1200) composed from the 0x58 value the setup left, start RX, in that order |
| Radio.CBK4819.DisableFskModem | libs/radio/radio.hpp:119-123 | 0x58 gets FskModemDisabled of its old value, by one read and one write |
| Radio.CBK4819.ClearRxFifoBuff | libs/radio/radio.hpp:125-130 | reads 0x59, writes 1 << 14, then writes the old value back; the stored registers end unchanged |
| Radio.CBK4819.GetIrqReg | libs/radio/radio.hpp:132-136 | writes 0 to 0x2 before reading it, and returns what the chip reports |
| Radio.CBK4819.CheckCrc | libs/radio/radio.hpp:138-141 | one read of 0x0B; true exactly when its bit 4 is set |
| Radio.CBK4819.InterruptHandler | libs/radio/radio.hpp:161-189 | the session fields become Interrupt of the old ones; locked or idle: no access at all; pending: 0x3F repaired, 0x0C read, and only with a request pending the 0x2 clear-and-read and, for FifoAlmostFull, the drain's accesses |
| Radio.CBK4819.HandleFifoWord | libs/radio/radio.hpp:199-205 | one 0x5F read; the buffer becomes CopyChunk of the old buffer at the counter; the counter grows by 2 without wrapping |
| Radio.CBK4819.ReadFifoWords | libs/radio/radio.hpp:197-206 | four 0x5F reads; the buffer becomes DrainChunks of the old buffer; the counter grows by exactly 8 |
| Radio.CBK4819.HandleFifoAlmostFull | libs/radio/radio.hpp:195-216 | the session fields become Drain of the old ones; the registers are untouched; four 0x5F reads, then a 0x0B read only when the session completes with a listener |

## Left out

- HandleRxDone (libs/radio/radio.hpp:150-159) is not modelled: its only call is commented out (line 181), so an RxDone cause changes nothing.
- IsLockedByOrgFw (line 143-146) reads the GPIOC port register directly; its result is the boolean `locked` of each interrupt's `Env`.
- The vendor firmware primitives (`BK4819WriteFrequency`, `AirCopyFskSetup`, `BK4819ConfigureAndStartRxFsk`/`TxFsk`, `AirCopy72`, `BK4819SetGpio`) are defined outside this file. Each appears as a bus event. The registers `AirCopyFskSetup`, `BK4819ConfigureAndStartRxFsk`/`TxFsk`, `AirCopy72` and `BK4819SetGpio` leave behind are parameters. They are assumed not to touch the driver's own fields or the receive buffer.
- Radio.CBK4819.SetFrequency: `BK4819WriteFrequency` is assumed to write only the frequency registers, which are not among the stored ones, so the stored registers are stated unchanged.
- Registers 0x2, 0x0C, 0x0B and 0x5F are decided by the hardware. Their values are inputs, not storage.
- The byte order of the `memcpy` of a FIFO word (line 202) depends on the target's endianness and on `BK4819Read`'s return type. Each word is modelled as two abstract bytes, copied first to `len` and second to `len + 1`.
- Concurrency is not modelled: every method runs as one atomic step, so the race between arming and a drain running at interrupt priority is out of scope. So is the caller writing to its buffer while a session is pending.
- The unused `u16DebugIrq` field (line 148) is not modelled.
- Radio.CBK4819.constructor: the buffer, size and listener that the source leaves uninitialised start as null, 0 and none. Only a pending session reads them, and only arming makes a session pending.
- The `ModesCount` sentinel of `eFskMode` is not a mode and is not part of `FskMode`.
- Radio.CBK4819.GetFrequency: the two reads are modelled high word first. C++ leaves unspecified the order in which the two operands of `|` are evaluated.
- Radio.CBK4819.GetFrequency: the `int` shift `<< 16` of a high word at or above 0x8000 overflows a signed `int` before the conversion to `unsigned int`. The model takes the resulting bit pattern, which is what two's-complement targets produce.
- Radio.CBK4819.HandleFifoWord: the counter update is written with explicit 16-bit wrap-around. Its precondition, which the session invariant provides, keeps the counter far below 2^16, so the wrap never happens.
- Radio.CBK4819.HandleFifoWord: the `p8RxBuff` null test is kept, but it is always true here. Only a pending session drains, and a pending session always has a buffer.
- Radio.CBK4819.RecieveAsyncAirCopyMode: the caller must pass a buffer holding at least `u8DataLen` bytes. The source relies on this without checking it.
- The listener's `RxDoneHandler` is recorded as the pair of arguments it receives. What the listener does with them is outside the driver.
- Which listener is called is not recorded: the model keeps only whether `pRadioUser` is set. A re-arm with a different `pUser` (line 108) changes the object that receives the call (line 213), and the call log does not show that.
