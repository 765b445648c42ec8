/*
 * The receive session of CBK4819 (libs/radio/radio.hpp) as values: the
 * session fields, what arming, one FIFO drain and one interrupt do to them,
 * and what any run of interrupts does. The driver class in radio_driver.dfy
 * is proved to act on its fields exactly as these functions say.
 */
module RadioSession {
  import opened RadioBits

  /** eState. */
  datatype State = Idle | RxPending

  /**
   * The session fields: State, u16RxDataLen, the bytes of the buffer
   * p8RxBuff points to (empty while it is null), u8RxBuffSize, whether
   * pRadioUser is non-null, and the RxDoneHandler calls made so far as
   * (u8DataLen, bCrcOk) pairs.
   */
  datatype Session = Session(
    state: State,
    rxDataLen: int,
    data: seq<bv8>,
    size: int,
    hasUser: bool,
    callbacks: seq<(int, bool)>)

  /**
   * What one interrupt sees from the hardware: the chip-lock condition,
   * the value of 0x0C, the causes read from 0x2, the four 0x5F words as
   * two bytes each, and the value of 0x0B.
   */
  datatype Env = Env(locked: bool, reg0C: bv16, irqReg: bv16, fifo: seq<(bv8, bv8)>, reg0B: bv16)

  /** The FIFO-almost-full condition always hands over four words. */
  predicate WellFormed(envs: seq<Env>)
  {
    forall k :: 0 <= k < |envs| ==> |envs[k].fifo| == 4
  }

  /**
   * The session invariant. The size fits an unsigned char, the counter
   * moves in steps of 8 and overshoots the size by at most 7 (so the
   * 16-bit counter never wraps), and a pending session has a buffer that
   * holds size bytes and has not yet reached its size.
   */
  predicate Inv(s: Session)
  {
    0 <= s.size < 256 &&
    0 <= s.rxDataLen && s.rxDataLen % 8 == 0 && s.rxDataLen < s.size + 8 &&
    (s.state == RxPending ==> 1 <= s.size <= |s.data| && s.rxDataLen < s.size)
  }

  /** From a counter len that is a multiple of 8, the word holding byte j starts at j - j % 2. */
  lemma WordStart(len: int, j: int)
    requires len % 8 == 0 && len <= j
    ensures len + 2 * ((j - len) / 2) == j - j % 2
  {
  }

  /**
   * One pass of HandleFifoAlmostFull's loop: the word is copied to offsets
   * len and len + 1 only when len < size - 2 (a signed comparison).
   */
  function CopyChunk(b: seq<bv8>, len: int, size: int, w: (bv8, bv8)): (r: seq<bv8>)
    requires 0 <= len && size <= |b|
    ensures |r| == |b|
  {
    if len < size - 2 then b[len := w.0][len + 1 := w.1] else b
  }

  /**
   * The buffer after the loop has handled the words of fifo, starting at
   * counter len. Only offsets from len up to, not including, size - 1 and
   * len + 2 * |fifo| can change.
   */
  function DrainChunks(b: seq<bv8>, len: int, size: int, fifo: seq<(bv8, bv8)>): (r: seq<bv8>)
    requires 0 <= len && size <= |b|
    ensures |r| == |b|
    ensures forall j {:trigger r[j]} :: 0 <= j < |b| && (j < len || j >= size - 1 || j >= len + 2 * |fifo|) ==> r[j] == b[j]
    decreases |fifo|
  {
    if fifo == [] then b
    else DrainChunks(CopyChunk(b, len, size, fifo[0]), len + 2, size, fifo[1..])
  }

  /** The drain of a non-empty word list is one pass, then the drain of the rest. */
  lemma DrainChunksCons(b: seq<bv8>, len: int, size: int, fifo: seq<(bv8, bv8)>)
    requires 0 <= len && size <= |b| && fifo != []
    ensures DrainChunks(b, len, size, fifo) == DrainChunks(CopyChunk(b, len, size, fifo[0]), len + 2, size, fifo[1..])
  {
  }

  /**
   * Byte j of the drained buffer: the word with index k = (j - len) / 2
   * lands at offsets len + 2k and len + 2k + 1 exactly when
   * len + 2k < size - 2; otherwise byte j keeps its value.
   */
  lemma {:induction false} DrainChunksAt(b: seq<bv8>, len: int, size: int, fifo: seq<(bv8, bv8)>, j: int)
    requires 0 <= len && size <= |b|
    requires len <= j < len + 2 * |fifo| && j < |b|
    ensures DrainChunks(b, len, size, fifo)[j] ==
      var k := (j - len) / 2;
      if len + 2 * k < size - 2 then (if (j - len) % 2 == 0 then fifo[k].0 else fifo[k].1)
      else b[j]
    decreases |fifo|
  {
    var b' := CopyChunk(b, len, size, fifo[0]);
    if j < len + 2 {
      assert DrainChunks(b, len, size, fifo) == DrainChunks(b', len + 2, size, fifo[1..]);
    } else {
      DrainChunksAt(b', len + 2, size, fifo[1..], j);
      assert (j - len) / 2 == (j - (len + 2)) / 2 + 1;
    }
  }

  /**
   * HandleFifoAlmostFull on a pending session: the counter grows by 8
   * whether or not bytes were copied; the session completes exactly when
   * the counter reaches the size, and only then is the listener, if any,
   * called, with the size and the CRC bit.
   */
  function Drain(s: Session, fifo: seq<(bv8, bv8)>, reg0B: bv16): (r: Session)
    requires Inv(s) && s.state == RxPending && |fifo| == 4
    ensures Inv(r)
    ensures r.rxDataLen == s.rxDataLen + 8
    ensures r.state == Idle <==> r.rxDataLen >= s.size
    ensures r.callbacks == s.callbacks + (if r.state == Idle && s.hasUser then [(s.size, CrcOk(reg0B))] else [])
    ensures r.size == s.size && r.hasUser == s.hasUser && |r.data| == |s.data|
    ensures forall j {:trigger r.data[j]} :: 0 <= j < |s.data| && (j < s.rxDataLen || j >= s.size - 1) ==> r.data[j] == s.data[j]
  {
    var len := s.rxDataLen + 2 * |fifo|;
    var done := len >= s.size;
    s.(state := if done then Idle else RxPending,
       rxDataLen := len,
       data := DrainChunks(s.data, s.rxDataLen, s.size, fifo),
       callbacks := s.callbacks + if done && s.hasUser then [(s.size, CrcOk(reg0B))] else [])
  }

  /**
   * The counter is even, so words sit at even offsets, and byte j can
   * change only when the word holding it starts below size - 2: the word
   * that would exactly fill the buffer is never copied. A 16-byte buffer
   * never has bytes 14 and 15 written; one of at most 2 bytes is never
   * written at all.
   */
  lemma DrainKeepsUnfilledWords(s: Session, fifo: seq<(bv8, bv8)>, reg0B: bv16)
    requires Inv(s) && s.state == RxPending && |fifo| == 4
    ensures forall j {:trigger Drain(s, fifo, reg0B).data[j]} :: 0 <= j < |s.data| && j - j % 2 >= s.size - 2 ==> Drain(s, fifo, reg0B).data[j] == s.data[j]
  {
    var r := Drain(s, fifo, reg0B);
    forall j | 0 <= j < |s.data| && j - j % 2 >= s.size - 2
      ensures r.data[j] == s.data[j]
    {
      if s.rxDataLen <= j < s.rxDataLen + 8 {
        DrainChunksAt(s.data, s.rxDataLen, s.size, fifo, j);
        WordStart(s.rxDataLen, j);
      }
    }
  }

  /**
   * RecieveAsyncAirCopyMode on the session fields: a null buffer (None) or
   * a zero length changes nothing; otherwise, whatever the state, a new
   * session starts on the new buffer with the counter at 0.
   */
  function Arm(s: Session, buffer: Option<seq<bv8>>, dataLen: int, hasUser: bool): (r: Session)
    requires Inv(s) && 0 <= dataLen < 256
    requires buffer.Some? ==> dataLen <= |buffer.value|
    ensures Inv(r)
    ensures buffer.None? || dataLen == 0 ==> r == s
    ensures buffer.Some? && dataLen != 0 ==>
      r.state == RxPending && r.rxDataLen == 0 && r.data == buffer.value &&
      r.size == dataLen && r.hasUser == hasUser && r.callbacks == s.callbacks
  {
    if buffer.None? || dataLen == 0 then s
    else s.(state := RxPending, rxDataLen := 0, data := buffer.value, size := dataLen, hasUser := hasUser)
  }

  /** An interrupt that reaches HandleFifoAlmostFull when the session is pending. */
  predicate Delivers(e: Env)
  {
    !e.locked && IrqRequested(e.reg0C) && e.irqReg & FifoAlmostFull != 0
  }

  /**
   * InterruptHandler on the session fields. A locked chip, an idle
   * session, a clear request bit or a cause word without FifoAlmostFull
   * leave the session as it was (an RxDone cause alone does nothing);
   * otherwise the FIFO is drained. InterruptFrame states what an
   * interrupt can change.
   */
  function Interrupt(s: Session, e: Env): (r: Session)
    requires Inv(s) && |e.fifo| == 4
    ensures Inv(r)
    ensures r.size == s.size && r.hasUser == s.hasUser && |r.data| == |s.data|
  {
    if e.locked then s
    else if s.state != RxPending then s
    else if !IrqRequested(e.reg0C) then s
    else if e.irqReg & FifoAlmostFull != 0 then Drain(s, e.fifo, e.reg0B)
    else s
  }

  /**
   * What one interrupt can change: nothing unless it delivers FIFO words
   * to a pending session; the counter never goes down; a session still
   * pending was pending before and has made no call; the bytes below the
   * counter and those of every word starting at size - 2 or beyond keep
   * their values.
   */
  lemma InterruptFrame(s: Session, e: Env)
    requires Inv(s) && |e.fifo| == 4
    ensures var r := Interrupt(s, e);
      (!(Delivers(e) && s.state == RxPending) ==> r == s) &&
      s.rxDataLen <= r.rxDataLen &&
      (r.state == RxPending ==> s.state == RxPending && r.callbacks == s.callbacks) &&
      forall j {:trigger r.data[j]} :: 0 <= j < |s.data| && (j < s.rxDataLen || j - j % 2 >= s.size - 2) ==> r.data[j] == s.data[j]
  {
    if Delivers(e) && s.state == RxPending {
      assert Interrupt(s, e) == Drain(s, e.fifo, e.reg0B);
      DrainKeepsUnfilledWords(s, e.fifo, e.reg0B);
    }
  }

  /** The session after a run of interrupts, in order. */
  function Run(s: Session, envs: seq<Env>): (r: Session)
    requires Inv(s) && WellFormed(envs)
    ensures Inv(r)
    ensures r.size == s.size && r.hasUser == s.hasUser && |r.data| == |s.data|
    decreases |envs|
  {
    if envs == [] then s else Run(Interrupt(s, envs[0]), envs[1..])
  }

  /** While the vendor firmware holds the chip, no interrupt changes anything. */
  lemma {:induction false} LockedRunChangesNothing(s: Session, envs: seq<Env>)
    requires Inv(s) && WellFormed(envs)
    requires forall k :: 0 <= k < |envs| ==> envs[k].locked
    ensures Run(s, envs) == s
    decreases |envs|
  {
    if envs != [] {
      InterruptFrame(s, envs[0]);
      LockedRunChangesNothing(Interrupt(s, envs[0]), envs[1..]);
    }
  }

  /** An idle session ignores every interrupt. */
  lemma {:induction false} IdleRunChangesNothing(s: Session, envs: seq<Env>)
    requires Inv(s) && WellFormed(envs) && s.state == Idle
    ensures Run(s, envs) == s
    decreases |envs|
  {
    if envs != [] {
      InterruptFrame(s, envs[0]);
      IdleRunChangesNothing(Interrupt(s, envs[0]), envs[1..]);
    }
  }

  /**
   * Each armed session calls the listener at most once, whatever the
   * interrupts: earlier calls are kept, at most one is added, none while
   * the session is still pending, and none at all without a listener.
   */
  lemma {:induction false} AtMostOneCallback(s: Session, envs: seq<Env>)
    requires Inv(s) && WellFormed(envs)
    ensures var r := Run(s, envs);
      |s.callbacks| <= |r.callbacks| <= |s.callbacks| + (if s.state == RxPending && s.hasUser then 1 else 0) &&
      r.callbacks[..|s.callbacks|] == s.callbacks &&
      (r.state == RxPending ==> r.callbacks == s.callbacks)
    decreases |envs|
  {
    if envs != [] {
      var s' := Interrupt(s, envs[0]);
      InterruptFrame(s, envs[0]);
      AtMostOneCallback(s', envs[1..]);
      if s'.state == Idle {
        IdleRunChangesNothing(s', envs[1..]);
      }
    }
  }

  /**
   * Buffer safety over any run: the buffer keeps its length, and the bytes
   * below the counter at the start of the run and the bytes of every word
   * starting at offset size - 2 or beyond keep their values; in particular
   * nothing at offset size - 1 or beyond is ever written.
   */
  lemma {:induction false} RunKeepsBytes(s: Session, envs: seq<Env>)
    requires Inv(s) && WellFormed(envs)
    ensures var r := Run(s, envs);
      r.size == s.size && |r.data| == |s.data| &&
      forall j {:trigger r.data[j]} :: 0 <= j < |s.data| && (j < s.rxDataLen || j - j % 2 >= s.size - 2) ==> r.data[j] == s.data[j]
    decreases |envs|
  {
    if envs != [] {
      InterruptFrame(s, envs[0]);
      RunKeepsBytes(Interrupt(s, envs[0]), envs[1..]);
    }
  }

  /**
   * Interrupts that each drain the FIFO, the last possibly completing the
   * session: the counter grows by 8 per interrupt, the session is idle at
   * the end exactly when the counter has reached the size, and then the
   * listener (if any) was called once, with the size (not the counter) and
   * the CRC bit of the last interrupt.
   */
  lemma {:induction false} DrainsComplete(s: Session, envs: seq<Env>)
    requires Inv(s) && WellFormed(envs) && s.state == RxPending && envs != []
    requires forall k :: 0 <= k < |envs| ==> Delivers(envs[k])
    requires s.rxDataLen + 8 * (|envs| - 1) < s.size
    ensures var r := Run(s, envs);
      r.rxDataLen == s.rxDataLen + 8 * |envs| &&
      (r.state == Idle <==> r.rxDataLen >= s.size) &&
      r.callbacks == s.callbacks +
        (if r.state == Idle && s.hasUser then [(s.size, CrcOk(envs[|envs| - 1].reg0B))] else [])
    decreases |envs|
  {
    var s' := Interrupt(s, envs[0]);
    if |envs| > 1 {
      DrainsComplete(s', envs[1..]);
    }
  }

  /**
   * Byte i of what the chip hands over during a run, eight bytes per
   * interrupt: interrupt i / 8, FIFO word (i % 8) / 2, its first byte when
   * i is even.
   */
  function Received(envs: seq<Env>, i: int): bv8
    requires WellFormed(envs) && 0 <= i < 8 * |envs|
    decreases |envs|
  {
    if i >= 8 then Received(envs[1..], i - 8)
    else if i % 2 == 0 then envs[0].fifo[i / 2].0
    else envs[0].fifo[i / 2].1
  }

  /**
   * A byte that the first of a run of draining interrupts fills keeps that
   * value to the end of the run: later interrupts only write above it.
   */
  lemma RunKeepsFirstBurst(s: Session, envs: seq<Env>, j: int)
    requires Inv(s) && WellFormed(envs) && s.state == RxPending && envs != [] && Delivers(envs[0])
    requires s.rxDataLen <= j < s.rxDataLen + 8 && j - j % 2 < s.size - 2
    ensures Run(s, envs).data[j] == Received(envs, j - s.rxDataLen)
  {
    var e := envs[0];
    var s' := Interrupt(s, e);
    assert s' == Drain(s, e.fifo, e.reg0B);
    RunKeepsBytes(s', envs[1..]);
    DrainChunksAt(s.data, s.rxDataLen, s.size, e.fifo, j);
    WordStart(s.rxDataLen, j);
  }

  /**
   * A byte beyond the first interrupt's eight that is still below size - 2:
   * the first interrupt leaves the session pending, and the rest of the
   * run fills the byte.
   */
  lemma {:induction false} RunFillsLaterBurst(s: Session, envs: seq<Env>, j: int)
    requires Inv(s) && WellFormed(envs) && s.state == RxPending
    requires forall k :: 0 <= k < |envs| ==> Delivers(envs[k])
    requires s.rxDataLen + 8 <= j < s.rxDataLen + 8 * |envs| && j - j % 2 < s.size - 2
    ensures Run(s, envs).data[j] == Received(envs, j - s.rxDataLen)
    decreases |envs|, 0
  {
    var s' := Interrupt(s, envs[0]);
    var rest := envs[1..];
    assert s'.rxDataLen == s.rxDataLen + 8 && s'.state == RxPending by {
      assert s' == Drain(s, envs[0].fifo, envs[0].reg0B);
    }
    assert Run(s', rest).data[j] == Received(rest, j - s'.rxDataLen) by {
      RunFillsBuffer(s', rest);
    }
    assert Received(envs, j - s.rxDataLen) == Received(rest, j - s'.rxDataLen);
    assert Run(s, envs) == Run(s', rest);
  }

  /**
   * What a pending session receives: over interrupts that each drain the
   * FIFO, every byte from the counter on whose word starts below size - 2
   * ends up holding the matching received byte.
   */
  lemma {:induction false} RunFillsBuffer(s: Session, envs: seq<Env>)
    requires Inv(s) && WellFormed(envs) && s.state == RxPending
    requires forall k :: 0 <= k < |envs| ==> Delivers(envs[k])
    ensures forall j :: s.rxDataLen <= j < s.rxDataLen + 8 * |envs| && j - j % 2 < s.size - 2 ==>
      Run(s, envs).data[j] == Received(envs, j - s.rxDataLen)
    decreases |envs|, 1
  {
    forall j | s.rxDataLen <= j < s.rxDataLen + 8 * |envs| && j - j % 2 < s.size - 2
      ensures Run(s, envs).data[j] == Received(envs, j - s.rxDataLen)
    {
      if j < s.rxDataLen + 8 {
        RunKeepsFirstBurst(s, envs, j);
      } else {
        RunFillsLaterBurst(s, envs, j);
      }
    }
  }

  /**
   * Arming with size C and then delivering ceil(C / 8) FIFO interrupts
   * completes the session, calling the listener exactly once with C; the
   * buffer then holds the received bytes in every word that starts below
   * C - 2 and its old bytes everywhere else.
   */
  lemma ArmThenFill(s: Session, buffer: seq<bv8>, c: int, envs: seq<Env>)
    requires Inv(s) && 1 <= c < 256 && c <= |buffer|
    requires WellFormed(envs) && |envs| == (c + 7) / 8
    requires forall k :: 0 <= k < |envs| ==> Delivers(envs[k])
    ensures var r := Run(Arm(s, Some(buffer), c, true), envs);
      r.state == Idle && r.rxDataLen == 8 * |envs| &&
      r.callbacks == s.callbacks + [(c, CrcOk(envs[|envs| - 1].reg0B))] &&
      |r.data| == |buffer| &&
      forall j :: 0 <= j < |buffer| ==>
        r.data[j] == if j - j % 2 < c - 2 then Received(envs, j) else buffer[j]
  {
    var a := Arm(s, Some(buffer), c, true);
    DrainsComplete(a, envs);
    RunFillsBuffer(a, envs);
    RunKeepsBytes(a, envs);
  }

  /**
   * Capacity 10 and two FIFO interrupts: the first burst fills bytes 0..7;
   * the second copies nothing, because the counter 8 is not below
   * 10 - 2, so bytes 8 and 9 keep their values; the counter ends at 16 and
   * the listener is called once, with 10.
   */
  lemma CapacityTenTwoBursts(s: Session, buffer: seq<bv8>, e1: Env, e2: Env)
    requires Inv(s) && |buffer| == 10
    requires Delivers(e1) && Delivers(e2) && |e1.fifo| == 4 && |e2.fifo| == 4
    ensures var r := Run(Arm(s, Some(buffer), 10, true), [e1, e2]);
      r.state == Idle && r.rxDataLen == 16 &&
      r.callbacks == s.callbacks + [(10, CrcOk(e2.reg0B))] &&
      r.data == [e1.fifo[0].0, e1.fifo[0].1, e1.fifo[1].0, e1.fifo[1].1,
                 e1.fifo[2].0, e1.fifo[2].1, e1.fifo[3].0, e1.fifo[3].1] + buffer[8..]
  {
    ArmThenFill(s, buffer, 10, [e1, e2]);
  }
}
