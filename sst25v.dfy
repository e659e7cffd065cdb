/** The SST25V driver: the bit layer (send and receive one byte), the
    transaction layer (select and deselect) and the command layer (status,
    write enable and disable, read, program and erase), each as a method on
    the bus that appends exactly the frame given by a function below. */
module SST25V {
  import opened Bits
  import opened SpiBus

  // -----------------------------------------------------------------------
  // Opcodes

  const OpWriteStatus: Byte := 0x01
  const OpProgramByte: Byte := 0x02
  const OpRead: Byte := 0x03
  const OpWriteDisable: Byte := 0x04
  const OpReadStatus: Byte := 0x05
  const OpWriteEnable: Byte := 0x06
  const OpBlockErase: Byte := 0xD8

  /** CCS `int32` addition: `Address + i` wraps around at 2^32. */
  function AddWrap(a: Word32, i: nat): Word32
  {
    (a + i) % 0x1_0000_0000
  }

  // -----------------------------------------------------------------------
  // Device scripts: what FLASH_DO must present for the busy-wait loops to end

  /** The wait loop of STFlash_waitUntilReady reads FLASH_DO until it is low,
      and then receives one more byte. */
  predicate WaitEnds(s: seq<bool>)
  {
    |s| > 0 && (if s[0] then WaitEnds(s[1..]) else |s| >= 9)
  }

  /** How many levels the wait loop reads: the leading highs and the low that ends it. */
  function WaitLength(s: seq<bool>): (n: nat)
    requires WaitEnds(s)
    ensures 1 <= n && n + 8 <= |s|
  {
    if s[0] then 1 + WaitLength(s[1..]) else 1
  }

  /** The wait loop reads a high at every step but its last. */
  lemma {:induction false} WaitAt(s: seq<bool>, j: nat)
    requires WaitEnds(s) && j < WaitLength(s)
    ensures s[j] == (j + 1 < WaitLength(s))
  {
    if j > 0 && s[0] {
      WaitAt(s[1..], j - 1);
    }
  }

  /** The status poll of STFlash_WriteBlock, started at level `k` of the
      script, reads whole status bytes until one has bit 0 (the last bit
      received) clear. */
  predicate PollEnds(s: seq<bool>, k: nat)
    decreases |s| - k
  {
    k + 8 <= |s| && (s[k + 7] ==> PollEnds(s, k + 8))
  }

  /** Where the status poll started at level `k` stops: eight levels per status read. */
  function PollEnd(s: seq<bool>, k: nat): (e: nat)
    requires PollEnds(s, k)
    ensures k + 8 <= e <= |s|
    decreases |s| - k
  {
    if s[k + 7] then PollEnd(s, k + 8) else k + 8
  }

  /** The script carries a status poll that ends after each of the first
      `n` byte programs, each poll starting where the one before stopped. */
  predicate CanWrite(s: seq<bool>, n: nat)
    decreases n, 0
  {
    n == 0 || (CanWrite(s, n - 1) && PollEnds(s, WritesUsed(s, n - 1)))
  }

  /** How many levels the status polls of `n` byte programs consume. */
  function WritesUsed(s: seq<bool>, n: nat): (u: nat)
    requires CanWrite(s, n)
    ensures u <= |s|
    decreases n, 1
  {
    if n == 0 then 0 else PollEnd(s, WritesUsed(s, n - 1))
  }

  /** Poll `i + 1` starts where poll `i` stops. */
  lemma WritesUsedNext(s: seq<bool>, i: nat)
    requires CanWrite(s, i + 1)
    ensures CanWrite(s, i) && PollEnds(s, WritesUsed(s, i))
    ensures WritesUsed(s, i + 1) == PollEnd(s, WritesUsed(s, i))
  {
  }

  /** A script that lets `N` polls end lets the first `n` of them end. */
  lemma {:induction false} CanWriteFewer(s: seq<bool>, n: nat, N: nat)
    requires n <= N && CanWrite(s, N)
    ensures CanWrite(s, n)
    decreases N
  {
    if n < N {
      CanWriteFewer(s, n, N - 1);
    }
  }

  // -----------------------------------------------------------------------
  // Frames: the pin operations of each command

  /** The address phase: Make8(a, 2), Make8(a, 1), Make8(a, 0). */
  function AddressFrame(a: Word32): seq<Event>
  {
    SendFrame(Make8(a, 2)) + SendFrame(Make8(a, 1)) + SendFrame(Make8(a, 0))
  }

  function ReadStatusFrame(status: seq<bool>): seq<Event>
    requires |status| == 8
  {
    Transaction(SendFrame(OpReadStatus) + ReceiveBits(status))
  }

  function WaitUntilReadyFrame(s: seq<bool>): seq<Event>
    requires WaitEnds(s)
  {
    var n := WaitLength(s);
    Transaction(SendFrame(OpReadStatus) + PollBits(s[..n]) + ReceiveBits(s[n..n + 8]))
  }

  function WriteEnableFrame(): seq<Event>
  {
    Transaction(SendFrame(OpWriteEnable))
  }

  function WriteDisableFrame(): seq<Event>
  {
    Transaction(SendFrame(OpWriteDisable))
  }

  function WriteStatusFrame(value: Byte): seq<Event>
  {
    WriteEnableFrame()
    + Transaction(SendFrame(OpWriteStatus) + SendFrame(value))
    + WriteDisableFrame()
  }

  function ReadBlockFrame(a: Word32, bits: seq<bool>): seq<Event>
  {
    Transaction(SendFrame(OpRead) + AddressFrame(a) + ReceiveBits(bits))
  }

  function Write1ByteFrame(a: Word32, data: Byte): seq<Event>
  {
    WriteEnableFrame() + Transaction(SendFrame(OpProgramByte) + AddressFrame(a) + SendFrame(data))
  }

  /** STFlash_EraseBlock raises FLASH_SELECT once itself and then calls
      chip_deselect(), so the body of its transaction ends with a SelectHigh
      and the frame has two SelectHigh events in a row. */
  function EraseBlockFrame(a: Word32): seq<Event>
  {
    WriteEnableFrame()
    + Transaction(SendFrame(OpBlockErase) + AddressFrame(a) + [SelectHigh])
    + WriteDisableFrame()
  }

  /** The status poll started at level `k`: status reads until one reports not busy. */
  function PollFrame(s: seq<bool>, k: nat): seq<Event>
    requires PollEnds(s, k)
    decreases |s| - k, 1
  {
    ReadStatusFrame(s[k..k + 8]) + PollAfter(s, k)
  }

  /** The status reads that follow the first one of a poll. */
  function PollAfter(s: seq<bool>, k: nat): seq<Event>
    requires PollEnds(s, k)
    decreases |s| - k, 0
  {
    if s[k + 7] then PollFrame(s, k + 8) else []
  }

  /** One pass of the loop of STFlash_WriteBlock: the byte program, then
      the status poll on the levels of `s` from `k` on. */
  function ProgramFrame(a: Word32, data: Byte, s: seq<bool>, k: nat): seq<Event>
    requires PollEnds(s, k)
  {
    Write1ByteFrame(a, data) + PollFrame(s, k)
  }

  /** The first `n` passes of the loop of STFlash_WriteBlock: pass `i`
      programs `data[i]` at `a + i` and then polls the status with the
      levels left over by the polls before it. */
  function WritesPrefix(a: Word32, data: seq<Byte>, n: nat, s: seq<bool>): seq<Event>
    requires n <= |data| && CanWrite(s, n)
  {
    if n == 0 then []
    else WritesPrefix(a, data, n - 1, s) + ProgramFrame(AddWrap(a, n - 1), data[n - 1], s, WritesUsed(s, n - 1))
  }

  /** Pass `i` of the loop appends its byte program and its poll. */
  lemma WritesPrefixNext(a: Word32, data: seq<Byte>, i: nat, s: seq<bool>, t: seq<Event>)
    requires i < |data| && CanWrite(s, i + 1)
    ensures CanWrite(s, i) && PollEnds(s, WritesUsed(s, i))
    ensures t + WritesPrefix(a, data, i, s) + ProgramFrame(AddWrap(a, i), data[i], s, WritesUsed(s, i))
            == t + WritesPrefix(a, data, i + 1, s)
  {
    Assoc(t, WritesPrefix(a, data, i, s), ProgramFrame(AddWrap(a, i), data[i], s, WritesUsed(s, i)));
  }

  function WriteBlockFrame(a: Word32, data: seq<Byte>, s: seq<bool>): seq<Event>
    requires CanWrite(s, |data|)
  {
    WritesPrefix(a, data, |data|, s) + WriteDisableFrame()
  }

  // -----------------------------------------------------------------------
  // Transaction layer

  /** chip_select(). */
  method ChipSelect(bus: Bus)
    modifies bus
    ensures bus.input == old(bus.input)
    ensures bus.trace == old(bus.trace) + SelectFrame()
  {
    bus.OutputClock(false);
    bus.OutputSelect(false);
  }

  /** chip_deselect(). */
  method ChipDeselect(bus: Bus)
    modifies bus
    ensures bus.input == old(bus.input)
    ensures bus.trace == old(bus.trace) + DeselectFrame()
  {
    bus.OutputSelect(true);
    bus.OutputClock(false);
  }

  // -----------------------------------------------------------------------
  // Bit layer

  /** STFlash_SendByte: shifts `data` out of bit 7 eight times, driving each
      bit on FLASH_DI and pulsing the clock. */
  method SendByte(bus: Bus, data: Byte)
    modifies bus
    ensures bus.input == old(bus.input)
    ensures bus.trace == old(bus.trace) + SendFrame(data)
  {
    var d := data;
    var i := 0;
    while i < 8
      invariant 0 <= i <= 8
      invariant d == ShiftedOut(data, i).0
      invariant bus.trace == old(bus.trace) + SendBits(ShiftedOut(data, i).1)
      invariant bus.input == old(bus.input)
    {
      var shifted := ShiftLeft(d, false);
      ghost var sent := ShiftedOut(data, i + 1).1;
      assert sent[..i] == ShiftedOut(data, i).1 && sent[i] == shifted.1;
      SendBitsNext(sent, i);
      Append3(old(bus.trace), SendBits(sent[..i]), DataOut(sent[i]), ClockHigh, ClockLow);
      d := shifted.0;
      bus.OutputData(shifted.1);
      bus.OutputClock(true);
      bus.OutputClock(false);
      i := i + 1;
      assert sent[..i] == sent;
    }
    ShiftedOutAll(data);
  }

  /** STFlash_GetByte: eight clock pulses, shifting the FLASH_DO level into
      bit 0 at each. `flashData` is never initialised in the driver; the
      result is the eight samples whatever it held. */
  method GetByte(bus: Bus) returns (flashData: Byte)
    requires |bus.input| >= 8
    modifies bus
    ensures flashData == ByteOf(old(bus.input)[..8])
    ensures bus.input == old(bus.input)[8..]
    ensures bus.trace == old(bus.trace) + ReceiveBits(old(bus.input)[..8])
  {
    var stale: int := *;
    flashData := stale % 0x100;
    ghost var initial := flashData;
    ghost var bits := bus.input[..8];
    var i := 0;
    while i < 8
      invariant 0 <= i <= 8
      invariant flashData == ShiftedIn(initial, bits[..i])
      invariant bus.input == old(bus.input)[i..]
      invariant bus.trace == old(bus.trace) + ReceiveBits(bits[..i])
    {
      ShiftedNext(initial, bits, i);
      ReceiveBitsNext(bits, i);
      Append3(old(bus.trace), ReceiveBits(bits[..i]), ClockHigh, Sample(bits[i]), ClockLow);
      bus.OutputClock(true);
      var b := bus.Input();
      assert b == bits[i];
      flashData := ShiftLeft(flashData, b).0;
      bus.OutputClock(false);
      i := i + 1;
    }
    assert bits[..8] == bits;
    ShiftedInAll(initial, bits);
  }

  /** The inner loop of STFlash_getBytes: eight clock pulses, shifting the
      FLASH_DO level into `data[i]` in place at each. */
  method ShiftInto(bus: Bus, data: array<Byte>, i: nat)
    requires i < data.Length && |bus.input| >= 8
    modifies bus, data
    ensures data[..] == old(data[..])[i := ByteOf(old(bus.input)[..8])]
    ensures bus.input == old(bus.input)[8..]
    ensures bus.trace == old(bus.trace) + ReceiveBits(old(bus.input)[..8])
  {
    ghost var bits := bus.input[..8];
    ghost var entry := data[..];
    var j := 0;
    while j < 8
      invariant 0 <= j <= 8
      invariant data[..] == entry[i := ShiftedIn(entry[i], bits[..j])]
      invariant bus.input == old(bus.input)[j..]
      invariant bus.trace == old(bus.trace) + ReceiveBits(bits[..j])
    {
      ShiftedNext(entry[i], bits, j);
      ReceiveBitsNext(bits, j);
      Append3(old(bus.trace), ReceiveBits(bits[..j]), ClockHigh, Sample(bits[j]), ClockLow);
      bus.OutputClock(true);
      var b := bus.Input();
      assert b == bits[j];
      data[i] := ShiftLeft(data[i], b).0;
      bus.OutputClock(false);
      j := j + 1;
    }
    assert bits[..8] == bits;
    ShiftedInAll(entry[i], bits);
  }

  /** One pass of the outer loop of STFlash_getBytes keeps its invariant. */
  lemma GetBytesStep(s: seq<bool>, i: nat, t0: seq<Event>, init: seq<Byte>, before: seq<Byte>, after: seq<Byte>)
    requires 8 * (i + 1) <= |s| && i < |before| == |init|
    requires before[..i] == Unpack(s[..8 * i]) && before[i..] == init[i..]
    requires after == before[i := ByteOf(s[8 * i..][..8])]
    ensures after[..i + 1] == Unpack(s[..8 * (i + 1)]) && after[i + 1..] == init[i + 1..]
    ensures s[8 * i..][8..] == s[8 * (i + 1)..]
    ensures t0 + ReceiveBits(s[..8 * i]) + ReceiveBits(s[8 * i..][..8]) == t0 + ReceiveBits(s[..8 * (i + 1)])
  {
    ReceiveGroup(s, i);
    UnpackStore(s, i, before, after);
    assert before[i + 1..] == init[i..][1..];
  }

  /** STFlash_getBytes: fills `data[0..size)` in increasing order, shifting
      eight samples into each entry in place; entries from `size` on are
      left as they were. */
  method GetBytes(bus: Bus, data: array<Byte>, size: Word16)
    requires size <= data.Length && 8 * size <= |bus.input|
    modifies bus, data
    ensures data[..size] == Unpack(old(bus.input)[..8 * size])
    ensures data[size..] == old(data[size..])
    ensures bus.input == old(bus.input)[8 * size..]
    ensures bus.trace == old(bus.trace) + ReceiveBits(old(bus.input)[..8 * size])
  {
    ghost var s := bus.input;
    ghost var init := data[..];
    var i := 0;
    while i < size
      invariant 0 <= i <= size
      invariant data[..i] == Unpack(s[..8 * i])
      invariant data[i..] == init[i..]
      invariant bus.input == s[8 * i..]
      invariant bus.trace == old(bus.trace) + ReceiveBits(s[..8 * i])
    {
      ghost var entry := data[..];
      ShiftInto(bus, data, i);
      GetBytesStep(s, i, old(bus.trace), init, entry, data[..]);
      i := i + 1;
    }
  }

  // -----------------------------------------------------------------------
  // Command layer

  /** STFlash_readStatus: one status-read transaction; returns the byte received. */
  method ReadStatus(bus: Bus) returns (status: Byte)
    requires |bus.input| >= 8
    modifies bus
    ensures status == ByteOf(old(bus.input)[..8])
    ensures bus.input == old(bus.input)[8..]
    ensures bus.trace == old(bus.trace) + ReadStatusFrame(old(bus.input)[..8])
  {
    ghost var t, bits := bus.trace, bus.input[..8];
    ChipSelect(bus);
    SendByte(bus, OpReadStatus);
    status := GetByte(bus);
    ChipDeselect(bus);
    Assoc(t + SelectFrame(), SendFrame(OpReadStatus), ReceiveBits(bits));
    Concat3(t, SelectFrame(), SendFrame(OpReadStatus) + ReceiveBits(bits), DeselectFrame());
  }

  /** The busy-wait `while(input(FLASH_DO));` of STFlash_waitUntilReady:
      reads FLASH_DO, with no clock pulse, until it is low. */
  method WaitLow(bus: Bus)
    requires WaitEnds(bus.input)
    modifies bus
    ensures bus.input == old(bus.input)[WaitLength(old(bus.input))..]
    ensures bus.trace == old(bus.trace) + PollBits(old(bus.input)[..WaitLength(old(bus.input))])
  {
    ghost var s := bus.input;
    ghost var n := WaitLength(s);
    PollBitsNext(s, 0);
    WaitAt(s, 0);
    var busy := bus.Input();
    ghost var k := 1;
    while busy
      invariant 1 <= k <= n && busy == (k < n)
      invariant bus.input == s[k..]
      invariant bus.trace == old(bus.trace) + PollBits(s[..k])
      decreases n - k
    {
      PollBitsNext(s, k);
      WaitAt(s, k);
      busy := bus.Input();
      k := k + 1;
    }
  }

  /** The pieces of the STFlash_waitUntilReady frame, appended one by one. */
  lemma WaitUntilReadyPieces(t: seq<Event>, s: seq<bool>)
    requires WaitEnds(s)
    ensures t + SelectFrame() + SendFrame(OpReadStatus) + PollBits(s[..WaitLength(s)])
              + ReceiveBits(s[WaitLength(s)..WaitLength(s) + 8]) + DeselectFrame()
            == t + WaitUntilReadyFrame(s)
  {
    var n := WaitLength(s);
    var send, poll, recv := SendFrame(OpReadStatus), PollBits(s[..n]), ReceiveBits(s[n..n + 8]);
    Assoc(t + SelectFrame(), send, poll);
    Assoc(t + SelectFrame(), send + poll, recv);
    Concat3(t, SelectFrame(), send + poll + recv, DeselectFrame());
  }

  /** STFlash_waitUntilReady: sends the status opcode, waits for FLASH_DO to
      go low, then clocks in one more byte and drops it. */
  method WaitUntilReady(bus: Bus)
    requires WaitEnds(bus.input)
    modifies bus
    ensures bus.input == old(bus.input)[WaitLength(old(bus.input)) + 8..]
    ensures bus.trace == old(bus.trace) + WaitUntilReadyFrame(old(bus.input))
  {
    ghost var t, s := bus.trace, bus.input;
    ghost var n := WaitLength(s);
    ChipSelect(bus);
    SendByte(bus, OpReadStatus);
    WaitLow(bus);
    assert bus.input[..8] == s[n..n + 8] && bus.input[8..] == s[n + 8..];
    var discarded := GetByte(bus);
    ChipDeselect(bus);
    WaitUntilReadyPieces(t, s);
  }

  /** STFlash_WriteEnable: a transaction carrying opcode 0x06 alone. */
  method WriteEnable(bus: Bus)
    modifies bus
    ensures bus.input == old(bus.input)
    ensures bus.trace == old(bus.trace) + WriteEnableFrame()
  {
    Concat3(bus.trace, SelectFrame(), SendFrame(OpWriteEnable), DeselectFrame());
    ChipSelect(bus);
    SendByte(bus, OpWriteEnable);
    ChipDeselect(bus);
  }

  /** STFlash_WriteDisable: a transaction carrying opcode 0x04 alone. */
  method WriteDisable(bus: Bus)
    modifies bus
    ensures bus.input == old(bus.input)
    ensures bus.trace == old(bus.trace) + WriteDisableFrame()
  {
    Concat3(bus.trace, SelectFrame(), SendFrame(OpWriteDisable), DeselectFrame());
    ChipSelect(bus);
    SendByte(bus, OpWriteDisable);
    ChipDeselect(bus);
  }

  /** STFlash_writeStatus: write enable, opcode 0x01 and the value, write disable. */
  method WriteStatus(bus: Bus, value: Byte)
    modifies bus
    ensures bus.input == old(bus.input)
    ensures bus.trace == old(bus.trace) + WriteStatusFrame(value)
  {
    ghost var t := bus.trace;
    WriteEnable(bus);
    ChipSelect(bus);
    SendByte(bus, OpWriteStatus);
    SendByte(bus, value);
    ChipDeselect(bus);
    WriteDisable(bus);
    ghost var body := SendFrame(OpWriteStatus) + SendFrame(value);
    Assoc(t + WriteEnableFrame() + SelectFrame(), SendFrame(OpWriteStatus), SendFrame(value));
    Concat3(t + WriteEnableFrame(), SelectFrame(), body, DeselectFrame());
    Concat3(t, WriteEnableFrame(), Transaction(body), WriteDisableFrame());
  }

  /** The three address bytes, most significant first. */
  method SendAddress(bus: Bus, address: Word32)
    modifies bus
    ensures bus.input == old(bus.input)
    ensures bus.trace == old(bus.trace) + AddressFrame(address)
  {
    Concat3(bus.trace, SendFrame(Make8(address, 2)), SendFrame(Make8(address, 1)), SendFrame(Make8(address, 0)));
    SendByte(bus, Make8(address, 2));
    SendByte(bus, Make8(address, 1));
    SendByte(bus, Make8(address, 0));
  }

  /** STFlash_ReadBlock: opcode 0x03, the address, then `size` bytes into `buffer`. */
  method ReadBlock(bus: Bus, address: Word32, buffer: array<Byte>, size: Word16)
    requires size <= buffer.Length && 8 * size <= |bus.input|
    modifies bus, buffer
    ensures buffer[..size] == Unpack(old(bus.input)[..8 * size])
    ensures buffer[size..] == old(buffer[size..])
    ensures bus.input == old(bus.input)[8 * size..]
    ensures bus.trace == old(bus.trace) + ReadBlockFrame(address, old(bus.input)[..8 * size])
  {
    ghost var t, bits := bus.trace, bus.input[..8 * size];
    ChipSelect(bus);
    SendByte(bus, OpRead);
    SendAddress(bus, address);
    GetBytes(bus, buffer, size);
    ChipDeselect(bus);
    ghost var op, addr, recv := SendFrame(OpRead), AddressFrame(address), ReceiveBits(bits);
    Assoc(t + SelectFrame(), op, addr);
    Assoc(t + SelectFrame(), op + addr, recv);
    Concat3(t, SelectFrame(), op + addr + recv, DeselectFrame());
  }

  /** STFlash_Write1Byte: write enable, then opcode 0x02, the address and the
      data byte. It does not disable writing afterwards. */
  method Write1Byte(bus: Bus, address: Word32, data: Byte)
    modifies bus
    ensures bus.input == old(bus.input)
    ensures bus.trace == old(bus.trace) + Write1ByteFrame(address, data)
  {
    ghost var t := bus.trace;
    WriteEnable(bus);
    ChipSelect(bus);
    SendByte(bus, OpProgramByte);
    SendAddress(bus, address);
    SendByte(bus, data);
    ChipDeselect(bus);
    ghost var u, op, addr, value := t + WriteEnableFrame() + SelectFrame(), SendFrame(OpProgramByte), AddressFrame(address), SendFrame(data);
    Assoc(u, op, addr);
    Assoc(u, op + addr, value);
    Concat3(t + WriteEnableFrame(), SelectFrame(), op + addr + value, DeselectFrame());
    Assoc(t, WriteEnableFrame(), Transaction(op + addr + value));
  }

  /** One more status read of the poll in STFlash_WriteBlock. */
  lemma PollStep(s: seq<bool>, c: nat)
    requires PollEnds(s, c) && s[c + 7]
    ensures PollEnds(s, c + 8) && PollEnd(s, c) == PollEnd(s, c + 8)
    ensures PollAfter(s, c) == ReadStatusFrame(s[c + 8..c + 16]) + PollAfter(s, c + 8)
  {
  }

  /** One status read of the poll of STFlash_WriteBlock, on the levels of
      `s` from `k` on: the busy flag it returns is level `k + 7`. */
  method ReadStatusAt(bus: Bus, ghost s: seq<bool>, ghost k: nat) returns (status: Byte)
    requires k + 8 <= |s| && bus.input == s[k..]
    modifies bus
    ensures status % 2 == 1 <==> s[k + 7]
    ensures bus.input == s[k + 8..]
    ensures bus.trace == old(bus.trace) + ReadStatusFrame(s[k..k + 8])
  {
    assert s[k..][..8] == s[k..k + 8] && s[k..][8..] == s[k + 8..];
    status := ReadStatus(bus);
    ByteOfBit0(s[k..k + 8]);
  }

  /** The state of the bus inside the status poll of STFlash_WriteBlock
      that started at level `k` with trace `t`: the status read on the levels
      from `c` on is the latest one. */
  ghost predicate Polling(s: seq<bool>, k: nat, t: seq<Event>, c: nat, input: seq<bool>, trace: seq<Event>)
  {
    PollEnds(s, k) && PollEnds(s, c) && PollEnd(s, c) == PollEnd(s, k)
    && input == s[c + 8..] && trace + PollAfter(s, c) == t + PollFrame(s, k)
  }

  /** One more pass of the status poll, after a status read that reported
      busy; returns the new status and where its levels start. */
  method PollAgain(bus: Bus, ghost s: seq<bool>, ghost k: nat, ghost t: seq<Event>, ghost c: nat)
    returns (status: Byte, ghost next: nat)
    requires Polling(s, k, t, c, bus.input, bus.trace) && s[c + 7]
    modifies bus
    ensures next == c + 8 && Polling(s, k, t, next, bus.input, bus.trace)
    ensures status % 2 == 1 <==> s[next + 7]
  {
    PollStep(s, c);
    Assoc(bus.trace, ReadStatusFrame(s[c + 8..c + 16]), PollAfter(s, c + 8));
    status := ReadStatusAt(bus, s, c + 8);
    next := c + 8;
  }

  /** The status poll `while(STFlash_readStatus() & 0x01);` of
      STFlash_WriteBlock: status reads until one has bit 0 clear. The device
      presents the levels of `s` from `k` on. */
  method PollStatus(bus: Bus, ghost s: seq<bool>, ghost k: nat)
    requires PollEnds(s, k) && bus.input == s[k..]
    modifies bus
    ensures bus.input == s[PollEnd(s, k)..]
    ensures bus.trace == old(bus.trace) + PollFrame(s, k)
  {
    ghost var t := bus.trace;
    var status := ReadStatusAt(bus, s, k);
    ghost var c := k;
    Assoc(t, ReadStatusFrame(s[k..k + 8]), PollAfter(s, k));
    while status % 2 == 1
      invariant Polling(s, k, t, c, bus.input, bus.trace)
      invariant status % 2 == 1 <==> s[c + 7]
      decreases |s| - c
    {
      status, c := PollAgain(bus, s, k, t, c);
    }
    assert bus.trace + [] == bus.trace;
  }

  /** The body of the loop of STFlash_WriteBlock: one byte program, then
      the status poll. */
  method ProgramByte(bus: Bus, address: Word32, data: Byte, ghost s: seq<bool>, ghost k: nat)
    requires PollEnds(s, k) && bus.input == s[k..]
    modifies bus
    ensures bus.input == s[PollEnd(s, k)..]
    ensures bus.trace == old(bus.trace) + ProgramFrame(address, data, s, k)
  {
    ghost var t := bus.trace;
    Write1Byte(bus, address, data);
    PollStatus(bus, s, k);
    Assoc(t, Write1ByteFrame(address, data), PollFrame(s, k));
  }

  /** The state of the bus after the first `i` passes of the loop of
      STFlash_WriteBlock, started with trace `t` and script `s`. */
  ghost predicate Written(a: Word32, data: seq<Byte>, s: seq<bool>, t: seq<Event>, i: nat,
                          input: seq<bool>, trace: seq<Event>)
  {
    i <= |data| && CanWrite(s, i) && input == s[WritesUsed(s, i)..]
    && trace == t + WritesPrefix(a, data, i, s)
  }

  /** Pass `i` of the loop of STFlash_WriteBlock, programming `b`, which is
      `data[i]`; returns the index of the next pass. */
  method WritePass(bus: Bus, address: Word32, i: Word16, b: Byte,
                   ghost data: seq<Byte>, ghost s: seq<bool>, ghost t: seq<Event>) returns (next: Word16)
    requires i < |data| < 0x1_0000 && data[i] == b && CanWrite(s, |data|)
    requires Written(address, data, s, t, i, bus.input, bus.trace)
    modifies bus
    ensures next as int == i as int + 1 && Written(address, data, s, t, next, bus.input, bus.trace)
  {
    next := i + 1;
    CanWriteFewer(s, i + 1, |data|);
    WritesUsedNext(s, i);
    WritesPrefixNext(address, data, i, s, t);
    ProgramByte(bus, AddWrap(address, i), b, s, WritesUsed(s, i));
  }

  /** The write disable that ends STFlash_WriteBlock, after all `|data|` passes. */
  method FinishBlock(bus: Bus, address: Word32, ghost data: seq<Byte>, ghost s: seq<bool>, ghost t: seq<Event>,
                      ghost n: nat)
    requires n == |data| && Written(address, data, s, t, n, bus.input, bus.trace)
    modifies bus
    ensures CanWrite(s, n) && bus.input == s[WritesUsed(s, n)..]
    ensures bus.trace == t + WriteBlockFrame(address, data, s)
  {
    Assoc(t, WritesPrefix(address, data, |data|, s), WriteDisableFrame());
    WriteDisable(bus);
  }

  /** STFlash_WriteBlock: for i = 0, 1, ..., size - 1 in turn, programs
      `buffer[i]` at `Address + i` (wrapping at 2^32) and polls the status
      register until bit 0 (busy) is clear; then disables writing once.
      The buffer is only read. */
  method WriteBlock(bus: Bus, address: Word32, buffer: array<Byte>, size: Word16)
    requires size <= buffer.Length && CanWrite(bus.input, size)
    modifies bus
    ensures bus.input == old(bus.input)[WritesUsed(old(bus.input), size)..]
    ensures bus.trace == old(bus.trace) + WriteBlockFrame(address, old(buffer[..size]), old(bus.input))
  {
    ghost var s, t, data := bus.input, bus.trace, buffer[..size];
    assert |data| == size as int && CanWrite(s, |data|);
    assert Written(address, data, s, t, 0, bus.input, bus.trace) by {
      assert s[0..] == s;
      assert t + [] == t;
    }
    var i: Word16 := 0;
    while i < size
      invariant i <= size && |data| == size as int && CanWrite(s, |data|)
      invariant Written(address, data, s, t, i, bus.input, bus.trace)
    {
      i := WritePass(bus, address, i, buffer[i], data, s, t);
    }
    FinishBlock(bus, address, data, s, t, size);
  }

  /** STFlash_EraseBlock: write enable, opcode 0xD8 and the address, then
      FLASH_SELECT raised once directly and once more by chip_deselect(),
      then write disable. */
  method EraseBlock(bus: Bus, address: Word32)
    modifies bus
    ensures bus.input == old(bus.input)
    ensures bus.trace == old(bus.trace) + EraseBlockFrame(address)
  {
    ghost var t := bus.trace;
    WriteEnable(bus);
    ChipSelect(bus);
    SendByte(bus, OpBlockErase);
    SendAddress(bus, address);
    bus.OutputSelect(true);
    ChipDeselect(bus);
    WriteDisable(bus);
    ghost var u, op, addr := t + WriteEnableFrame() + SelectFrame(), SendFrame(OpBlockErase), AddressFrame(address);
    Assoc(u, op, addr);
    Assoc(u, op + addr, [SelectHigh]);
    Concat3(t + WriteEnableFrame(), SelectFrame(), op + addr + [SelectHigh], DeselectFrame());
    Concat3(t, WriteEnableFrame(), Transaction(op + addr + [SelectHigh]), WriteDisableFrame());
  }
}
