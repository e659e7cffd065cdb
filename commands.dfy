/** Properties of the command frames of the SST25V driver that hold for
    every input: each command pairs chip_select() with chip_deselect() and
    leaves FLASH_SELECT high and FLASH_CLOCK low, and an addressed command
    depends on its address only modulo 2^24, the three bytes it sends. */
module Commands {
  import opened Bits
  import opened SpiBus
  import opened SST25V

  // -----------------------------------------------------------------------
  // Select discipline and final pin levels

  lemma SendFrameKeeps(b: Byte)
    ensures KeepsSelect(SendFrame(b))
  {
    SendBitsKeeps(MsbFirst(b));
  }

  lemma AddressFrameKeeps(a: Word32)
    ensures KeepsSelect(AddressFrame(a))
  {
    SendFrameKeeps(Make8(a, 2));
    SendFrameKeeps(Make8(a, 1));
    SendFrameKeeps(Make8(a, 0));
    KeepsSelectAppend(SendFrame(Make8(a, 2)), SendFrame(Make8(a, 1)));
    KeepsSelectAppend(SendFrame(Make8(a, 2)) + SendFrame(Make8(a, 1)), SendFrame(Make8(a, 0)));
  }

  /** A transaction that sends an opcode and then leaves FLASH_SELECT alone. */
  lemma OpcodeFramed(op: Byte, rest: seq<Event>)
    requires KeepsSelect(rest)
    ensures WellFramed(Transaction(SendFrame(op) + rest))
  {
    SendFrameKeeps(op);
    KeepsSelectAppend(SendFrame(op), rest);
    TransactionFramed(SendFrame(op) + rest);
  }

  /** STFlash_readStatus: one well-framed transaction. */
  lemma ReadStatusFramed(status: seq<bool>)
    requires |status| == 8
    ensures WellFramed(ReadStatusFrame(status))
  {
    ReceiveBitsKeeps(status);
    OpcodeFramed(OpReadStatus, ReceiveBits(status));
  }

  /** STFlash_waitUntilReady: one well-framed transaction. */
  lemma WaitUntilReadyFramed(s: seq<bool>)
    requires WaitEnds(s)
    ensures WellFramed(WaitUntilReadyFrame(s))
  {
    var n := WaitLength(s);
    var op, polls, last := SendFrame(OpReadStatus), PollBits(s[..n]), ReceiveBits(s[n..n + 8]);
    SendFrameKeeps(OpReadStatus);
    PollBitsKeeps(s[..n]);
    ReceiveBitsKeeps(s[n..n + 8]);
    KeepsSelectAppend(op, polls);
    KeepsSelectAppend(op + polls, last);
    TransactionFramed(op + polls + last);
  }

  /** STFlash_WriteEnable and STFlash_WriteDisable: one well-framed transaction each. */
  lemma WriteEnableDisableFramed()
    ensures WellFramed(WriteEnableFrame()) && WellFramed(WriteDisableFrame())
  {
    SendFrameKeeps(OpWriteEnable);
    TransactionFramed(SendFrame(OpWriteEnable));
    SendFrameKeeps(OpWriteDisable);
    TransactionFramed(SendFrame(OpWriteDisable));
  }

  /** STFlash_writeStatus: write enable, the status write, write disable, all well framed. */
  lemma WriteStatusFramed(value: Byte)
    ensures WellFramed(WriteStatusFrame(value))
  {
    WriteEnableDisableFramed();
    SendFrameKeeps(value);
    OpcodeFramed(OpWriteStatus, SendFrame(value));
    var we, ws := WriteEnableFrame(), Transaction(SendFrame(OpWriteStatus) + SendFrame(value));
    WellFramedAppend(we, ws);
    WellFramedAppend(we + ws, WriteDisableFrame());
  }

  /** STFlash_ReadBlock: one well-framed transaction. */
  lemma ReadBlockFramed(a: Word32, bits: seq<bool>)
    ensures WellFramed(ReadBlockFrame(a, bits))
  {
    AddressFrameKeeps(a);
    ReceiveBitsKeeps(bits);
    KeepsSelectAppend(AddressFrame(a), ReceiveBits(bits));
    assert SendFrame(OpRead) + AddressFrame(a) + ReceiveBits(bits)
        == SendFrame(OpRead) + (AddressFrame(a) + ReceiveBits(bits));
    OpcodeFramed(OpRead, AddressFrame(a) + ReceiveBits(bits));
  }

  /** STFlash_Write1Byte: write enable, then the byte program, both well framed. */
  lemma Write1ByteFramed(a: Word32, data: Byte)
    ensures WellFramed(Write1ByteFrame(a, data))
  {
    WriteEnableDisableFramed();
    AddressFrameKeeps(a);
    SendFrameKeeps(data);
    KeepsSelectAppend(AddressFrame(a), SendFrame(data));
    assert SendFrame(OpProgramByte) + AddressFrame(a) + SendFrame(data)
        == SendFrame(OpProgramByte) + (AddressFrame(a) + SendFrame(data));
    OpcodeFramed(OpProgramByte, AddressFrame(a) + SendFrame(data));
    WellFramedAppend(WriteEnableFrame(), Transaction(SendFrame(OpProgramByte) + AddressFrame(a) + SendFrame(data)));
  }

  /** STFlash_EraseBlock: write enable, the erase, write disable, all well
      framed; the extra FLASH_SELECT high before chip_deselect() is harmless. */
  lemma EraseBlockFramed(a: Word32)
    ensures WellFramed(EraseBlockFrame(a))
  {
    WriteEnableDisableFramed();
    var body := SendFrame(OpBlockErase) + AddressFrame(a);
    SendFrameKeeps(OpBlockErase);
    AddressFrameKeeps(a);
    KeepsSelectAppend(SendFrame(OpBlockErase), AddressFrame(a));
    var tail := [SelectHigh] + DeselectFrame();
    assert tail[1..] == DeselectFrame() && tail[1..][1..] == [ClockLow] && tail[1..][1..][1..] == [];
    SelectedPaired(body, tail);
    var erase := Transaction(body + [SelectHigh]);
    assert erase == SelectFrame() + body + tail;
    assert erase[|erase| - 2..] == DeselectFrame();
    WellFramedAppend(WriteEnableFrame(), erase);
    WellFramedAppend(WriteEnableFrame() + erase, WriteDisableFrame());
  }

  /** The status poll of STFlash_WriteBlock: well-framed status reads. */
  lemma {:induction false} PollFramed(s: seq<bool>, k: nat)
    requires PollEnds(s, k)
    ensures WellFramed(PollFrame(s, k))
    decreases |s| - k
  {
    ReadStatusFramed(s[k..k + 8]);
    if s[k + 7] {
      PollFramed(s, k + 8);
      WellFramedAppend(ReadStatusFrame(s[k..k + 8]), PollFrame(s, k + 8));
    } else {
      assert PollFrame(s, k) == ReadStatusFrame(s[k..k + 8]) + [];
      assert ReadStatusFrame(s[k..k + 8]) + [] == ReadStatusFrame(s[k..k + 8]);
    }
  }

  /** The passes of the loop of STFlash_WriteBlock pair their selects. */
  lemma {:induction false} WritesPrefixPaired(a: Word32, data: seq<Byte>, n: nat, s: seq<bool>)
    requires n <= |data| && CanWrite(s, n)
    ensures Paired(true, WritesPrefix(a, data, n, s))
  {
    if n > 0 {
      WritesUsedNext(s, n - 1);
      var x, k := AddWrap(a, n - 1), WritesUsed(s, n - 1);
      WritesPrefixPaired(a, data, n - 1, s);
      Write1ByteFramed(x, data[n - 1]);
      PollFramed(s, k);
      WellFramedAppend(Write1ByteFrame(x, data[n - 1]), PollFrame(s, k));
      PairedAppend(true, WritesPrefix(a, data, n - 1, s), ProgramFrame(x, data[n - 1], s, k));
    }
  }

  /** STFlash_WriteBlock, for any size including zero, is well framed: it
      ends with the chip_deselect() of its write disable. */
  lemma WriteBlockFramed(a: Word32, data: seq<Byte>, s: seq<bool>)
    requires CanWrite(s, |data|)
    ensures WellFramed(WriteBlockFrame(a, data, s))
  {
    WritesPrefixPaired(a, data, |data|, s);
    WriteEnableDisableFramed();
    PairedAppend(true, WritesPrefix(a, data, |data|, s), WriteDisableFrame());
    EndsDeselectedAppend(WritesPrefix(a, data, |data|, s), WriteDisableFrame());
  }

  // -----------------------------------------------------------------------
  // Addresses: only the low 24 bits are sent

  /** The bits driven on FLASH_DI determine the bit string sent. */
  lemma SendBitsInjective(x: seq<bool>, y: seq<bool>)
    requires |x| == |y| && SendBits(x) == SendBits(y)
    ensures x == y
  {
    forall k | 0 <= k < |x|
      ensures x[k] == y[k]
    {
      SendBitsAt(x, k);
      SendBitsAt(y, k);
      assert SendBits(x)[3 * k..3 * k + 3][0] == DataOut(x[k]);
    }
  }

  /** STFlash_SendByte drives different pins for different bytes. */
  lemma SendFrameEqual(b: Byte, c: Byte)
    ensures SendFrame(b) == SendFrame(c) <==> b == c
  {
    if SendFrame(b) == SendFrame(c) {
      SendBitsInjective(MsbFirst(b), MsbFirst(c));
      MsbFirstInjective(b, c);
    }
  }

  /** Two addresses give the same address phase exactly when they agree
      modulo 2^24: the top byte of the 32-bit address is never sent. */
  lemma AddressFrameEqual(a: Word32, b: Word32)
    ensures |AddressFrame(a)| == 72
    ensures AddressFrame(a) == AddressFrame(b) <==> a % 0x100_0000 == b % 0x100_0000
  {
    AddressBytesEqual(a, b);
    var fa, fb := AddressFrame(a), AddressFrame(b);
    if fa == fb {
      assert fa[..24] == SendFrame(Make8(a, 2)) && fb[..24] == SendFrame(Make8(b, 2));
      assert fa[24..48] == SendFrame(Make8(a, 1)) && fb[24..48] == SendFrame(Make8(b, 1));
      assert fa[48..] == SendFrame(Make8(a, 0)) && fb[48..] == SendFrame(Make8(b, 0));
      SendFrameEqual(Make8(a, 2), Make8(b, 2));
      SendFrameEqual(Make8(a, 1), Make8(b, 1));
      SendFrameEqual(Make8(a, 0), Make8(b, 0));
      assert AddressBytes(a) == AddressBytes(b);
    }
    if a % 0x100_0000 == b % 0x100_0000 {
      assert AddressBytes(a)[0] == AddressBytes(b)[0];
      assert AddressBytes(a)[1] == AddressBytes(b)[1];
      assert AddressBytes(a)[2] == AddressBytes(b)[2];
    }
  }

  /** A command whose only difference is its address phase. */
  lemma AddressedEqual(pre: seq<Event>, post: seq<Event>, a: Word32, b: Word32)
    ensures pre + AddressFrame(a) + post == pre + AddressFrame(b) + post
            <==> a % 0x100_0000 == b % 0x100_0000
  {
    AddressFrameEqual(a, b);
    AddressFrameEqual(b, a);
    var fa, fb := pre + AddressFrame(a) + post, pre + AddressFrame(b) + post;
    if fa == fb {
      assert fa[|pre|..|pre| + 72] == AddressFrame(a);
      assert fb[|pre|..|pre| + 72] == AddressFrame(b);
    }
  }

  /** An addressed transaction after `pre` and before `post`. */
  lemma AddressedCommandEqual(pre: seq<Event>, op: Byte, rest: seq<Event>, post: seq<Event>, a: Word32, b: Word32)
    ensures pre + Transaction(SendFrame(op) + AddressFrame(a) + rest) + post
            == pre + Transaction(SendFrame(op) + AddressFrame(b) + rest) + post
            <==> a % 0x100_0000 == b % 0x100_0000
  {
    var sel, de := SelectFrame(), DeselectFrame();
    Regroup(pre, sel, SendFrame(op), AddressFrame(a), rest, de, post);
    Regroup(pre, sel, SendFrame(op), AddressFrame(b), rest, de, post);
    AddressedEqual(pre + sel + SendFrame(op), rest + de + post, a, b);
  }

  /** An addressed transaction on its own. */
  lemma AddressedTransactionEqual(op: Byte, rest: seq<Event>, a: Word32, b: Word32)
    ensures Transaction(SendFrame(op) + AddressFrame(a) + rest) == Transaction(SendFrame(op) + AddressFrame(b) + rest)
            <==> a % 0x100_0000 == b % 0x100_0000
  {
    var ta, tb := Transaction(SendFrame(op) + AddressFrame(a) + rest), Transaction(SendFrame(op) + AddressFrame(b) + rest);
    AddressedCommandEqual([], op, rest, [], a, b);
    assert [] + ta + [] == ta && [] + tb + [] == tb;
  }

  /** STFlash_ReadBlock depends on its address only modulo 2^24. */
  lemma ReadBlockAddress(a: Word32, b: Word32, bits: seq<bool>)
    ensures ReadBlockFrame(a, bits) == ReadBlockFrame(b, bits) <==> a % 0x100_0000 == b % 0x100_0000
  {
    AddressedTransactionEqual(OpRead, ReceiveBits(bits), a, b);
  }

  /** STFlash_Write1Byte depends on its address only modulo 2^24. */
  lemma Write1ByteAddress(a: Word32, b: Word32, data: Byte)
    ensures Write1ByteFrame(a, data) == Write1ByteFrame(b, data) <==> a % 0x100_0000 == b % 0x100_0000
  {
    AddressedCommandEqual(WriteEnableFrame(), OpProgramByte, SendFrame(data), [], a, b);
    assert Write1ByteFrame(a, data) + [] == Write1ByteFrame(a, data);
    assert Write1ByteFrame(b, data) + [] == Write1ByteFrame(b, data);
  }

  /** STFlash_EraseBlock depends on its address only modulo 2^24. */
  lemma EraseBlockAddress(a: Word32, b: Word32)
    ensures EraseBlockFrame(a) == EraseBlockFrame(b) <==> a % 0x100_0000 == b % 0x100_0000
  {
    AddressedCommandEqual(WriteEnableFrame(), OpBlockErase, [SelectHigh], WriteDisableFrame(), a, b);
  }

  /** `Address + i` wrapped at 2^32 keeps the low 24 bits of `Address + i`. */
  lemma AddWrapLow(a: Word32, b: Word32, i: nat)
    requires a % 0x100_0000 == b % 0x100_0000
    ensures AddWrap(a, i) % 0x100_0000 == AddWrap(b, i) % 0x100_0000
  {
    var r := a % 0x100_0000;
    assert a == 0x100_0000 * (a / 0x100_0000) + r;
    assert b == 0x100_0000 * (b / 0x100_0000) + r;
    var qa, qb := (a + i) / 0x1_0000_0000, (b + i) / 0x1_0000_0000;
    assert AddWrap(a, i) == 0x100_0000 * (a / 0x100_0000 - 0x100 * qa) + (r + i);
    assert AddWrap(b, i) == 0x100_0000 * (b / 0x100_0000 - 0x100 * qb) + (r + i);
  }

  /** One pass of the loop of STFlash_WriteBlock at two addresses that agree modulo 2^24. */
  lemma ProgramFrameAddress(x: Word32, y: Word32, data: Byte, s: seq<bool>, k: nat)
    requires PollEnds(s, k) && x % 0x100_0000 == y % 0x100_0000
    ensures ProgramFrame(x, data, s, k) == ProgramFrame(y, data, s, k)
  {
    Write1ByteAddress(x, y, data);
  }

  lemma {:induction false} WritesPrefixAddress(a: Word32, b: Word32, data: seq<Byte>, n: nat, s: seq<bool>)
    requires n <= |data| && CanWrite(s, n)
    requires a % 0x100_0000 == b % 0x100_0000
    ensures WritesPrefix(a, data, n, s) == WritesPrefix(b, data, n, s)
  {
    if n > 0 {
      WritesUsedNext(s, n - 1);
      WritesPrefixAddress(a, b, data, n - 1, s);
      AddWrapLow(a, b, n - 1);
      ProgramFrameAddress(AddWrap(a, n - 1), AddWrap(b, n - 1), data[n - 1], s, WritesUsed(s, n - 1));
    }
  }

  /** STFlash_WriteBlock depends on its address only modulo 2^24: the
      addresses `Address + i` it programs agree modulo 2^24 as well. */
  lemma WriteBlockAddress(a: Word32, b: Word32, data: seq<Byte>, s: seq<bool>)
    requires CanWrite(s, |data|) && a % 0x100_0000 == b % 0x100_0000
    ensures WriteBlockFrame(a, data, s) == WriteBlockFrame(b, data, s)
  {
    WritesPrefixAddress(a, b, data, |data|, s);
  }
}
