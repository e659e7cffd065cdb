/** The pin trace as a logic analyser on the four wires decodes it: cut into
    transactions at the edges of FLASH_SELECT, each with the bits driven on
    FLASH_DI and the levels read from FLASH_DO while the device was selected.
    The lemmas below give, for every command of the driver, the transactions
    the flash sees. */
module Wire {
  import opened Bits
  import opened SpiBus
  import opened SST25V

  /** One transaction: the bits driven on FLASH_DI and the levels read from
      FLASH_DO between a falling edge of FLASH_SELECT and the rising edge
      that ends it. */
  datatype Txn = Txn(sent: seq<bool>, received: seq<bool>)

  /** The decoder between events: the transactions completed so far, and
      the one in progress while FLASH_SELECT is low. */
  datatype Analyser =
    | Idle(done: seq<Txn>)
    | Open(done: seq<Txn>, cur: Txn)

  /** The effect of one pin operation on the decoder. A falling select edge
      opens a transaction and a rising one closes it; raising a select that
      is already high, or lowering one that is already low, is not an edge
      and changes nothing. Data and samples outside a transaction are not
      seen by the device. */
  function Step(st: Analyser, e: Event): Analyser
  {
    match e
    case SelectLow => if st.Idle? then Open(st.done, Txn([], [])) else st
    case SelectHigh => if st.Open? then Idle(st.done + [st.cur]) else st
    case DataOut(b) => if st.Open? then st.(cur := st.cur.(sent := st.cur.sent + [b])) else st
    case Sample(b) => if st.Open? then st.(cur := st.cur.(received := st.cur.received + [b])) else st
    case ClockHigh => st
    case ClockLow => st
  }

  /** The decoder after the events of `trace`, oldest first. */
  function Run(st: Analyser, trace: seq<Event>): Analyser
  {
    if trace == [] then st else Step(Run(st, trace[..|trace| - 1]), trace[|trace| - 1])
  }

  /** The transactions a command's frame shows the device, starting idle. */
  function Decode(frame: seq<Event>): Analyser
  {
    Run(Idle([]), frame)
  }

  /** A transaction that sends `bytes` and reads nothing. */
  function Send(bytes: seq<Byte>): Txn
  {
    Txn(Pack(bytes), [])
  }

  // -----------------------------------------------------------------------
  // Decoding piece by piece

  /** Decoding two traces one after the other is decoding their concatenation. */
  lemma {:induction false} RunAppend(st: Analyser, a: seq<Event>, b: seq<Event>)
    ensures Run(st, a + b) == Run(Run(st, a), b)
    decreases |b|
  {
    if b == [] {
      assert a + b == a;
    } else {
      var n := |b| - 1;
      assert (a + b)[..|a + b| - 1] == a + b[..n];
      RunAppend(st, a, b[..n]);
    }
  }

  lemma RunOne(st: Analyser, x: Event)
    ensures Run(st, [x]) == Step(st, x)
  {
    assert [x][..0] == [];
  }

  lemma RunTwo(st: Analyser, x: Event, y: Event)
    ensures Run(st, [x, y]) == Step(Step(st, x), y)
  {
    assert [x, y][..1] == [x];
    RunOne(st, x);
  }

  lemma RunThree(st: Analyser, x: Event, y: Event, z: Event)
    ensures Run(st, [x, y, z]) == Step(Step(Step(st, x), y), z)
  {
    assert [x, y, z][..2] == [x, y];
    RunTwo(st, x, y);
  }

  /** Bits sent inside a transaction are appended to what it has sent. */
  lemma {:induction false} RunSendBits(done: seq<Txn>, cur: Txn, bits: seq<bool>)
    ensures Run(Open(done, cur), SendBits(bits)) == Open(done, cur.(sent := cur.sent + bits))
    decreases |bits|
  {
    if bits == [] {
      assert cur.sent + bits == cur.sent;
    } else {
      var n := |bits| - 1;
      RunSendBits(done, cur, bits[..n]);
      RunAppend(Open(done, cur), SendBits(bits[..n]), [DataOut(bits[n]), ClockHigh, ClockLow]);
      RunThree(Open(done, cur.(sent := cur.sent + bits[..n])), DataOut(bits[n]), ClockHigh, ClockLow);
      assert cur.sent + bits[..n] + [bits[n]] == cur.sent + bits;
    }
  }

  /** Bits received inside a transaction are appended to what it has read. */
  lemma {:induction false} RunReceiveBits(done: seq<Txn>, cur: Txn, bits: seq<bool>)
    ensures Run(Open(done, cur), ReceiveBits(bits)) == Open(done, cur.(received := cur.received + bits))
    decreases |bits|
  {
    if bits == [] {
      assert cur.received + bits == cur.received;
    } else {
      var n := |bits| - 1;
      RunReceiveBits(done, cur, bits[..n]);
      RunAppend(Open(done, cur), ReceiveBits(bits[..n]), [ClockHigh, Sample(bits[n]), ClockLow]);
      RunThree(Open(done, cur.(received := cur.received + bits[..n])), ClockHigh, Sample(bits[n]), ClockLow);
      assert cur.received + bits[..n] + [bits[n]] == cur.received + bits;
    }
  }

  /** A prefix cut in two. */
  lemma TakeSplit(s: seq<bool>, n: nat, m: nat)
    requires n <= m <= |s|
    ensures s[..n] + s[n..m] == s[..m]
  {
  }

  /** Levels read with no clock pulse are appended to what the transaction has read. */
  lemma {:induction false} RunPollBits(done: seq<Txn>, cur: Txn, bits: seq<bool>)
    ensures Run(Open(done, cur), PollBits(bits)) == Open(done, cur.(received := cur.received + bits))
    decreases |bits|
  {
    if bits == [] {
      assert cur.received + bits == cur.received;
    } else {
      var n := |bits| - 1;
      RunPollBits(done, cur, bits[..n]);
      RunAppend(Open(done, cur), PollBits(bits[..n]), [Sample(bits[n])]);
      RunOne(Open(done, cur.(received := cur.received + bits[..n])), Sample(bits[n]));
      assert cur.received + bits[..n] + [bits[n]] == cur.received + bits;
    }
  }

  /** STFlash_SendByte inside a transaction sends the byte, MSB-first. */
  lemma RunSendFrame(done: seq<Txn>, cur: Txn, b: Byte)
    ensures Run(Open(done, cur), SendFrame(b)) == Open(done, cur.(sent := cur.sent + Pack([b])))
  {
    RunSendBits(done, cur, MsbFirst(b));
    assert Pack([b]) == MsbFirst(b) + Pack([]);
  }

  /** A whole transaction: the body, decoded from a fresh open transaction,
      becomes one more completed transaction. */
  lemma RunTransaction(done: seq<Txn>, body: seq<Event>, t: Txn)
    requires Run(Open(done, Txn([], [])), body) == Open(done, t)
    ensures Run(Idle(done), Transaction(body)) == Idle(done + [t])
  {
    RunAppend(Idle(done), SelectFrame() + body, DeselectFrame());
    RunAppend(Idle(done), SelectFrame(), body);
    RunTwo(Idle(done), ClockLow, SelectLow);
    RunTwo(Open(done, t), SelectHigh, ClockLow);
  }

  /** Two frames that each complete their own transactions, one after the other. */
  lemma RunSeq(done: seq<Txn>, x: seq<Event>, y: seq<Event>, tx: seq<Txn>, ty: seq<Txn>)
    requires Run(Idle(done), x) == Idle(done + tx)
    requires Run(Idle(done + tx), y) == Idle(done + tx + ty)
    ensures Run(Idle(done), x + y) == Idle(done + tx + ty)
  {
    RunAppend(Idle(done), x, y);
  }

  /** Regrouping completed transactions. */
  lemma TxnAssoc(a: seq<Txn>, b: seq<Txn>, c: seq<Txn>)
    ensures a + b + c == a + (b + c)
  {
  }

  /** Three bytes sent one after another inside a transaction. */
  lemma RunSendThree(done: seq<Txn>, cur: Txn, b2: Byte, b1: Byte, b0: Byte)
    ensures Run(Open(done, cur), SendFrame(b2) + SendFrame(b1) + SendFrame(b0))
            == Open(done, cur.(sent := cur.sent + Pack([b2, b1, b0])))
  {
    var p2, p1, p0 := Pack([b2]), Pack([b1]), Pack([b0]);
    var st := Open(done, cur);
    assert Run(st, SendFrame(b2) + SendFrame(b1) + SendFrame(b0))
        == Open(done, cur.(sent := cur.sent + p2 + p1 + p0)) by {
      RunAppend(st, SendFrame(b2) + SendFrame(b1), SendFrame(b0));
      RunAppend(st, SendFrame(b2), SendFrame(b1));
      RunSendFrame(done, cur, b2);
      RunSendFrame(done, cur.(sent := cur.sent + p2), b1);
      RunSendFrame(done, cur.(sent := cur.sent + p2 + p1), b0);
    }
    assert Pack([b2, b1, b0]) == p2 + p1 + p0 by {
      assert [b2, b1, b0] == [b2] + [b1] + [b0];
      PackAppend([b2] + [b1], [b0]);
      PackAppend([b2], [b1]);
    }
    assert cur.sent + p2 + p1 + p0 == cur.sent + (p2 + p1 + p0);
  }

  /** The address phase inside a transaction sends the three address bytes. */
  lemma RunAddressFrame(done: seq<Txn>, cur: Txn, a: Word32)
    ensures Run(Open(done, cur), AddressFrame(a)) == Open(done, cur.(sent := cur.sent + Pack(AddressBytes(a))))
  {
    RunSendThree(done, cur, Make8(a, 2), Make8(a, 1), Make8(a, 0));
  }

  /** The body of a transaction that sends `op` and then `rest`. */
  lemma RunOpcode(done: seq<Txn>, op: Byte, rest: seq<Event>, t: Txn)
    requires Run(Open(done, Txn(Pack([op]), [])), rest) == Open(done, t)
    ensures Run(Open(done, Txn([], [])), SendFrame(op) + rest) == Open(done, t)
  {
    RunAppend(Open(done, Txn([], [])), SendFrame(op), rest);
    RunSendFrame(done, Txn([], []), op);
    assert [] + Pack([op]) == Pack([op]);
  }

  // -----------------------------------------------------------------------
  // The transactions of each command

  /** STFlash_readStatus is one transaction: opcode 0x05 out, the status in. */
  lemma ReadStatusTxns(done: seq<Txn>, status: seq<bool>)
    requires |status| == 8
    ensures Run(Idle(done), ReadStatusFrame(status)) == Idle(done + [Txn(Pack([OpReadStatus]), status)])
  {
    RunReceiveBits(done, Txn(Pack([OpReadStatus]), []), status);
    assert [] + status == status;
    RunOpcode(done, OpReadStatus, ReceiveBits(status), Txn(Pack([OpReadStatus]), status));
    RunTransaction(done, SendFrame(OpReadStatus) + ReceiveBits(status), Txn(Pack([OpReadStatus]), status));
  }

  /** Reading the levels `poll` without a clock pulse, then clocking in `bits`. */
  lemma RunPollReceive(done: seq<Txn>, cur: Txn, poll: seq<bool>, bits: seq<bool>)
    ensures Run(Open(done, cur), PollBits(poll) + ReceiveBits(bits))
            == Open(done, cur.(received := cur.received + (poll + bits)))
  {
    RunAppend(Open(done, cur), PollBits(poll), ReceiveBits(bits));
    RunPollBits(done, cur, poll);
    RunReceiveBits(done, cur.(received := cur.received + poll), bits);
    assert cur.received + poll + bits == cur.received + (poll + bits);
  }

  /** A transaction that sends `op`, then reads the levels `poll` without a
      clock pulse and clocks in `bits`. */
  lemma PolledTxn(done: seq<Txn>, op: Byte, poll: seq<bool>, bits: seq<bool>)
    ensures Run(Idle(done), Transaction(SendFrame(op) + PollBits(poll) + ReceiveBits(bits)))
            == Idle(done + [Txn(Pack([op]), poll + bits)])
  {
    var t := Txn(Pack([op]), poll + bits);
    var p, r := PollBits(poll), ReceiveBits(bits);
    RunPollReceive(done, Txn(Pack([op]), []), poll, bits);
    assert [] + (poll + bits) == poll + bits;
    RunOpcode(done, op, p + r, t);
    assert SendFrame(op) + (p + r) == SendFrame(op) + p + r;
    RunTransaction(done, SendFrame(op) + p + r, t);
  }

  /** STFlash_waitUntilReady is one transaction: opcode 0x05 out, then the
      levels of the wait loop and the eight bits of the byte it drops in. */
  lemma WaitUntilReadyTxns(done: seq<Txn>, s: seq<bool>)
    requires WaitEnds(s)
    ensures Run(Idle(done), WaitUntilReadyFrame(s))
            == Idle(done + [Txn(Pack([OpReadStatus]), s[..WaitLength(s) + 8])])
  {
    var n := WaitLength(s);
    PolledTxn(done, OpReadStatus, s[..n], s[n..n + 8]);
    TakeSplit(s, n, n + 8);
  }

  /** A transaction carrying one opcode and nothing else. */
  lemma OpcodeOnlyTxn(done: seq<Txn>, op: Byte)
    ensures Run(Idle(done), Transaction(SendFrame(op))) == Idle(done + [Send([op])])
  {
    RunSendFrame(done, Txn([], []), op);
    assert [] + Pack([op]) == Pack([op]);
    RunTransaction(done, SendFrame(op), Send([op]));
  }

  /** STFlash_WriteEnable is one transaction carrying opcode 0x06 alone. */
  lemma WriteEnableTxns(done: seq<Txn>)
    ensures Run(Idle(done), WriteEnableFrame()) == Idle(done + [Send([OpWriteEnable])])
  {
    OpcodeOnlyTxn(done, OpWriteEnable);
  }

  /** STFlash_WriteDisable is one transaction carrying opcode 0x04 alone. */
  lemma WriteDisableTxns(done: seq<Txn>)
    ensures Run(Idle(done), WriteDisableFrame()) == Idle(done + [Send([OpWriteDisable])])
  {
    OpcodeOnlyTxn(done, OpWriteDisable);
  }

  /** STFlash_writeStatus: write enable, then 0x01 and the value, then write disable. */
  lemma WriteStatusTxns(done: seq<Txn>, value: Byte)
    ensures Run(Idle(done), WriteStatusFrame(value))
            == Idle(done + [Send([OpWriteEnable]), Send([OpWriteStatus, value]), Send([OpWriteDisable])])
  {
    var body := SendFrame(OpWriteStatus) + SendFrame(value);
    var d1 := done + [Send([OpWriteEnable])];
    var d2 := d1 + [Send([OpWriteStatus, value])];
    RunAppend(Idle(done), WriteEnableFrame() + Transaction(body), WriteDisableFrame());
    RunAppend(Idle(done), WriteEnableFrame(), Transaction(body));
    WriteEnableTxns(done);
    RunSendFrame(d1, Txn(Pack([OpWriteStatus]), []), value);
    PackAppend([OpWriteStatus], [value]);
    assert [OpWriteStatus] + [value] == [OpWriteStatus, value];
    RunOpcode(d1, OpWriteStatus, SendFrame(value), Send([OpWriteStatus, value]));
    RunTransaction(d1, body, Send([OpWriteStatus, value]));
    WriteDisableTxns(d2);
  }

  /** STFlash_ReadBlock is one transaction: 0x03 and the address out, then
      every bit of the block in. */
  lemma ReadBlockTxns(done: seq<Txn>, a: Word32, bits: seq<bool>)
    ensures Run(Idle(done), ReadBlockFrame(a, bits))
            == Idle(done + [Txn(Pack([OpRead] + AddressBytes(a)), bits)])
  {
    var cur := Txn(Pack([OpRead]), []);
    var t := Txn(Pack([OpRead] + AddressBytes(a)), bits);
    RunAppend(Open(done, cur), AddressFrame(a), ReceiveBits(bits));
    RunAddressFrame(done, cur, a);
    PackAppend([OpRead], AddressBytes(a));
    RunReceiveBits(done, Txn(Pack([OpRead] + AddressBytes(a)), []), bits);
    assert [] + bits == bits;
    RunOpcode(done, OpRead, AddressFrame(a) + ReceiveBits(bits), t);
    assert SendFrame(OpRead) + (AddressFrame(a) + ReceiveBits(bits))
        == SendFrame(OpRead) + AddressFrame(a) + ReceiveBits(bits);
    RunTransaction(done, SendFrame(OpRead) + AddressFrame(a) + ReceiveBits(bits), t);
  }

  /** STFlash_Write1Byte: write enable, then 0x02, the address and the data
      byte; no write disable follows. */
  lemma Write1ByteTxns(done: seq<Txn>, a: Word32, data: Byte)
    ensures Run(Idle(done), Write1ByteFrame(a, data))
            == Idle(done + [Send([OpWriteEnable]), Send([OpProgramByte] + AddressBytes(a) + [data])])
  {
    var d1 := done + [Send([OpWriteEnable])];
    var bytes := [OpProgramByte] + AddressBytes(a) + [data];
    var cur := Txn(Pack([OpProgramByte]), []);
    RunAppend(Idle(done), WriteEnableFrame(), Transaction(SendFrame(OpProgramByte) + AddressFrame(a) + SendFrame(data)));
    WriteEnableTxns(done);
    RunAppend(Open(d1, cur), AddressFrame(a), SendFrame(data));
    RunAddressFrame(d1, cur, a);
    PackAppend([OpProgramByte], AddressBytes(a));
    RunSendFrame(d1, Txn(Pack([OpProgramByte] + AddressBytes(a)), []), data);
    PackAppend([OpProgramByte] + AddressBytes(a), [data]);
    RunOpcode(d1, OpProgramByte, AddressFrame(a) + SendFrame(data), Send(bytes));
    assert SendFrame(OpProgramByte) + (AddressFrame(a) + SendFrame(data))
        == SendFrame(OpProgramByte) + AddressFrame(a) + SendFrame(data);
    RunTransaction(d1, SendFrame(OpProgramByte) + AddressFrame(a) + SendFrame(data), Send(bytes));
  }

  /** STFlash_EraseBlock: write enable, then 0xD8 and the address, then
      write disable. The second rising edge of FLASH_SELECT that
      chip_deselect() drives is not an edge at all: the erase is still a
      single transaction. */
  lemma EraseBlockTxns(done: seq<Txn>, a: Word32)
    ensures Run(Idle(done), EraseBlockFrame(a))
            == Idle(done + [Send([OpWriteEnable]), Send([OpBlockErase] + AddressBytes(a)), Send([OpWriteDisable])])
  {
    var d1 := done + [Send([OpWriteEnable])];
    var t := Send([OpBlockErase] + AddressBytes(a));
    var d2 := d1 + [t];
    var body := SendFrame(OpBlockErase) + AddressFrame(a);
    var st := Open(d1, Txn([], []));
    RunAppend(Idle(done), WriteEnableFrame() + Transaction(body + [SelectHigh]), WriteDisableFrame());
    RunAppend(Idle(done), WriteEnableFrame(), Transaction(body + [SelectHigh]));
    WriteEnableTxns(done);
    // the select-deselect bracket, with the early SelectHigh inside it
    RunAppend(Idle(d1), SelectFrame() + (body + [SelectHigh]), DeselectFrame());
    RunAppend(Idle(d1), SelectFrame(), body + [SelectHigh]);
    RunTwo(Idle(d1), ClockLow, SelectLow);
    RunAppend(st, body, [SelectHigh]);
    RunAddressFrame(d1, Txn(Pack([OpBlockErase]), []), a);
    PackAppend([OpBlockErase], AddressBytes(a));
    RunOpcode(d1, OpBlockErase, AddressFrame(a), t);
    RunOne(Open(d1, t), SelectHigh);
    RunTwo(Idle(d2), SelectHigh, ClockLow);
    WriteDisableTxns(d2);
  }

  // -----------------------------------------------------------------------
  // STFlash_WriteBlock

  /** The transactions of a poll on the levels of `s` from `k` on: each
      sends `op` and clocks in the next eight levels, and another follows
      while the last level clocked in is high. */
  function PollReads(op: Byte, s: seq<bool>, k: nat): (r: seq<Txn>)
    requires PollEnds(s, k)
    ensures 8 * |r| == PollEnd(s, k) - k
    decreases |s| - k
  {
    [Txn(Pack([op]), s[k..k + 8])] + (if s[k + 7] then PollReads(op, s, k + 8) else [])
  }

  /** The status reads of the poll of STFlash_WriteBlock started at level
      `k`: opcode 0x05 out and the status in, until bit 0 reads clear. */
  function StatusReads(s: seq<bool>, k: nat): seq<Txn>
    requires PollEnds(s, k)
  {
    PollReads(OpReadStatus, s, k)
  }

  /** The status poll of STFlash_WriteBlock is a run of status reads. */
  lemma {:induction false} PollTxns(done: seq<Txn>, s: seq<bool>, k: nat)
    requires PollEnds(s, k)
    ensures Run(Idle(done), PollFrame(s, k)) == Idle(done + StatusReads(s, k))
    decreases |s| - k
  {
    var first := [Txn(Pack([OpReadStatus]), s[k..k + 8])];
    var rest := if s[k + 7] then StatusReads(s, k + 8) else [];
    ReadStatusTxns(done, s[k..k + 8]);
    if s[k + 7] {
      PollTxns(done + first, s, k + 8);
    } else {
      assert done + first + [] == done + first;
    }
    RunSeq(done, ReadStatusFrame(s[k..k + 8]), PollAfter(s, k), first, rest);
    TxnAssoc(done, first, rest);
  }

  /** What STFlash_Write1Byte shows the device: write enable, then the program command. */
  function ProgramTxns(a: Word32, data: Byte): seq<Txn>
  {
    [Send([OpWriteEnable]), Send([OpProgramByte] + AddressBytes(a) + [data])]
  }

  /** The transactions of the first `n` passes of the loop of STFlash_WriteBlock. */
  function WritesTxns(a: Word32, data: seq<Byte>, n: nat, s: seq<bool>): seq<Txn>
    requires n <= |data| && CanWrite(s, n)
  {
    if n == 0 then []
    else WritesTxns(a, data, n - 1, s) + ProgramTxns(AddWrap(a, n - 1), data[n - 1])
         + StatusReads(s, WritesUsed(s, n - 1))
  }

  /** Pass `n - 1` of the loop, unfolded once. */
  lemma WritesTxnsNext(a: Word32, data: seq<Byte>, n: nat, s: seq<bool>)
    requires 0 < n <= |data| && CanWrite(s, n)
    ensures CanWrite(s, n - 1) && PollEnds(s, WritesUsed(s, n - 1))
    ensures WritesTxns(a, data, n, s)
            == WritesTxns(a, data, n - 1, s) + ProgramTxns(AddWrap(a, n - 1), data[n - 1]) + StatusReads(s, WritesUsed(s, n - 1))
  {
    WritesUsedNext(s, n - 1);
  }

  /** One pass of the loop: the byte program, then the status reads of its poll. */
  lemma ProgramFrameTxns(done: seq<Txn>, a: Word32, data: Byte, s: seq<bool>, k: nat)
    requires PollEnds(s, k)
    ensures Run(Idle(done), ProgramFrame(a, data, s, k)) == Idle(done + ProgramTxns(a, data) + StatusReads(s, k))
  {
    RunAppend(Idle(done), Write1ByteFrame(a, data), PollFrame(s, k));
    Write1ByteTxns(done, a, data);
    assert done + [Send([OpWriteEnable]), Send([OpProgramByte] + AddressBytes(a) + [data])]
        == done + ProgramTxns(a, data);
    PollTxns(done + ProgramTxns(a, data), s, k);
  }

  /** The passes so far, then one more: a program and its status reads. */
  lemma PassTxns(done: seq<Txn>, prefix: seq<Event>, pass: seq<Event>, whole: seq<Event>,
                 w: seq<Txn>, prog: seq<Txn>, polls: seq<Txn>, all: seq<Txn>)
    requires whole == prefix + pass && all == w + prog + polls
    requires Run(Idle(done), prefix) == Idle(done + w)
    requires Run(Idle(done + w), pass) == Idle(done + w + prog + polls)
    ensures Run(Idle(done), whole) == Idle(done + all)
  {
    TxnAssoc(done + w, prog, polls);
    RunSeq(done, prefix, pass, w, prog + polls);
    TxnAssoc(done, w, prog + polls);
    TxnAssoc(w, prog, polls);
  }

  /** The first `n` passes of the loop decode to their transactions. */
  lemma {:induction false} WritesPrefixTxns(done: seq<Txn>, a: Word32, data: seq<Byte>, n: nat, s: seq<bool>)
    requires n <= |data| && CanWrite(s, n)
    ensures Run(Idle(done), WritesPrefix(a, data, n, s)) == Idle(done + WritesTxns(a, data, n, s))
  {
    if n == 0 {
      assert done + [] == done;
    } else {
      WritesUsedNext(s, n - 1);
      var r, x := WritesUsed(s, n - 1), AddWrap(a, n - 1);
      var prefix, pass := WritesPrefix(a, data, n - 1, s), ProgramFrame(x, data[n - 1], s, r);
      var w, prog, polls := WritesTxns(a, data, n - 1, s), ProgramTxns(x, data[n - 1]), StatusReads(s, r);
      WritesPrefixTxns(done, a, data, n - 1, s);
      ProgramFrameTxns(done + w, x, data[n - 1], s, r);
      PassTxns(done, prefix, pass, WritesPrefix(a, data, n, s), w, prog, polls, WritesTxns(a, data, n, s));
    }
  }

  /** The transactions of STFlash_WriteBlock: those of the passes of its
      loop, then one write disable. */
  function BlockTxns(a: Word32, data: seq<Byte>, s: seq<bool>): seq<Txn>
    requires CanWrite(s, |data|)
  {
    WritesTxns(a, data, |data|, s) + [Send([OpWriteDisable])]
  }

  /** STFlash_WriteBlock: the passes of its loop, then one write disable. */
  lemma WriteBlockTxns(done: seq<Txn>, a: Word32, data: seq<Byte>, s: seq<bool>)
    requires CanWrite(s, |data|)
    ensures Run(Idle(done), WriteBlockFrame(a, data, s)) == Idle(done + BlockTxns(a, data, s))
  {
    var w := WritesTxns(a, data, |data|, s);
    RunAppend(Idle(done), WritesPrefix(a, data, |data|, s), WriteDisableFrame());
    WritesPrefixTxns(done, a, data, |data|, s);
    WriteDisableTxns(done + w);
    TxnAssoc(done, w, [Send([OpWriteDisable])]);
  }
}
