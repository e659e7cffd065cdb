/** What the device sees of each command of the SST25V driver, stated on the
    decoded transactions: which opcodes go out and in what order, how the
    status poll of STFlash_WriteBlock ends, which part of the 32-bit address
    reaches the bus, and the levels FLASH_SELECT and FLASH_CLOCK are left at. */
module Protocol {
  import opened Bits
  import opened SpiBus
  import opened SST25V
  import opened Wire

  // -----------------------------------------------------------------------
  // Opcodes

  /** The first byte a transaction sent, which the flash reads as the
      opcode; -1 when fewer than eight bits were sent. */
  function Opcode(t: Txn): int
  {
    if |t.sent| < 8 then -1 else ByteOf(t.sent[..8])
  }

  /** A transaction that sends a byte string carries its first byte as opcode. */
  lemma OpcodeOf(bytes: seq<Byte>, received: seq<bool>)
    requires bytes != []
    ensures Opcode(Txn(Pack(bytes), received)) == bytes[0] as int
  {
    PackFirst(bytes);
    MsbFirstRoundTrip(bytes[0]);
  }

  // -----------------------------------------------------------------------
  // The status poll of STFlash_WriteBlock

  /** A poll reads at least one byte; it reads another after the first
      exactly when the first ends with a high level. */
  lemma PollReadsFirst(op: Byte, s: seq<bool>, k: nat)
    requires PollEnds(s, k)
    ensures PollReads(op, s, k)[0] == Txn(Pack([op]), s[k..k + 8])
    ensures |PollReads(op, s, k)| == 1 + (if s[k + 7] then |PollReads(op, s, k + 8)| else 0)
  {
  }

  /** Transaction `j` of the poll started at level `k` sends `op` and
      clocks in levels `k + 8j` to `k + 8j + 7`. */
  lemma {:induction false} PollReadAt(op: Byte, s: seq<bool>, k: nat, j: nat)
    requires PollEnds(s, k) && j < |PollReads(op, s, k)|
    ensures PollReads(op, s, k)[j] == Txn(Pack([op]), s[k + 8 * j..k + 8 * j + 8])
    decreases j
  {
    PollReadsFirst(op, s, k);
    if j > 0 {
      var i := k + 8 * j;
      assert k + 8 + 8 * (j - 1) == i;
      assert PollReads(op, s, k)[j] == PollReads(op, s, k + 8)[j - 1];
      PollReadAt(op, s, k + 8, j - 1);
    }
  }

  /** Every transaction of a poll carries its opcode. */
  lemma PollReadsOpcode(op: Byte, s: seq<bool>, k: nat)
    requires PollEnds(s, k)
    ensures forall j :: 0 <= j < |PollReads(op, s, k)| ==> Opcode(PollReads(op, s, k)[j]) == op as int
  {
    forall j | 0 <= j < |PollReads(op, s, k)|
      ensures Opcode(PollReads(op, s, k)[j]) == op as int
    {
      PollReadAt(op, s, k, j);
      OpcodeOf([op], s[k + 8 * j..k + 8 * j + 8]);
    }
  }

  /** Status read `j` of the poll started at level `k` sees the busy level
      exactly when the poll goes on past it. */
  lemma {:induction false} PollBusyAt(s: seq<bool>, k: nat, j: nat)
    requires PollEnds(s, k) && k + 8 * j + 8 <= PollEnd(s, k)
    ensures s[k + 8 * j + 7] <==> k + 8 * j + 8 < PollEnd(s, k)
    decreases j
  {
    if j > 0 {
      assert s[k + 7];
      PollBusyAt(s, k + 8, j - 1);
      assert k + 8 + 8 * (j - 1) == k + 8 * j;
    }
  }

  /** The poll started at level `k` reads whole status bytes, one after
      another from the levels of `s`, each with opcode 0x05; every one of
      them but the last reports busy (bit 0 set) and the last reports ready. */
  lemma PollReadsUntilReady(s: seq<bool>, k: nat)
    requires PollEnds(s, k)
    ensures forall j :: 0 <= j < |StatusReads(s, k)| ==>
      StatusReads(s, k)[j] == Txn(Pack([OpReadStatus]), s[k + 8 * j..k + 8 * j + 8])
    ensures forall j :: 0 <= j < |StatusReads(s, k)| ==>
      (ByteOf(StatusReads(s, k)[j].received) % 2 == 1 <==> j < |StatusReads(s, k)| - 1)
  {
    var r := StatusReads(s, k);
    forall j | 0 <= j < |r|
      ensures r[j] == Txn(Pack([OpReadStatus]), s[k + 8 * j..k + 8 * j + 8])
      ensures ByteOf(r[j].received) % 2 == 1 <==> j < |r| - 1
    {
      PollReadAt(OpReadStatus, s, k, j);
      PollBusyAt(s, k, j);
      ByteOfBit0(s[k + 8 * j..k + 8 * j + 8]);
    }
  }

  /** Every status read of a poll carries opcode 0x05. */
  lemma PollOpcodes(s: seq<bool>, k: nat)
    requires PollEnds(s, k)
    ensures forall j :: 0 <= j < |StatusReads(s, k)| ==> Opcode(StatusReads(s, k)[j]) == OpReadStatus as int
  {
    PollReadsOpcode(OpReadStatus, s, k);
  }

  // -----------------------------------------------------------------------
  // STFlash_WriteBlock

  /** Every transaction among `ts` is a write enable, a byte program or a
      status read: the transactions the loop of STFlash_WriteBlock sends. */
  predicate LoopOpcodes(ts: seq<Txn>)
  {
    forall j :: 0 <= j < |ts| ==>
      Opcode(ts[j]) == OpWriteEnable as int || Opcode(ts[j]) == OpProgramByte as int
      || Opcode(ts[j]) == OpReadStatus as int
  }

  lemma LoopOpcodesAppend(x: seq<Txn>, y: seq<Txn>)
    requires LoopOpcodes(x) && LoopOpcodes(y)
    ensures LoopOpcodes(x + y)
  {
    forall j | 0 <= j < |x + y|
      ensures (x + y)[j] == (if j < |x| then x[j] else y[j - |x|])
    {
    }
  }

  /** One pass of the loop: a write enable, a byte program, then status reads. */
  lemma PassOpcodes(x: Word32, b: Byte, s: seq<bool>, k: nat)
    requires PollEnds(s, k)
    ensures LoopOpcodes(ProgramTxns(x, b) + StatusReads(s, k))
  {
    OpcodeOf([OpWriteEnable], []);
    OpcodeOf([OpProgramByte] + AddressBytes(x) + [b], []);
    PollOpcodes(s, k);
    LoopOpcodesAppend(ProgramTxns(x, b), StatusReads(s, k));
  }

  /** Appending a pass of loop transactions keeps only loop transactions. */
  lemma LoopOpcodesStep(w: seq<Txn>, prog: seq<Txn>, polls: seq<Txn>, whole: seq<Txn>)
    requires whole == w + prog + polls && LoopOpcodes(w) && LoopOpcodes(prog + polls)
    ensures LoopOpcodes(whole)
  {
    TxnAssoc(w, prog, polls);
    LoopOpcodesAppend(w, prog + polls);
  }

  /** The loop of STFlash_WriteBlock sends only write enables, byte
      programs and status reads: no write disable. */
  lemma {:induction false} WritesOpcodes(a: Word32, data: seq<Byte>, n: nat, s: seq<bool>)
    requires n <= |data| && CanWrite(s, n)
    ensures LoopOpcodes(WritesTxns(a, data, n, s))
  {
    if n > 0 {
      WritesTxnsNext(a, data, n, s);
      var x, k := AddWrap(a, n - 1), WritesUsed(s, n - 1);
      var prog, polls := ProgramTxns(x, data[n - 1]), StatusReads(s, k);
      WritesOpcodes(a, data, n - 1, s);
      PassOpcodes(x, data[n - 1], s, k);
      LoopOpcodesStep(WritesTxns(a, data, n - 1, s), prog, polls, WritesTxns(a, data, n, s));
    }
  }

  /** STFlash_WriteBlock ends with exactly one write disable: its last
      transaction carries opcode 0x04 alone, and none before it carries 0x04. */
  lemma WriteBlockOneDisable(a: Word32, data: seq<Byte>, s: seq<bool>)
    requires CanWrite(s, |data|)
    ensures var d := BlockTxns(a, data, s);
      |d| > 0 && d[|d| - 1] == Send([OpWriteDisable])
      && forall j :: 0 <= j < |d| - 1 ==> Opcode(d[j]) != OpWriteDisable as int
  {
    var w := WritesTxns(a, data, |data|, s);
    WritesOpcodes(a, data, |data|, s);
    forall j | 0 <= j < |w|
      ensures BlockTxns(a, data, s)[j] == w[j]
    {
    }
  }

  /** The bits sent by the byte-program transactions among `ts`, in order. */
  function Programs(ts: seq<Txn>): seq<seq<bool>>
  {
    if ts == [] then []
    else (if Opcode(ts[0]) == OpProgramByte as int then [ts[0].sent] else []) + Programs(ts[1..])
  }

  /** Picking the programs out of two runs of transactions one after the other. */
  lemma {:induction false} ProgramsAppend(x: seq<Txn>, y: seq<Txn>)
    ensures Programs(x + y) == Programs(x) + Programs(y)
    decreases |x|
  {
    if x == [] {
      assert x + y == y;
    } else {
      assert (x + y)[1..] == x[1..] + y;
      ProgramsAppend(x[1..], y);
    }
  }

  /** Transactions with no byte program among them have no programs. */
  lemma {:induction false} ProgramsNone(ts: seq<Txn>)
    requires forall j :: 0 <= j < |ts| ==> Opcode(ts[j]) != OpProgramByte as int
    ensures Programs(ts) == []
    decreases |ts|
  {
    if ts != [] {
      ProgramsNone(ts[1..]);
    }
  }

  /** The byte program that pass `k` of the loop sends: opcode 0x02, the
      three address bytes of `a + k` and the data byte. */
  function ProgramBits(a: Word32, k: nat, b: Byte): seq<bool>
  {
    Pack([OpProgramByte] + AddressBytes(AddWrap(a, k)) + [b])
  }

  /** One pass of the loop holds exactly one byte program. */
  lemma PassPrograms(a: Word32, k: nat, b: Byte, s: seq<bool>, c: nat)
    requires PollEnds(s, c)
    ensures Programs(ProgramTxns(AddWrap(a, k), b) + StatusReads(s, c)) == [ProgramBits(a, k, b)]
  {
    var prog := ProgramTxns(AddWrap(a, k), b);
    OpcodeOf([OpWriteEnable], []);
    OpcodeOf([OpProgramByte] + AddressBytes(AddWrap(a, k)) + [b], []);
    assert prog[..1] == [Send([OpWriteEnable])];
    ProgramsNone([Send([OpWriteEnable])]);
    PollOpcodes(s, c);
    ProgramsNone(StatusReads(s, c));
    ProgramsAppend(prog, StatusReads(s, c));
  }

  /** The byte programs of `data[0]`, ..., `data[n - 1]` at `a`, ...,
      `a + n - 1`, in that order. */
  function ProgramsOf(a: Word32, data: seq<Byte>, n: nat): (p: seq<seq<bool>>)
    requires n <= |data|
    ensures |p| == n
  {
    if n == 0 then [] else ProgramsOf(a, data, n - 1) + [ProgramBits(a, n - 1, data[n - 1])]
  }

  /** Program `k` of `ProgramsOf` is `data[k]` at `a + k`. */
  lemma {:induction false} ProgramsOfAt(a: Word32, data: seq<Byte>, n: nat, k: nat)
    requires k < n <= |data|
    ensures ProgramsOf(a, data, n)[k] == ProgramBits(a, k, data[k])
    decreases n
  {
    if k < n - 1 {
      ProgramsOfAt(a, data, n - 1, k);
    }
  }

  /** Appending a pass whose one program is `pb` appends `pb` to the programs. */
  lemma ProgramsStep(w: seq<Txn>, prog: seq<Txn>, polls: seq<Txn>, whole: seq<Txn>, pb: seq<bool>)
    requires whole == w + prog + polls && Programs(prog + polls) == [pb]
    ensures Programs(whole) == Programs(w) + [pb]
  {
    TxnAssoc(w, prog, polls);
    ProgramsAppend(w, prog + polls);
  }

  /** Pass `n - 1` of the loop of STFlash_WriteBlock adds exactly its own program. */
  lemma WritesProgramsNext(a: Word32, data: seq<Byte>, n: nat, s: seq<bool>)
    requires 0 < n <= |data| && CanWrite(s, n)
    ensures CanWrite(s, n - 1)
    ensures Programs(WritesTxns(a, data, n, s)) == Programs(WritesTxns(a, data, n - 1, s)) + [ProgramBits(a, n - 1, data[n - 1])]
  {
    WritesTxnsNext(a, data, n, s);
    var c := WritesUsed(s, n - 1);
    var w, whole := WritesTxns(a, data, n - 1, s), WritesTxns(a, data, n, s);
    var prog, polls := ProgramTxns(AddWrap(a, n - 1), data[n - 1]), StatusReads(s, c);
    var pb := ProgramBits(a, n - 1, data[n - 1]);
    assert Programs(prog + polls) == [pb] by {
      PassPrograms(a, n - 1, data[n - 1], s, c);
    }
    ProgramsStep(w, prog, polls, whole, pb);
  }

  /** Two sequences that are the same sequence with the same last element appended. */
  lemma ProgramsSnoc(p: seq<seq<bool>>, q: seq<seq<bool>>, r: seq<seq<bool>>, pb: seq<bool>)
    requires p == r + [pb] && q == r + [pb]
    ensures p == q
  {
  }

  /** The programs of the first `n` passes of the loop of STFlash_WriteBlock. */
  lemma {:induction false} WritesPrograms(a: Word32, data: seq<Byte>, n: nat, s: seq<bool>)
    requires n <= |data| && CanWrite(s, n)
    ensures Programs(WritesTxns(a, data, n, s)) == ProgramsOf(a, data, n)
  {
    if n > 0 {
      var pb := ProgramBits(a, n - 1, data[n - 1]);
      assert CanWrite(s, n - 1) && Programs(WritesTxns(a, data, n, s)) == Programs(WritesTxns(a, data, n - 1, s)) + [pb] by {
        WritesProgramsNext(a, data, n, s);
      }
      assert Programs(WritesTxns(a, data, n - 1, s)) == ProgramsOf(a, data, n - 1) by {
        WritesPrograms(a, data, n - 1, s);
      }
      ProgramsSnoc(Programs(WritesTxns(a, data, n, s)), ProgramsOf(a, data, n), ProgramsOf(a, data, n - 1), pb);
    }
  }

  /** STFlash_WriteBlock programs `data[0]`, ..., `data[|data| - 1]` at
      `a`, ..., `a + |data| - 1`, in that order, and nothing else. */
  lemma WriteBlockPrograms(a: Word32, data: seq<Byte>, s: seq<bool>)
    requires CanWrite(s, |data|)
    ensures |Programs(BlockTxns(a, data, s))| == |data|
    ensures forall k :: 0 <= k < |data| ==> Programs(BlockTxns(a, data, s))[k] == ProgramBits(a, k, data[k])
  {
    assert Programs(BlockTxns(a, data, s)) == ProgramsOf(a, data, |data|) by {
      WritesPrograms(a, data, |data|, s);
      ProgramsAppend(WritesTxns(a, data, |data|, s), [Send([OpWriteDisable])]);
      OpcodeOf([OpWriteDisable], []);
      ProgramsNone([Send([OpWriteDisable])]);
    }
    forall k | 0 <= k < |data|
      ensures ProgramsOf(a, data, |data|)[k] == ProgramBits(a, k, data[k])
    {
      ProgramsOfAt(a, data, |data|, k);
    }
  }
}
