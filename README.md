# SST25V serial flash driver — a Dafny model

The driver in `src/pic/SST25V.h` runs on a PIC. It talks to an SST25V serial
flash over four general-purpose pins. It drives FLASH_SELECT, FLASH_CLOCK
and FLASH_DI, and it reads FLASH_DO. The SPI protocol is bit-banged: every
bit is an explicit pin operation.

The model records every pin operation the driver performs, in order, as a
trace of events held by a `Bus` object:

- select low or high;
- clock high or low;
- a bit driven on FLASH_DI;
- a level sampled from FLASH_DO.

The levels the flash presents on FLASH_DO come from a script, the bus's
`input` sequence. Each `input(FLASH_DO)` consumes one level. The device
itself is not simulated.

The driver has three layers, and each of its functions is a method on the
bus:

- the bit layer: `STFlash_SendByte`, `STFlash_GetByte` and `STFlash_getBytes`;
- the transaction layer: `chip_select` and `chip_deselect`;
- the command layer: read status, wait until ready, write enable and disable,
  write status, read block, program one byte, write block and erase block.

Every method's contract says exactly which events it appends to the trace, as
a frame function of its arguments and of the levels it reads, and how much of
the script it consumes. The properties the driver promises are then proved
about those frames from three sides.

- **Bit level** (modules `Bits`, `SpiBus`):
  - Bytes go out most significant bit first, with one clock pulse per bit.
  - Bytes come back in the same order, and the bytes↔bits mapping is a round
    trip.
  - `STFlash_GetByte`'s result does not depend on its uninitialised local.
  - `STFlash_getBytes` fills `data[0..size)` in order and leaves the rest of
    the buffer unchanged.
  - The address is sent as `Make8(A,2)`, `Make8(A,1)`, `Make8(A,0)`, so two
    addresses give the same frames exactly when they agree modulo 2^24.
- **Select discipline** (module `Commands`):
  - Every command is well framed: selects and deselects alternate, starting
    from a deselected device.
  - Every command ends with FLASH_SELECT high and FLASH_CLOCK low.
  - `STFlash_EraseBlock`'s doubled raise of FLASH_SELECT is kept in its frame.
- **What the flash sees** (modules `Wire`, `Protocol`):
  - A logic-analyser decoder cuts a trace into transactions at the select
    edges. It serves as an independent reference.
  - Each command decodes to the opcode bytes it is meant to send: 0x05, 0x06,
    0x04, 0x01, 0x03, 0x02 and 0xD8, each followed by its address and data.
  - `writeStatus` and `EraseBlock` are bracketed by write enable and write
    disable, while `Write1Byte` is not closed by a write disable.
  - `WriteBlock` programs `buffer[i]` at `Address + i` for i = 0, 1, …, in
    increasing order.
  - After each program, `WriteBlock` polls the status register until bit 0
    is clear.
  - `WriteBlock` ends with exactly one write disable and only reads its
    buffer.

CCS integer types are unsigned. `int8`, `int16` and `int32` are the subset
types `Byte`, `Word16` and `Word32`. `Address + i` in `STFlash_WriteBlock`
wraps at 2^32, which `AddWrap` states explicitly.

## Model

| member | source | states |
|---|---|---|
| SpiBus.Bus.OutputSelect | src/pic/SST25V.h:85 | output_low/output_high on FLASH_SELECT appends exactly that one event and reads nothing |
| SpiBus.Bus.OutputClock | src/pic/SST25V.h:111-113 | output_high/output_low on FLASH_CLOCK appends exactly that one event and reads nothing |
| SpiBus.Bus.OutputData | src/pic/SST25V.h:110 | output_bit on FLASH_DI appends exactly that one event and reads nothing |
| SpiBus.Bus.Input | src/pic/SST25V.h:130 | input(FLASH_DO) returns the next level the device presents, consumes it and records the sample |
| SST25V.ChipSelect | src/pic/SST25V.h:82-87 | appends clock low then select low; consumes no input |
| SST25V.ChipDeselect | src/pic/SST25V.h:94-99 | appends select high then clock low; consumes no input |
| SST25V.SendByte | src/pic/SST25V.h:106-116 | the eight loop passes drive the byte's bits MSB first, each followed by one clock pulse (the frame `SendBits(MsbFirst(data))`) |
| SST25V.GetByte | src/pic/SST25V.h:124-135 | the result is the byte whose bits, MSB first, are the next eight FLASH_DO levels, whatever the uninitialised `flashData` held; one clock pulse per sample |
| SST25V.ShiftInto | src/pic/SST25V.h:152-158 | the inner loop changes only `data[i]`, which becomes the byte of the next eight levels |
| SST25V.GetBytes | src/pic/SST25V.h:147-160 | `data[0..size)` holds the next `8*size` levels read as bytes in order; `data[size..]` is unchanged; exactly `8*size` levels are consumed |
| SST25V.ReadStatus | src/pic/SST25V.h:168-176 | one transaction with opcode 0x05 then eight samples; returns the byte of those samples |
| SST25V.WaitLow | src/pic/SST25V.h:188 | the busy-wait reads FLASH_DO with no clock pulse, up to and including the first low level, and reads nothing more |
| SST25V.WaitUntilReady | src/pic/SST25V.h:184-191 | one transaction: opcode 0x05, the busy-wait, then one byte clocked in and dropped |
| SST25V.WriteEnable | src/pic/SST25V.h:199-204 | one transaction carrying opcode 0x06 alone |
| SST25V.WriteDisable | src/pic/SST25V.h:212-217 | one transaction carrying opcode 0x04 alone |
| SST25V.WriteStatus | src/pic/SST25V.h:225-233 | write enable, a transaction with 0x01 and the value, write disable |
| SST25V.SendAddress | src/pic/SST25V.h:249-251 | sends Make8(A,2), Make8(A,1), Make8(A,0) in that order |
| SST25V.ReadBlock | src/pic/SST25V.h:245-254 | one transaction: 0x03, the three address bytes, then `size` bytes received into `buffer[0..size)` in order; the rest of the buffer is unchanged |
| SST25V.Write1Byte | src/pic/SST25V.h:263-273 | write enable, then one transaction 0x02, address, data; no write disable follows |
| SST25V.ReadStatusAt | src/pic/SST25V.h:290 | the status read in the poll reports bit 0 set exactly when the last level it sampled is high |
| SST25V.PollAgain | src/pic/SST25V.h:290 | one more pass of the status poll keeps the poll's invariant and returns the next status |
| SST25V.PollStatus | src/pic/SST25V.h:290 | the poll issues status reads until the first one with bit 0 clear, and stops there |
| SST25V.ProgramByte | src/pic/SST25V.h:288-290 | one pass of the loop: Write1Byte followed by the status poll |
| SST25V.WritePass | src/pic/SST25V.h:287-291 | pass `i` extends the trace by the program of `buffer[i]` at `Address+i` (mod 2^32) and its poll |
| SST25V.FinishBlock | src/pic/SST25V.h:292 | after the loop, exactly one write disable is appended |
| SST25V.WriteBlock | src/pic/SST25V.h:284-293 | the trace grows by the passes for i = 0..size-1 in order, then one write disable; the buffer is not modified (`modifies bus` only) |
| SST25V.EraseBlock | src/pic/SST25V.h:301-313 | write enable, a transaction 0xD8 and the address whose body ends with an extra select high, write disable |
| SST25V.WaitAt | src/pic/SST25V.h:188 | the busy-wait sees high at every read but its last, which is low |
| SST25V.CanWriteFewer | src/pic/SST25V.h:287-291 | a script whose polls end for N programs lets them end for any fewer |
| SST25V.WritesPrefixNext | src/pic/SST25V.h:287-291 | the frame of `i+1` passes is the frame of `i` passes followed by pass `i` |
| Bits.MsbFirstRoundTrip | src/pic/SST25V.h:106-116 | the bits sent for a byte, read back MSB first, give the byte again |
| Bits.ByteOfRoundTrip | src/pic/SST25V.h:124-135 | eight received levels turned into a byte and sent again reproduce the levels |
| Bits.MsbFirstInjective | src/pic/SST25V.h:106-116 | two bytes are sent as the same bits if and only if they are equal |
| Bits.ByteOfBit0 | src/pic/SST25V.h:290 | `status & 0x01` of a received byte is the last level sampled |
| Bits.UnpackPack | src/pic/SST25V.h:147-160 | bytes turned into bits and grouped back by eights give the bytes again |
| Bits.PackUnpack | src/pic/SST25V.h:147-160 | bits grouped by eights and flattened again give the bits again |
| Bits.PackAppend | src/pic/SST25V.h:147-160 | the bits of two byte sequences in a row are the bits of each in a row |
| Bits.UnpackAt | src/pic/SST25V.h:155 | byte `k` received by getBytes is built from levels `8k..8k+8` |
| Bits.UnpackNext | src/pic/SST25V.h:151-159 | the bytes of the first `i+1` groups are those of the first `i` plus one more |
| Bits.UnpackStore | src/pic/SST25V.h:155 | storing the next byte at `i` extends the filled prefix and keeps the rest |
| Bits.UnpackAll | src/pic/SST25V.h:151-159 | bytes each equal to the byte of their group of eight levels are exactly the unpacked levels |
| Bits.ShiftRegister | src/pic/SST25V.h:110 | shift_left on a byte returns its top bit and moves the others up, the new bit entering at bit 0 |
| Bits.ShiftedOutRegister | src/pic/SST25V.h:109-110 | after `i` shifts the bits sent are the first `i` MSB-first bits and the byte holds the rest, zero-filled |
| Bits.ShiftedOutAll | src/pic/SST25V.h:109-110 | eight shifts send the whole byte MSB first |
| Bits.ShiftedInRegister | src/pic/SST25V.h:127-130 | after shifting in `j` levels the byte holds the old low bits above the new levels |
| Bits.ShiftedInAll | src/pic/SST25V.h:127-134 | after eight shifts the old value has gone entirely and the byte is the eight levels |
| Bits.ShiftedNext | src/pic/SST25V.h:130 | one more shift_left with the next level extends the shifted-in value |
| Bits.AddressBytesValue | src/pic/SST25V.h:249-251 | the three address bytes, weighted 2^16, 2^8, 1, are `A mod 2^24` |
| Bits.AddressBytesEqual | src/pic/SST25V.h:249-251 | two addresses give the same address bytes if and only if they agree modulo 2^24 |
| Bits.ValueOfBitsOf | src/pic/SST25V.h:110 | reading back the bits of a number below 2^n gives the number |
| Bits.BitsOfValue | src/pic/SST25V.h:130 | the bits of the value of a bit string are that bit string |
| SpiBus.SendBitsAt | src/pic/SST25V.h:109-115 | the events of bit `k` sent are data out, clock high, clock low |
| SpiBus.ReceiveBitsAt | src/pic/SST25V.h:127-133 | the events of bit `k` received are clock high, sample, clock low |
| SpiBus.SendFrameShape | src/pic/SST25V.h:106-116 | a sent byte is 24 events: for each of its bits MSB first, data out then one clock pulse |
| SpiBus.ReceiveBitsAppend | src/pic/SST25V.h:151-159 | receiving two bit strings in a row is receiving their concatenation |
| SpiBus.SendBitsKeeps | src/pic/SST25V.h:106-116 | sending never touches FLASH_SELECT |
| SpiBus.ReceiveBitsKeeps | src/pic/SST25V.h:124-160 | receiving never touches FLASH_SELECT |
| SpiBus.PollBitsKeeps | src/pic/SST25V.h:188 | the busy-wait never touches FLASH_SELECT |
| SpiBus.PairedAppend | src/pic/SST25V.h:82-99 | two well-paired traces in a row are well paired |
| SpiBus.WellFramedAppend | src/pic/SST25V.h:82-99 | two well-framed commands in a row are well framed |
| SpiBus.TransactionFramed | src/pic/SST25V.h:82-99 | a body that leaves FLASH_SELECT alone, bracketed by chip_select and chip_deselect, is well framed |
| SpiBus.DeselectedLevels | src/pic/SST25V.h:94-99 | after a frame ending in chip_deselect, FLASH_SELECT is high and FLASH_CLOCK is low, whatever came before |
| Commands.ReadStatusFramed | src/pic/SST25V.h:168-176 | the status read is one select matched by one deselect |
| Commands.WaitUntilReadyFramed | src/pic/SST25V.h:184-191 | wait-until-ready is one select matched by one deselect |
| Commands.WriteEnableDisableFramed | src/pic/SST25V.h:199-217 | write enable and write disable are each well framed |
| Commands.WriteStatusFramed | src/pic/SST25V.h:225-233 | write status (three transactions) is well framed |
| Commands.ReadBlockFramed | src/pic/SST25V.h:245-254 | read block is well framed for any number of bytes |
| Commands.Write1ByteFramed | src/pic/SST25V.h:263-273 | program one byte is well framed |
| Commands.EraseBlockFramed | src/pic/SST25V.h:301-313 | erase block is well framed: the extra select high before chip_deselect raises no second select |
| Commands.PollFramed | src/pic/SST25V.h:290 | the status poll, however many reads it takes, is well framed |
| Commands.WritesPrefixPaired | src/pic/SST25V.h:287-291 | any number of loop passes of WriteBlock keep selects and deselects paired |
| Commands.WriteBlockFramed | src/pic/SST25V.h:284-293 | write block is well framed for every size, including 0 |
| Commands.SendFrameEqual | src/pic/SST25V.h:106-116 | two bytes give the same send frame if and only if they are equal |
| Commands.AddressFrameEqual | src/pic/SST25V.h:249-251 | the address phase is 72 events, and two addresses give the same phase if and only if they agree modulo 2^24 |
| Commands.ReadBlockAddress | src/pic/SST25V.h:248-251 | two read-block frames are equal if and only if the addresses agree modulo 2^24 |
| Commands.Write1ByteAddress | src/pic/SST25V.h:267-270 | two program frames are equal if and only if the addresses agree modulo 2^24 |
| Commands.EraseBlockAddress | src/pic/SST25V.h:306-309 | two erase frames are equal if and only if the addresses agree modulo 2^24 |
| Commands.AddWrapLow | src/pic/SST25V.h:288 | `Address + i` wrapped at 2^32 keeps its low 24 bits determined by those of `Address` |
| Commands.ProgramFrameAddress | src/pic/SST25V.h:288-290 | one loop pass depends on the address only modulo 2^24 |
| Commands.WritesPrefixAddress | src/pic/SST25V.h:287-291 | the loop passes depend on the start address only modulo 2^24 |
| Commands.WriteBlockAddress | src/pic/SST25V.h:284-293 | addresses that agree modulo 2^24 give the same write-block frame |
| Wire.RunAppend | src/pic/SST25V.h:82-99 | decoding a trace in two pieces is decoding the first and continuing with the second |
| Wire.ReadStatusTxns | src/pic/SST25V.h:168-176 | the flash sees one transaction: 0x05 sent, eight levels returned |
| Wire.WaitUntilReadyTxns | src/pic/SST25V.h:184-191 | the flash sees one transaction: 0x05 sent, the busy levels and one more byte returned |
| Wire.WriteEnableTxns | src/pic/SST25V.h:199-204 | the flash sees one transaction sending 0x06 |
| Wire.WriteDisableTxns | src/pic/SST25V.h:212-217 | the flash sees one transaction sending 0x04 |
| Wire.WriteStatusTxns | src/pic/SST25V.h:225-233 | the flash sees 0x06, then 0x01 with the value, then 0x04 |
| Wire.ReadBlockTxns | src/pic/SST25V.h:245-254 | the flash sees one transaction: 0x03 and the three address bytes sent, the data levels returned |
| Wire.Write1ByteTxns | src/pic/SST25V.h:263-273 | the flash sees 0x06, then 0x02 with the three address bytes and the data byte |
| Wire.EraseBlockTxns | src/pic/SST25V.h:301-313 | the flash sees 0x06, then 0xD8 with the three address bytes, then 0x04 |
| Wire.PollTxns | src/pic/SST25V.h:290 | the status poll is seen as a run of status-read transactions |
| Wire.ProgramFrameTxns | src/pic/SST25V.h:288-290 | one loop pass is seen as write enable, the program and the status reads |
| Wire.WritesPrefixTxns | src/pic/SST25V.h:287-291 | the loop passes are seen as the transactions of each pass in order |
| Wire.WriteBlockTxns | src/pic/SST25V.h:284-293 | write block is seen as the loop's transactions followed by one write disable |
| Protocol.OpcodeOf | src/pic/SST25V.h:172 | the opcode of a transaction is the first byte sent in it |
| Protocol.PollReadAt | src/pic/SST25V.h:290 | status read `j` of a poll returns the levels `8j..8j+8` past its start |
| Protocol.PollBusyAt | src/pic/SST25V.h:290 | a status read in the poll reports busy exactly when it is not the last |
| Protocol.PollReadsUntilReady | src/pic/SST25V.h:290 | every poll transaction is a status read, and bit 0 is set in every one except the last |
| Protocol.PollOpcodes | src/pic/SST25V.h:290 | every transaction of the poll carries opcode 0x05 |
| Protocol.PassOpcodes | src/pic/SST25V.h:288-290 | a loop pass contains no write disable |
| Protocol.WritesOpcodes | src/pic/SST25V.h:287-291 | the loop of write block contains no write disable |
| Protocol.WriteBlockOneDisable | src/pic/SST25V.h:287-292 | write block ends with a write disable, and it is the only one |
| Protocol.ProgramsAppend | src/pic/SST25V.h:287-291 | the byte programs of two transaction runs in a row are those of each in a row |
| Protocol.ProgramsNone | src/pic/SST25V.h:290 | a run with no 0x02 transaction has no byte programs |
| Protocol.PassPrograms | src/pic/SST25V.h:288-290 | one loop pass carries exactly one byte program, of `data[k]` at `Address + k` |
| Protocol.ProgramsOfAt | src/pic/SST25V.h:288 | program `k` of the expected sequence is `data[k]` at `Address + k` |
| Protocol.WritesProgramsNext | src/pic/SST25V.h:287-291 | pass `n-1` adds exactly one program, of `data[n-1]` at `Address + n - 1` |
| Protocol.WritesPrograms | src/pic/SST25V.h:287-291 | the programs of `n` passes are those of `data[0..n)` at `Address + 0..n-1`, in increasing order |
| Protocol.WriteBlockPrograms | src/pic/SST25V.h:284-293 | write block issues exactly `size` byte programs; program `k` writes `buffer[k]` at `Address + k` |

## Left out

- `Init_STFlash` and `Disable_STFlash` only set the pin directions (TRIS registers) and the idle levels, so they are not modelled.
- `delay_us` and `delay_cycles` are left out. They change no pin, and that includes the `delay_us(10)` inside `STFlash_WriteBlock`'s loop.
- The flash device is not simulated. The FLASH_DO levels it presents are the bus's input script, and nothing relates a status read to an earlier program or erase.
- The functions the header comment only lists (`STFlash_readBuffer`, `STFlash_writeToBuffer` and others) have no body in the driver and are not part of this model.
- The pin levels are not stored. `SpiBus.SelectLevel` and `SpiBus.ClockLevel` read them off the trace.
- SST25V.WaitUntilReady: requires the script to present a low level on FLASH_DO followed by eight more levels. The driver's busy-wait never ends on a device that stays busy.
- SST25V.WriteBlock: requires the script to let every status poll end. The driver spins forever on a device that stays busy.
- SST25V.GetBytes: requires `size <= data.Length` and enough levels in the script. In C an overlong `size` writes past the buffer, and the model does not cover that.
- SST25V.ReadBlock: requires `size <= buffer.Length` and enough levels in the script, for the same reason as `GetBytes`.
- SST25V.GetByte: the uninitialised `flashData` is an arbitrary byte. Its contract shows that the result does not depend on it.
- The loops of `STFlash_getBytes` and `STFlash_WriteBlock` keep their loops, with the loop bodies moved into helper methods (`ShiftInto`, `WritePass`, `PollStatus`).
- `STFlash_sendByte` and `STFlash_SendByte` are one function, because CCS identifiers are case-insensitive. Both are `SST25V.SendByte`.
- The comment on `STFlash_GetByte` says it must be entered with the clock high. Every caller in fact enters with the clock low, and the model follows the code.
- Commands.WriteBlockAddress: proves only that addresses agreeing modulo 2^24 give the same frame. The converse, for `size > 0`, is not stated.
