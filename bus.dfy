/** The four-wire bus between the PIC and the flash, seen from the PIC: the
    levels it drives on FLASH_SELECT and FLASH_CLOCK, and the record of every
    pin operation it performs. Bits read from FLASH_DO come from a script that
    stands for the device; the device itself is not simulated. */
module SpiBus {
  import opened Bits

  /** One pin operation of the driver, in the order it happens. */
  datatype Event =
    | SelectLow          // output_low(FLASH_SELECT): device selected
    | SelectHigh         // output_high(FLASH_SELECT): device deselected
    | ClockHigh          // output_high(FLASH_CLOCK)
    | ClockLow           // output_low(FLASH_CLOCK)
    | DataOut(bit: bool) // output_bit(FLASH_DI, bit)
    | Sample(bit: bool)  // input(FLASH_DO) returned `bit`

  /** The level of FLASH_SELECT after `trace`, starting from `initial` (true = high). */
  function SelectLevel(initial: bool, trace: seq<Event>): bool
  {
    if trace == [] then initial
    else match trace[|trace| - 1]
      case SelectLow => false
      case SelectHigh => true
      case _ => SelectLevel(initial, trace[..|trace| - 1])
  }

  /** The level of FLASH_CLOCK after `trace`, starting from `initial` (true = high). */
  function ClockLevel(initial: bool, trace: seq<Event>): bool
  {
    if trace == [] then initial
    else match trace[|trace| - 1]
      case ClockLow => false
      case ClockHigh => true
      case _ => ClockLevel(initial, trace[..|trace| - 1])
  }

  /** The bus as the driver sees it: every pin operation so far and the
      FLASH_DO levels the device still has to present. The pin levels are
      not stored; they are what `SelectLevel` and `ClockLevel` read off the
      trace. */
  class Bus {
    /** Every pin operation so far, oldest first. */
    var trace: seq<Event>
    /** The FLASH_DO levels still to be read, in the order the device presents them. */
    var input: seq<bool>

    constructor (script: seq<bool>)
      ensures trace == [] && input == script
    {
      trace, input := [], script;
    }

    /** output_high(FLASH_SELECT) or output_low(FLASH_SELECT). */
    method OutputSelect(high: bool)
      modifies this
      ensures input == old(input)
      ensures trace == old(trace) + [if high then SelectHigh else SelectLow]
    {
      trace := trace + [if high then SelectHigh else SelectLow];
    }

    /** output_high(FLASH_CLOCK) or output_low(FLASH_CLOCK). */
    method OutputClock(high: bool)
      modifies this
      ensures input == old(input)
      ensures trace == old(trace) + [if high then ClockHigh else ClockLow]
    {
      trace := trace + [if high then ClockHigh else ClockLow];
    }

    /** output_bit(FLASH_DI, bit). */
    method OutputData(bit: bool)
      modifies this
      ensures input == old(input)
      ensures trace == old(trace) + [DataOut(bit)]
    {
      trace := trace + [DataOut(bit)];
    }

    /** input(FLASH_DO): the next level the device presents. */
    method Input() returns (bit: bool)
      requires input != []
      modifies this
      ensures bit == old(input)[0] && input == old(input)[1..]
      ensures trace == old(trace) + [Sample(bit)]
    {
      bit := input[0];
      trace := trace + [Sample(bit)];
      input := input[1..];
    }
  }

  // -----------------------------------------------------------------------
  // Frames of the bus primitives

  /** chip_select(): clock low, then select low. */
  function SelectFrame(): seq<Event>
  {
    [ClockLow, SelectLow]
  }

  /** chip_deselect(): select high, then clock low. */
  function DeselectFrame(): seq<Event>
  {
    [SelectHigh, ClockLow]
  }

  /** A transaction: the body bracketed by chip_select() and chip_deselect(). */
  function Transaction(body: seq<Event>): seq<Event>
  {
    SelectFrame() + body + DeselectFrame()
  }

  /** Bits driven on FLASH_DI, each followed by one clock pulse. */
  function SendBits(bits: seq<bool>): (t: seq<Event>)
    ensures |t| == 3 * |bits|
  {
    if bits == [] then []
    else SendBits(bits[..|bits| - 1]) + [DataOut(bits[|bits| - 1]), ClockHigh, ClockLow]
  }

  /** STFlash_SendByte(b): the eight bits of `b`, MSB first. */
  function SendFrame(b: Byte): seq<Event>
  {
    SendBits(MsbFirst(b))
  }

  /** Bits sampled from FLASH_DO while the clock is high, one clock pulse each. */
  function ReceiveBits(bits: seq<bool>): (t: seq<Event>)
    ensures |t| == 3 * |bits|
  {
    if bits == [] then []
    else ReceiveBits(bits[..|bits| - 1]) + [ClockHigh, Sample(bits[|bits| - 1]), ClockLow]
  }

  /** FLASH_DO read repeatedly with no clock pulse. */
  function PollBits(bits: seq<bool>): (t: seq<Event>)
    ensures |t| == |bits|
  {
    if bits == [] then []
    else PollBits(bits[..|bits| - 1]) + [Sample(bits[|bits| - 1])]
  }

  /** Three single-event appends after a recorded prefix. */
  lemma Append3(t: seq<Event>, u: seq<Event>, a: Event, b: Event, c: Event)
    ensures t + u + [a] + [b] + [c] == t + (u + [a, b, c])
  {
  }

  /** Appending two frames one after the other is appending their concatenation. */
  lemma Assoc(t: seq<Event>, a: seq<Event>, b: seq<Event>)
    ensures t + a + b == t + (a + b)
  {
  }

  /** Three frames appended one after another to a recorded prefix. */
  lemma Concat3(t: seq<Event>, a: seq<Event>, b: seq<Event>, c: seq<Event>)
    ensures t + a + b + c == t + (a + b + c)
  {
  }

  /** A transaction placed between `pre` and `post`, regrouped around the
      middle part `m` of its body. */
  lemma Regroup(pre: seq<Event>, sel: seq<Event>, op: seq<Event>, m: seq<Event>, rest: seq<Event>,
                de: seq<Event>, post: seq<Event>)
    ensures pre + (sel + (op + m + rest) + de) + post == (pre + sel + op) + m + (rest + de + post)
  {
  }

  /** Appending leaves a prefix alone. */
  lemma TakeAppend(x: seq<Event>, y: seq<Event>, n: nat)
    requires n <= |x|
    ensures (x + y)[..n] == x[..n]
  {
  }

  /** Sending one more bit appends one more data-out and clock pulse. */
  lemma SendBitsNext(bits: seq<bool>, i: nat)
    requires i < |bits|
    ensures SendBits(bits[..i + 1]) == SendBits(bits[..i]) + [DataOut(bits[i]), ClockHigh, ClockLow]
  {
    assert bits[..i + 1][..i] == bits[..i];
  }

  /** Receiving one more bit appends one more clock pulse and sample. */
  lemma ReceiveBitsNext(bits: seq<bool>, i: nat)
    requires i < |bits|
    ensures ReceiveBits(bits[..i + 1]) == ReceiveBits(bits[..i]) + [ClockHigh, Sample(bits[i]), ClockLow]
  {
    assert bits[..i + 1][..i] == bits[..i];
  }

  /** Receiving two bit strings in a row is receiving their concatenation. */
  lemma {:induction false} ReceiveBitsAppend(a: seq<bool>, b: seq<bool>)
    ensures ReceiveBits(a + b) == ReceiveBits(a) + ReceiveBits(b)
    decreases |b|
  {
    if b != [] {
      var n := |b| - 1;
      ReceiveBitsAppend(a, b[..n]);
      assert (a + b)[..|a + b| - 1] == a + b[..n];
    } else {
      assert a + b == a;
    }
  }

  /** Receiving the group of eight bits at `8i` after the first `8i` bits. */
  lemma ReceiveGroup(s: seq<bool>, i: nat)
    requires 8 * (i + 1) <= |s|
    ensures s[8 * i..][..8] == s[8 * i..8 * i + 8] && s[8 * i..][8..] == s[8 * (i + 1)..]
    ensures ReceiveBits(s[..8 * (i + 1)]) == ReceiveBits(s[..8 * i]) + ReceiveBits(s[8 * i..8 * i + 8])
  {
    assert s[..8 * (i + 1)] == s[..8 * i] + s[8 * i..8 * i + 8];
    ReceiveBitsAppend(s[..8 * i], s[8 * i..8 * i + 8]);
  }

  /** Reading one more level appends one more sample. */
  lemma PollBitsNext(bits: seq<bool>, i: nat)
    requires i < |bits|
    ensures PollBits(bits[..i + 1]) == PollBits(bits[..i]) + [Sample(bits[i])]
  {
    assert bits[..i + 1][..i] == bits[..i];
  }

  /** Bit `k` of a sent bit string is driven at event `3k`, followed by one
      clock-high and one clock-low. */
  lemma {:induction false} SendBitsAt(bits: seq<bool>, k: nat)
    requires k < |bits|
    ensures SendBits(bits)[3 * k..3 * k + 3] == [DataOut(bits[k]), ClockHigh, ClockLow]
  {
    var n := |bits| - 1;
    if k < n {
      SendBitsAt(bits[..n], k);
      assert SendBits(bits)[3 * k..3 * k + 3] == SendBits(bits[..n])[3 * k..3 * k + 3];
    }
  }

  /** Bit `k` of a received bit string is sampled at event `3k + 1`, between
      a clock-high and a clock-low. */
  lemma {:induction false} ReceiveBitsAt(bits: seq<bool>, k: nat)
    requires k < |bits|
    ensures ReceiveBits(bits)[3 * k..3 * k + 3] == [ClockHigh, Sample(bits[k]), ClockLow]
  {
    var n := |bits| - 1;
    if k < n {
      ReceiveBitsAt(bits[..n], k);
      assert ReceiveBits(bits)[3 * k..3 * k + 3] == ReceiveBits(bits[..n])[3 * k..3 * k + 3];
    }
  }

  /** STFlash_SendByte drives exactly the eight bits of the byte, most
      significant first, each followed by one clock-high then clock-low. */
  lemma SendFrameShape(b: Byte)
    ensures |SendFrame(b)| == 24
    ensures forall k :: 0 <= k < 8 ==>
      SendFrame(b)[3 * k..3 * k + 3] == [DataOut(MsbFirst(b)[k]), ClockHigh, ClockLow]
  {
    forall k | 0 <= k < 8
      ensures SendFrame(b)[3 * k..3 * k + 3] == [DataOut(MsbFirst(b)[k]), ClockHigh, ClockLow]
    {
      SendBitsAt(MsbFirst(b), k);
    }
  }

  // -----------------------------------------------------------------------
  // Select discipline

  /** No pin operation of `f` touches FLASH_SELECT. */
  predicate KeepsSelect(f: seq<Event>)
  {
    forall i :: 0 <= i < |f| ==> !f[i].SelectLow? && !f[i].SelectHigh?
  }

  /** Read from the front with FLASH_SELECT at `high`: the device is never
      selected while it is already selected, and it is deselected at the end. */
  predicate Paired(high: bool, f: seq<Event>)
    decreases |f|
  {
    if f == [] then high
    else match f[0]
      case SelectLow => high && Paired(false, f[1..])
      case SelectHigh => Paired(true, f[1..])
      case _ => Paired(high, f[1..])
  }

  /** `f` ends with chip_deselect(): FLASH_SELECT high, then FLASH_CLOCK low. */
  predicate EndsDeselected(f: seq<Event>)
  {
    |f| >= 2 && f[|f| - 2..] == DeselectFrame()
  }

  /** A frame that pairs its selects and ends with chip_deselect(). */
  predicate WellFramed(f: seq<Event>)
  {
    Paired(true, f) && EndsDeselected(f)
  }

  lemma {:induction false} SendBitsKeeps(bits: seq<bool>)
    ensures KeepsSelect(SendBits(bits))
  {
    if bits != [] {
      SendBitsKeeps(bits[..|bits| - 1]);
    }
  }

  lemma {:induction false} ReceiveBitsKeeps(bits: seq<bool>)
    ensures KeepsSelect(ReceiveBits(bits))
  {
    if bits != [] {
      ReceiveBitsKeeps(bits[..|bits| - 1]);
    }
  }

  lemma {:induction false} PollBitsKeeps(bits: seq<bool>)
    ensures KeepsSelect(PollBits(bits))
  {
    if bits != [] {
      PollBitsKeeps(bits[..|bits| - 1]);
    }
  }

  lemma KeepsSelectAppend(x: seq<Event>, y: seq<Event>)
    requires KeepsSelect(x) && KeepsSelect(y)
    ensures KeepsSelect(x + y)
  {
    forall i | 0 <= i < |x + y|
      ensures (x + y)[i] == (if i < |x| then x[i] else y[i - |x|])
    {
    }
  }

  /** Pin operations that leave FLASH_SELECT alone do not change the pairing. */
  lemma {:induction false} PairedSkip(high: bool, x: seq<Event>, y: seq<Event>)
    requires KeepsSelect(x)
    ensures Paired(high, x + y) == Paired(high, y)
    decreases |x|
  {
    if x != [] {
      assert (x + y)[0] == x[0] && (x + y)[1..] == x[1..] + y;
      assert !x[0].SelectLow? && !x[0].SelectHigh?;
      assert KeepsSelect(x[1..]) by {
        forall i | 0 <= i < |x[1..]|
          ensures !x[1..][i].SelectLow? && !x[1..][i].SelectHigh?
        {
          assert x[1..][i] == x[i + 1];
        }
      }
      PairedSkip(high, x[1..], y);
    } else {
      assert x + y == y;
    }
  }

  /** A paired run followed by a frame that starts and ends deselected is paired. */
  lemma {:induction false} PairedAppend(high: bool, x: seq<Event>, y: seq<Event>)
    requires Paired(high, x) && Paired(true, y)
    ensures Paired(high, x + y)
    decreases |x|
  {
    if x == [] {
      assert x + y == y;
    } else {
      assert (x + y)[0] == x[0] && (x + y)[1..] == x[1..] + y;
      match x[0]
      case SelectLow => PairedAppend(false, x[1..], y);
      case SelectHigh => PairedAppend(true, x[1..], y);
      case _ => PairedAppend(high, x[1..], y);
    }
  }

  /** A frame ending with chip_deselect() still ends with it after anything is put before it. */
  lemma EndsDeselectedAppend(x: seq<Event>, y: seq<Event>)
    requires EndsDeselected(y)
    ensures EndsDeselected(x + y)
  {
    assert (x + y)[|x + y| - 2..] == y[|y| - 2..];
  }

  lemma WellFramedAppend(x: seq<Event>, y: seq<Event>)
    requires WellFramed(x) && WellFramed(y)
    ensures WellFramed(x + y)
  {
    PairedAppend(true, x, y);
    EndsDeselectedAppend(x, y);
  }

  /** chip_select(), a body that leaves FLASH_SELECT alone, then a tail that
      starts selected and pairs its selects. */
  lemma SelectedPaired(body: seq<Event>, tail: seq<Event>)
    requires KeepsSelect(body) && Paired(false, tail)
    ensures Paired(true, SelectFrame() + body + tail)
  {
    var f := SelectFrame() + body + tail;
    assert f[0] == ClockLow && f[1..][0] == SelectLow;
    assert f[1..][1..] == body + tail;
    PairedSkip(false, body, tail);
  }

  /** A transaction whose body leaves FLASH_SELECT alone is well framed. */
  lemma TransactionFramed(body: seq<Event>)
    requires KeepsSelect(body)
    ensures WellFramed(Transaction(body))
  {
    var d := DeselectFrame();
    assert d[1..] == [ClockLow] && d[1..][1..] == [];
    SelectedPaired(body, d);
    assert Transaction(body)[|Transaction(body)| - 2..] == d;
  }

  /** After a frame that ends with chip_deselect(), whatever came before it,
      FLASH_SELECT is high and FLASH_CLOCK is low. */
  lemma DeselectedLevels(select: bool, clock: bool, t: seq<Event>, f: seq<Event>)
    requires EndsDeselected(f)
    ensures SelectLevel(select, t + f) && !ClockLevel(clock, t + f)
  {
    var g := t + f;
    assert g[|g| - 1] == ClockLow && g[|g| - 2] == SelectHigh by {
      assert g[|g| - 2..] == f[|f| - 2..];
    }
    assert g[..|g| - 1][|g| - 2] == SelectHigh;
  }
}
