/**
 * The bit-banged 1-Wire host for one DS18B20 on one GPIO line.
 *
 * The line is abstracted as a bus: the host's outgoing traffic is a log of
 * reset pulses, write slots (with the bit each carries) and read slots, and
 * what the host samples on the line is a queue of levels (true = high) that
 * each sampling consumes from the front. Delays are not modelled.
 */
module Ds18b20Driver {
  import opened Ds18b20Defs
  import opened Framing

  /** One piece of bus traffic the host initiates. */
  datatype Event =
    | Reset                  // a reset pulse, followed by the presence window
    | WriteSlot(bit: Bit)    // a write time slot carrying one bit
    | ReadSlot               // a read time slot, sampled by the host

  /** The write slots of a run of bits, in order. */
  function WriteSlots(bits: seq<Bit>): (es: seq<Event>)
    ensures |es| == |bits|
    ensures forall k :: 0 <= k < |bits| ==> es[k] == WriteSlot(bits[k])
  {
    seq(|bits|, k requires 0 <= k < |bits| => WriteSlot(bits[k]))
  }

  /** The traffic of one command byte: its eight write slots, least significant bit first. */
  function CommandSlots(b: Byte): (es: seq<Event>)
    ensures |es| == 8
  {
    WriteSlots(ByteBits(b))
  }

  /** n consecutive read slots. */
  function ReadSlots(n: nat): (es: seq<Event>)
    ensures |es| == n
    ensures forall k :: 0 <= k < n ==> es[k] == ReadSlot
  {
    seq(n, _ => ReadSlot)
  }

  lemma ReadSlotsAdd(a: nat, b: nat)
    ensures ReadSlots(a) + ReadSlots(b) == ReadSlots(a + b)
  {
  }

  /** The value the driver computes from the two scratchpad bytes it reads (low byte first). */
  function Decode(charSigned: bool, lo: Byte, hi: Byte): (t: real)
    ensures !charSigned ==> 0.0 <= t <= 65535.0 / 16.0
    ensures charSigned ==> -32896.0 / 16.0 <= t <= 32639.0 / 16.0
  {
    (ToChar(charSigned, lo) + ToChar(charSigned, hi) * 256) as real / 16.0
  }

  /** The sensor's own reading: the two bytes as one 16-bit two's-complement count of 1/16 degrees. */
  function Celsius(lo: Byte, hi: Byte): (t: real)
    ensures -2048.0 <= t < 2048.0
  {
    var raw := lo + 256 * hi;
    (if raw >= 0x8000 then raw - 0x1_0000 else raw) as real / 16.0
  }

  /**
   * The driver's value agrees with the sensor's reading exactly when the
   * byte it sign-extends wrongly is below 0x80: with a signed `char` the low
   * byte is sign-extended too, with an unsigned `char` the high byte is not
   * sign-extended at all.
   */
  lemma DecodeAgreesWithSensor(charSigned: bool, lo: Byte, hi: Byte)
    ensures Decode(charSigned, lo, hi) == Celsius(lo, hi) <==> if charSigned then lo < 128 else hi < 128
  {
  }

  /** Concrete readings: 0x0191 is 25.0625 degrees, 0xFF50 is -11 degrees. */
  lemma DecodeExamples()
    ensures Celsius(0x91, 0x01) == 25.0625
    ensures Decode(false, 0x91, 0x01) == 25.0625
    ensures Decode(true, 0x91, 0x01) == 9.0625
    ensures Celsius(0x50, 0xFF) == -11.0
    ensures Decode(true, 0x50, 0xFF) == -11.0
    ensures Decode(false, 0x50, 0xFF) == 4085.0
  {
  }

  /** The commands of a temperature read: skip ROM and convert, then skip ROM and read scratchpad. */
  const ConversionCommands: seq<Event> :=
    [Reset] + CommandSlots(SkipRom) + CommandSlots(ConvertT)
    + [Reset] + CommandSlots(SkipRom) + CommandSlots(ReadScratchpad)

  /** The full traffic of a temperature read when the first reset finds a device. */
  const ConversionTraffic: seq<Event> := ConversionCommands + ReadSlots(16) + [Reset]

  lemma CommandsAppended(l0: seq<Event>)
    ensures l0 + [Reset] + CommandSlots(SkipRom) + CommandSlots(ConvertT)
      + [Reset] + CommandSlots(SkipRom) + CommandSlots(ReadScratchpad) == l0 + ConversionCommands
  {
  }

  lemma TrafficAppended(l0: seq<Event>, l1: seq<Event>)
    requires l1 == l0 + ConversionCommands
    ensures l1 + ReadSlots(8) + ReadSlots(8) + [Reset] == l0 + ConversionTraffic
  {
    ReadSlotsAdd(8, 8);
  }

  /** What one temperature read returns, puts on the bus and leaves of the sample queue. */
  datatype Transaction = Transaction(temp: real, traffic: seq<Event>, rest: seq<bool>)

  /**
   * The temperature read as a function of the init flag and the levels the
   * line will show, by their position in the queue: samples 0-1 are the
   * first reset's window, 2-3 the second's, 4-11 and 12-19 the two data
   * bytes, 20-21 the final reset's window.
   */
  function GetTemp(charSigned: bool, init: int, q: seq<bool>): (r: Transaction)
  {
    if init != 1 then Transaction(0.0, [], q)
    else if !LevelAt(q, 1) then Transaction(0.0, [Reset], Drop(q, 2))
    else
      Transaction(Decode(charSigned, ByteValue(Window(q, 4, 8)), ByteValue(Window(q, 12, 8))),
                  ConversionTraffic, Drop(q, 22))
  }

  /** The outcome of a read once a device answered and the two data bytes have been read. */
  lemma PresentOutcome(charSigned: bool, q: seq<bool>, lo: Byte, hi: Byte)
    requires LevelAt(q, 1)
    requires lo == ByteValue(Window(q, 4, 8)) && hi == ByteValue(Window(q, 12, 8))
    ensures GetTemp(charSigned, 1, q) == Transaction(Decode(charSigned, lo, hi), ConversionTraffic, Drop(q, 22))
  {
  }

  /** Without DS_init the read returns 0 and touches neither the bus nor the queue. */
  lemma GetTempNotInitialised(charSigned: bool, init: int, q: seq<bool>)
    requires init != 1
    ensures GetTemp(charSigned, init, q) == Transaction(0.0, [], q)
  {
  }

  /** No presence at the first reset: 0 after that one reset, nothing else on the bus. */
  lemma GetTempNoPresence(charSigned: bool, q: seq<bool>)
    requires !LevelAt(q, 1)
    ensures GetTemp(charSigned, 1, q) == Transaction(0.0, [Reset], Drop(q, 2))
  {
  }

  /**
   * The outcome depends only on the first reset's second sample and on the
   * sixteen data samples: the first sample of every reset window and the
   * results of the second and third resets make no difference, so reading
   * a sensor that shows the same levels twice gives the same value twice.
   */
  lemma {:induction false} GetTempDependsOnlyOnData(charSigned: bool, q: seq<bool>, q': seq<bool>)
    requires LevelAt(q, 1) == LevelAt(q', 1)
    requires Window(q, 4, 16) == Window(q', 4, 16)
    ensures GetTemp(charSigned, 1, q).temp == GetTemp(charSigned, 1, q').temp
    ensures GetTemp(charSigned, 1, q).traffic == GetTemp(charSigned, 1, q').traffic
  {
    assert Window(q, 4, 8) == Window(q, 4, 16)[..8];
    assert Window(q', 4, 8) == Window(q', 4, 16)[..8];
    assert Window(q, 12, 8) == Window(q, 4, 16)[8..];
    assert Window(q', 12, 8) == Window(q', 4, 16)[8..];
  }

  /**
   * End to end: when a device is present and sends the scratchpad bytes lo
   * and hi, least significant bit first, the read returns Decode(lo, hi).
   */
  lemma GetTempReadsSensorBytes(charSigned: bool, q: seq<bool>, lo: Byte, hi: Byte)
    requires LevelAt(q, 1)
    requires Window(q, 4, 8) == Loopback(ByteBits(lo))
    requires Window(q, 12, 8) == Loopback(ByteBits(hi))
    ensures GetTemp(charSigned, 1, q) == Transaction(Decode(charSigned, lo, hi), ConversionTraffic, Drop(q, 22))
  {
    ByteRoundTrip(lo);
    ByteRoundTrip(hi);
  }

  /**
   * With nothing on the bus the pulled-up line reads high throughout; the
   * reset still reports presence, both bytes read as 0xFF and the driver
   * returns a reading rather than its 0 for "no device".
   */
  lemma SilentBusReading(charSigned: bool)
    ensures GetTemp(charSigned, 1, []).traffic == ConversionTraffic
    ensures GetTemp(charSigned, 1, []).temp == if charSigned then -16.0625 else 4095.9375
  {
    AllHighValue(Window([], 4, 8));
    AllHighValue(Window([], 12, 8));
    Pow2Byte();
  }

  /** The header's names for the three commands a read sends are the literals it sends. */
  lemma ReadCommandsMatchHeader()
    ensures SkipRom == 0xCC && ConvertT == 0x44 && ReadScratchpad == 0xBE
  {
  }

  /** The wire bits of the three commands a read sends, in slot order. */
  lemma CommandWireBits()
    ensures ByteBits(SkipRom) == [0, 0, 1, 1, 0, 0, 1, 1]
    ensures ByteBits(ConvertT) == [0, 0, 1, 0, 0, 0, 1, 0]
    ensures ByteBits(ReadScratchpad) == [0, 1, 1, 1, 1, 1, 0, 1]
  {
    ByteBitsExplicit(SkipRom);
    ByteBitsExplicit(ConvertT);
    ByteBitsExplicit(ReadScratchpad);
  }

  /** The shape of a read's traffic: 51 events, resets at 0, 17 and 50, the 16 read slots at 34-49. */
  lemma ConversionTrafficShape()
    ensures |ConversionTraffic| == 51
    ensures ConversionTraffic[0] == Reset && ConversionTraffic[17] == Reset && ConversionTraffic[50] == Reset
    ensures ConversionTraffic[1..9] == CommandSlots(SkipRom) && ConversionTraffic[9..17] == CommandSlots(ConvertT)
    ensures ConversionTraffic[18..26] == CommandSlots(SkipRom) && ConversionTraffic[26..34] == CommandSlots(ReadScratchpad)
    ensures ConversionTraffic[34..50] == ReadSlots(16)
  {
  }

  class Host {
    /** Whether the compiler's plain `char` is signed. */
    const charSigned: bool
    /** The GPIO number of the bus line. */
    var dsGpio: int
    /** 1 once the driver has been initialised. */
    var init: int
    /** Every piece of traffic the host has put on the bus, oldest first. */
    var log: seq<Event>
    /** The levels the line will show at the host's coming samples. */
    var line: seq<bool>

    /** The driver's state at program start: both globals are zero. */
    constructor (charSigned: bool, samples: seq<bool>)
      ensures this.charSigned == charSigned
      ensures dsGpio == 0 && init == 0
      ensures log == [] && line == samples
    {
      this.charSigned := charSigned;
      dsGpio, init := 0, 0;
      log, line := [], samples;
    }

    /** One write slot; only the exact value 1 is sent as a one-bit. */
    method Send(bit: int)
      requires IsChar(charSigned, bit)
      modifies this`log
      ensures log == old(log) + [WriteSlot(if bit == 1 then 1 else 0)]
    {
      log := log + [WriteSlot(if bit == 1 then 1 else 0)];
    }

    /** One read slot: 1 exactly when the line is sampled high; consumes one sample. */
    method Read() returns (presence: int)
      modifies this`log, this`line
      ensures presence == if LevelAt(old(line), 0) then 1 else 0
      ensures line == Drop(old(line), 1)
      ensures log == old(log) + [ReadSlot]
    {
      log := log + [ReadSlot];
      var high := LevelAt(line, 0);
      line := Drop(line, 1);
      if high { presence := 1; } else { presence := 0; }
    }

    /** Eight write slots, bit i of the byte `data` holds in slot i. */
    method SendByte(data: int)
      requires IsChar(charSigned, data)
      modifies this`log
      ensures log == old(log) + CommandSlots(AsUChar(data))
    {
      var bits := ByteBits(AsUChar(data));
      var i := 0;
      while i < 8
        invariant 0 <= i <= 8
        invariant log == old(log) + WriteSlots(bits[..i])
      {
        var x := AsUChar(Asr(data, i));  // x = data >> i
        x := x % 2;                      // x &= 0x01
        ShiftedCharBit(charSigned, data, i);
        Send(x);
        assert bits[..i + 1] == bits[..i] + [bits[i]];
        i := i + 1;
      }
      assert bits[..8] == bits;
    }

    /** Eight read slots; bit i of the result is set exactly when the i-th sample is high. */
    method ReadByte() returns (data: Byte)
      modifies this`log, this`line
      ensures data == ByteValue(Window(old(line), 0, 8))
      ensures line == Drop(old(line), 8)
      ensures log == old(log) + ReadSlots(8)
    {
      ghost var q := line;
      var acc: nat := 0;
      var i := 0;
      while i < 8
        invariant 0 <= i <= 8
        invariant acc == LevelsValue(Window(q, 0, i))
        invariant line == Drop(q, i)
        invariant log == old(log) + ReadSlots(i)
      {
        var r := Read();
        LevelsValueBound(Window(q, 0, i));
        assert Window(q, 0, i + 1) == Window(q, 0, i) + [LevelAt(q, i)];
        LevelsValueSnoc(Window(q, 0, i), LevelAt(q, i));
        if r != 0 {
          SetBitAbove(acc, i);
          acc := SetBit(acc, i);  // data |= 0x01 << i
        }
        DropDrop(q, i, 1);
        i := i + 1;
      }
      LevelsValueBound(Window(q, 0, 8));
      assert Pow2(8) == 256;
      data := acc;
    }

    /**
     * A reset pulse and its presence window. The level sampled early in the
     * window is overwritten by the one sampled at its end, so the result is 1
     * exactly when the second sample is high.
     */
    method RstPulse() returns (presence: int)
      modifies this`log, this`line
      ensures presence == if LevelAt(old(line), 1) then 1 else 0
      ensures line == Drop(old(line), 2)
      ensures log == old(log) + [Reset]
    {
      log := log + [Reset];
      var early := LevelAt(line, 0);
      line := Drop(line, 1);
      if !early { presence := 1; } else { presence := 0; }
      var late := LevelAt(line, 0);
      line := Drop(line, 1);
      if late { presence := 1; } else { presence := 0; }
    }

    /** A temperature read: reset, skip ROM, convert, reset, skip ROM, read scratchpad, two bytes, reset. */
    method DsGetTemp() returns (temp: real)
      modifies this`log, this`line
      ensures var t := GetTemp(charSigned, init, old(line));
        temp == t.temp && log == old(log) + t.traffic && line == t.rest
    {
      ghost var q, l0 := line, log;
      if init == 1 {
        var check := RstPulse();
        if check == 1 {
          SendByte(ToChar(charSigned, 0xCC));
          SendByte(ToChar(charSigned, 0x44));
          check := RstPulse();
          SendByte(ToChar(charSigned, 0xCC));
          SendByte(ToChar(charSigned, 0xBE));
          assert log == l0 + [Reset] + CommandSlots(SkipRom) + CommandSlots(ConvertT)
            + [Reset] + CommandSlots(SkipRom) + CommandSlots(ReadScratchpad);
          CommandsAppended(l0);
          ghost var l1 := log;
          DropDrop(q, 2, 2);
          assert line == Drop(q, 4);
          var lo := ReadByte();
          WindowDrop(q, 4, 0, 8);
          DropDrop(q, 4, 8);
          assert lo == ByteValue(Window(q, 4, 8)) && line == Drop(q, 12);
          var hi := ReadByte();
          WindowDrop(q, 12, 0, 8);
          DropDrop(q, 12, 8);
          assert hi == ByteValue(Window(q, 12, 8)) && line == Drop(q, 20);
          var temp1 := ToChar(charSigned, lo);
          var temp2 := ToChar(charSigned, hi);
          check := RstPulse();
          DropDrop(q, 20, 2);
          temp := (temp1 + temp2 * 256) as real / 16.0;
          TrafficAppended(l0, l1);
          PresentOutcome(charSigned, q, lo, hi);
        } else {
          temp := 0.0;
          assert GetTemp(charSigned, 1, q) == Transaction(0.0, [Reset], Drop(q, 2));
        }
      } else {
        temp := 0.0;
        assert GetTemp(charSigned, init, q) == Transaction(0.0, [], q);
      }
    }

    /** Records the bus line and marks the driver initialised. */
    method DsInit(gpio: int)
      modifies this`dsGpio, this`init
      ensures dsGpio == gpio && init == 1
    {
      dsGpio := gpio;
      init := 1;
    }
  }
}
