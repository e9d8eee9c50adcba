# DS18B20 1-Wire host driver, modelled in Dafny

This project models a small bit-banged 1-Wire host that reads one DS18B20
temperature sensor over a single GPIO line. It also proves properties of
that model.

The driver has three layers. The bit layer (`send`, `read`) opens one write or
read time slot. The byte layer (`send_byte`, `read_byte`) sends or receives
eight slots, least significant bit first. The reset layer (`RST_PULSE`) sends a
reset pulse and samples the presence window. On top of these, `DS_get_temp`
runs a fixed command sequence: reset, skip ROM, convert T, reset, skip ROM,
read scratchpad, two byte reads, then a final reset. It turns the two bytes
into degrees in steps of 1/16. `DS_init` records the GPIO number and sets the
`init` flag.

How the model is built:

- `ds18b20_defs.dfy` (module `Ds18b20Defs`) holds the header's contents:
  - the eleven command codes, as constants;
  - the resolution enumeration, as the subset type `Resolution`;
  - the sensor information record, as the datatype `Info`.
- `framing.dfy` (module `Framing`) holds the pure meaning of the framing:
  - C `char` and `unsigned char` conversions, and the arithmetic right shift;
  - bit extraction, and the LSB-first value of a run of sampled levels;
  - the arithmetic lemmas these need.
- `driver.dfy` (module `Ds18b20Driver`) holds the driver:
  - The class `Host` has the globals `DS_GPIO` and `init` as fields, plus the
    abstract bus.
  - The bus has an output `log` of `Event`s: `Reset`, `WriteSlot(bit)` and
    `ReadSlot`. Read slots are logged because `read` drives the line low to
    open each one.
  - It also has a `line` queue of sampled levels (true = high). Each `read`
    consumes one sample and each `RST_PULSE` consumes two.
  - Once the queue is empty the line reads high. This is the pull-up on an
    idle open-drain line, so no operation needs a precondition on how many
    samples are left.
  - Each method runs the same loop and branches as the C function, and its
    `ensures` ties the new log and queue to pure functions.
  - `GetTemp` states a whole temperature read by sample position. The lemmas
    beside it state what the source promises about that read.
- Whether plain `char` is signed is implementation-defined in C. Here it is the
  model parameter `charSigned`, a constant field of `Host`.
  - When it is signed, a byte above 127 converts to `char` by wrapping modulo
    256, as GCC does.
  - A right shift of a negative `char` is arithmetic, so it rounds down. Dafny's
    `/` by a positive divisor does the same.
- The temperature is `real`. The C code computes it in `float`, but the value
  is an integer below 2^24 divided by 16, so it is exact.

Points where the code behaves differently from what one might expect of a
1-Wire driver (the model follows the code in each):

- Reading a bit samples the line once, 17 µs into the slot. It does not time
  how long the line stays low.
- The reset takes exactly two samples. The result of the first (early in the
  window) is overwritten by the second (500 µs after release), so the driver
  reports "presence" exactly when the line is high at the end of the window.
  It does not measure a 60-240 µs presence pulse. As a result a silent bus
  also reports presence (`SilentBusReading`).
- Conversion is waited out with a fixed delay. The code does not poll the line.
- `DS_init` only records the GPIO number and sets the flag. It sends nothing to
  the sensor and writes no resolution.
- The low byte is converted through `char` too, so with a signed `char` a low
  byte of 0x80 or more is sign-extended: 0x0191 decodes to 9.0625 rather than
  25.0625. With an unsigned `char` the high byte is never sign-extended, so
  negative readings come out as large positive ones. `DecodeAgreesWithSensor`
  states exactly when the driver's value equals the sensor's two's-complement
  reading.

## Model

| member | source | states |
|---|---|---|
| `Ds18b20Defs.CommandCodesDistinct` | ds18b20.h:21-31 | the eleven command codes are pairwise distinct byte values |
| `Ds18b20Defs.ResolutionValues` | ds18b20.h:34-39 | exactly four bytes are legal resolution values: 0x1F, 0x3F, 0x5F, 0x7F |
| `Ds18b20Defs.ResolutionLayout` | ds18b20.h:35-38 | a byte is a resolution value iff its low five bits are set and bit 7 is clear, so the four differ only in bits 5-6 |
| `Ds18b20Defs.ResolutionOf` | ds18b20.h:35-38 | the register value for a conversion depth of 9 to 12 bits is 0x1F + 0x20 * (bits - 9) |
| `Ds18b20Defs.BitDepth` | ds18b20.h:34-39 | every resolution value selects a depth of 9 to 12 bits and is the ResolutionOf that depth (inverse of ResolutionOf) |
| `Ds18b20Defs.ResolutionOfInjective` | ds18b20.h:35-38 | different bit depths have different register values |
| `Framing.ToChar` | ds18b20.c:74-75 | the `unsigned char` to `char` conversion yields a value in the `char` range that converts back to the same byte, and it changes the value iff `char` is signed and the byte is 0x80 or more |
| `Framing.CharRoundTrip` | ds18b20.c:64 | every `char` value survives conversion to `unsigned char` and back |
| `Framing.ShiftedCharBit` | ds18b20.c:32-33 | `x = data >> i; x &= 1` gives bit i of the byte `data` holds, for i < 8 and either `char` signedness, including negative (arithmetically shifted) values |
| `Framing.LevelsValueBound` | ds18b20.c:38-46 | the value built from n read slots is below 2^n, so eight slots give a byte |
| `Framing.LevelsValueBit` | ds18b20.c:40-45 | bit i of the value built from the reads is set iff the i-th read was high |
| `Framing.SetBitAbove` | ds18b20.c:43 | OR-ing `1 << i` into `data` adds 2^i when no bit at or above i is set yet |
| `Framing.AllHighValue` | ds18b20.c:41-45 | n high samples read as 2^n - 1 |
| `Framing.ByteRoundTrip` | ds18b20.c:28-46 | reading back the eight slots that `send_byte(b)` emits gives b, for all 256 bytes |
| `Framing.ByteBitsInjective` | ds18b20.c:28-35 | two bytes emit the same slot bits iff they are equal |
| `Ds18b20Driver.Host.constructor` | ds18b20.c:7-8 | at start `DS_GPIO` and `init` are 0, nothing has been sent, and the queue holds the given samples |
| `Ds18b20Driver.Host.Send` | ds18b20.c:9-16 | appends exactly one write slot, carrying 1 iff the argument is exactly 1 |
| `Ds18b20Driver.Host.Read` | ds18b20.c:17-27 | logs one read slot, consumes exactly one sample, and returns 1 if that sample is high, else 0 |
| `Ds18b20Driver.Host.SendByte` | ds18b20.c:28-37 | appends exactly eight write slots; slot i carries bit i of the byte, least significant first |
| `Ds18b20Driver.Host.ReadByte` | ds18b20.c:38-47 | logs eight read slots, consumes eight samples, and returns the byte whose bit i is the i-th sample |
| `Ds18b20Driver.Host.RstPulse` | ds18b20.c:48-60 | logs one reset, consumes two samples, and returns 1 iff the second sample is high; the first sample has no effect |
| `Ds18b20Driver.Host.DsGetTemp` | ds18b20.c:61-85 | the value returned, the traffic appended and the samples left are those of `GetTemp` for the current `init` flag and queue |
| `Ds18b20Driver.Host.DsInit` | ds18b20.c:86-90 | afterwards `init == 1` and `DS_GPIO` is the given GPIO number |
| `Ds18b20Driver.GetTempNotInitialised` | ds18b20.c:62-84 | with `init != 1` the read returns 0, sends nothing and consumes no sample |
| `Ds18b20Driver.GetTempNoPresence` | ds18b20.c:65-81 | when the first reset reports no device, the read returns 0 after that one reset and sends nothing more |
| `Ds18b20Driver.PresentOutcome` | ds18b20.c:66-79 | when the first reset reports a device, the traffic is reset, 0xCC, 0x44, reset, 0xCC, 0xBE, 16 read slots, reset; the value is Decode of the two bytes read in order; 22 samples are consumed |
| `Ds18b20Driver.GetTempDependsOnlyOnData` | ds18b20.c:65-78 | value and traffic depend only on the first reset's second sample and the 16 data samples; the second and third resets' results make no difference, and reading the same levels twice gives the same value |
| `Ds18b20Driver.GetTempReadsSensorBytes` | ds18b20.c:74-78 | end to end: when a present device sends bytes lo and hi least significant bit first, the read returns Decode(lo, hi) |
| `Ds18b20Driver.SilentBusReading` | ds18b20.c:48-79 | on a bus where nothing pulls the line low, the read still runs the full sequence and returns 4095.9375 (unsigned `char`) or -16.0625 (signed `char`), not 0 |
| `Ds18b20Driver.Decode` | ds18b20.c:78 | the computed temperature lies in [0, 65535/16] with an unsigned `char`, and in [-32896/16, 32639/16] with a signed one |
| `Ds18b20Driver.DecodeAgreesWithSensor` | ds18b20.c:78 | the driver's value equals the sensor's reading iff the low byte is below 0x80 (signed `char`) or the high byte is below 0x80 (unsigned `char`) |
| `Ds18b20Driver.DecodeExamples` | ds18b20.c:78 | 0x0191 decodes to 25.0625 with unsigned and 9.0625 with signed `char`; 0xFF50 decodes to -11 with signed and 4085 with unsigned `char` |
| `Ds18b20Driver.ReadCommandsMatchHeader` | ds18b20.h:24-28 | `SKIP_ROM`, `CONVERT_T` and `READ_SCRATCHPAD` are the literals 0xCC, 0x44 and 0xBE that the read sends |
| `Ds18b20Driver.CommandWireBits` | ds18b20.c:68-73 | the slot bits of 0xCC, 0x44 and 0xBE in wire order, least significant first |
| `Ds18b20Driver.ConversionTrafficShape` | ds18b20.c:65-76 | a full read is 51 events: resets at positions 0, 17 and 50, the four command bytes between them, and 16 read slots at 34-49 |

## Left out

- GPIO calls (`gpio_set_direction`, `gpio_set_level`, `gpio_get_level`, `gpio_pad_select_gpio`): these are foreign library calls. The model reduces them to the event log and the sample queue, so line direction and the pin-mux step are not modelled.
- All delays (`ets_delay_us`, and the 750 ms `vTaskDelay` that waits out the conversion): slot widths and timing are not logic the model can state.
- Scheduling, preemption and interrupt safety: these are about concurrency. The model is one sequential host.
- IEEE `float` rounding: the division by 16 is exact for every value the driver can produce, so the model uses `real`.
- Signed-`char` conversion is modelled as wrap-around modulo 256. This is GCC's choice; the C standard leaves the result to the implementation.
- The prototypes `ds18b20_send` … `ds18b20_init` and the per-handle `DS18B20_Info_t` interface (ds18b20.h:47-53): they have no definition in ds18b20.c. `Info` is modelled as a type only.
- The resolution enumeration is only a type: no code in ds18b20.c writes it to the sensor.
- Scratchpad writes, alarm bytes, ROM search, CRC checks and timeouts: the driver does none of these.
