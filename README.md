# telosb-adc host scripts in Dafny

This project models the host-side Python of the telosb-adc repository: the two scripts that take
active-message packets from TelosB motes over the serial link and decode their ADC readings.

- `ReadForward/readforward.py` decodes 18-byte ReadForward packets (reading type, group, hop
  count, five sensor-id slots, ten raw-sample bytes). It converts each hop's sample with the
  calibration formula for the packet's reading type. It posts one JSON record per hop to the
  ingestion web application and stops after a budget of `packets` ReadForward packets.
- `AdcTelos/oscilloscope.py` decodes oscilloscope packets (four 2-byte header fields, then a
  readings blob). It splits the blob into 2-byte samples and prints each as numbered visible-light lux.

Modules:

- `Wrappers`: `Option` (Python's `None`) and `Result` (a value or the exception raised).
- `Bytes`: `byte`, `bytes_to_int` (`BytesToInt`) and its inverse `SampleBytes`.
- `Layout`: the packet as the transport hands it over (`RawPacket`), and the declared field lists
  given to `tos.Packet`. A field sits at the sum of the widths declared before it.
- `Calibration`: the `Telosb` formulas over `real`. This is exact arithmetic, not IEEE doubles.
- `ReadForward`: the message layout, the `RType` enumeration, the converters, `get_readings`
  (`GetReadings` as a loop, `Readings` as its value), `package` and the `sent`/`packets` loop of
  `main` (`Run`).
- `Oscilloscope`: the message layout, the byte-pairing comprehension (`Pairs`), the numbered print
  loop (`NumberReadings`) and the listening loop (`Listen`).

The model does what the code does, including where the code departs from what its declarations
and comments suggest:

- `readings` is declared as `2*NREADINGS` bytes (ReadForward/readforward.py:26), two per hop,
  yet hop `i` reads `[readings[i], readings[i+1]]` (ReadForward/readforward.py:105).
  Consecutive hops therefore share a byte, and no hop after the first reads its own 2-byte slot
  (`WindowsOverlap`, `TwoHopOverlap`).
- An unknown reading type makes `package` return `None` (ReadForward/readforward.py:112-124),
  and `for reading in None` then raises `TypeError` (ReadForward/readforward.py:160), which
  ends `main`. A hop count above 5 makes `id[5]` raise `IndexError`
  (ReadForward/readforward.py:101), which also ends `main`. `Run` ends with status `Crashed`
  in both cases.
- `get_voltage` is a `#TODO` stub whose body is `pass` (ReadForward/readforward.py:92-94), so
  VOLTAGE records carry the value `None`.
- The temperature formula is `c1 + c2 * raw` with the humidity coefficients `c1`, `c2`
  (ReadForward/readforward.py:44-45, 87-90).
- A packet counts towards the budget even when it has zero hops. This is the "empty packet" the
  script's comment mentions (ReadForward/readforward.py:155-158), and its `msg != None` test is
  always true.

`time.time()` is a parameter `clock: nat -> real`. `clock(n)` is the reading taken for the `n`-th
record built in the session. `am.read()` is a finite sequence of reads, with `None` for "nothing
arrived". A `Run` that exhausts it before meeting the budget ends as `Listening`.

## Model

| member | source | states |
|---|---|---|
| Bytes.BytesToInt | ReadForward/readforward.py:30-31 | the big-endian combine of two bytes is a 16-bit value (below 65536) |
| Bytes.SampleRoundTrip | ReadForward/readforward.py:30-31 | combining the high and low byte of any 16-bit sample `r` (`[r/256, r%256]`) gives `r` back |
| Bytes.PairRoundTrip | AdcTelos/oscilloscope.py:7-9 | splitting the combined value of any byte pair gives the pair back, so the combine is injective |
| Calibration.VSensorFullScale | ReadForward/readforward.py:55-57 | `v_sensor` maps sample 4096 to the 1.5 V reference and 0 to 0 |
| Calibration.TemperatureInverse | ReadForward/readforward.py:87-90 | temperature is strictly increasing in the sample, and `(T - c1) / c2` recovers the sample |
| Calibration.HumidityIncreasing | ReadForward/readforward.py:49-52 | humidity is strictly increasing for samples up to 11500, which covers the 12-bit ADC range |
| Calibration.VisibleLightScale | ReadForward/readforward.py:65-73 | visible light is the sample times 9375/4096 lux: 0 at 0 and non-decreasing |
| Calibration.InfraredLightScale | ReadForward/readforward.py:76-84 | infrared light is the sample times 2307/8192 lux: 0 at 0 and non-decreasing |
| ReadForward.RTypeOf | ReadForward/readforward.py:10-15 | a wire value names a reading type exactly when it is in 0..4, and that type's value is the wire value |
| ReadForward.RTypeRoundTrip | ReadForward/readforward.py:10-15 | every reading type is found again from its wire value |
| ReadForward.MsgLayoutOffsets | ReadForward/readforward.py:20-26 | the declared fields sit at bytes 0, 1, 2, 3..7 and 8..17, 18 bytes in all |
| ReadForward.Decode | ReadForward/readforward.py:18-27 | an 18-byte buffer decodes to a message with a 5-byte id blob and a 10-byte readings blob |
| ReadForward.DecodeFields | ReadForward/readforward.py:20-26 | `rtype`, `group`, `hops` are bytes 0, 1, 2; `id` is bytes 3..7; `readings` is bytes 8..17 |
| ReadForward.DecodeEncode | ReadForward/readforward.py:20-26 | decoding the wire form of any well-formed message gives the message back |
| ReadForward.EncodeDecode | ReadForward/readforward.py:20-26 | re-encoding a decoded 18-byte buffer gives the buffer back |
| ReadForward.Convert | ReadForward/readforward.py:92-94 | a converter yields no value exactly when it is `get_voltage`, which has no body |
| ReadForward.ConverterForMatchesTable | ReadForward/readforward.py:110-124 | the if/elif chain selects no converter exactly for types outside 0..4, and for known types the converter of the reference dispatch table |
| ReadForward.WindowsOverlap | ReadForward/readforward.py:105 | the second byte of hop `i`'s window is the first byte of hop `i+1`'s |
| ReadForward.GetReadings | ReadForward/readforward.py:97-107 | `IndexError` exactly when `hops > 5`; otherwise `hops` records in hop order, record `i` with `sensorid = id[i]`, the packet's group and type, the `i`-th clock reading after `base`, and the converter applied to `[readings[i], readings[i+1]]` |
| ReadForward.PackageOutcome | ReadForward/readforward.py:110-124 | `None` exactly for types outside 0..4; `IndexError` exactly for known types with more than 5 hops; otherwise one record per hop converted by the type's converter, whose value is `None` exactly for VOLTAGE |
| ReadForward.ForwardFails | ReadForward/readforward.py:153-161 | handling a ReadForward packet raises exactly when its type byte is above 4 (`TypeError`) or its hop byte above 5 (`IndexError`) |
| ReadForward.ForwardRecords | ReadForward/readforward.py:159-161 | a packet that does not raise posts `hops` records with its ids, group and type, stamped with consecutive clock readings |
| ReadForward.SingleHopTemperature | ReadForward/readforward.py:97-124 | a one-hop TEMPERATURE packet from sensor 7, group 3, sample 2000 posts exactly one record with value `temperature(2000)` |
| ReadForward.TwoHopOverlap | ReadForward/readforward.py:105 | with samples 2000 and 3000 on the wire, the second hop is converted from bytes D0 0B (53259), not from 3000 |
| ReadForward.Run | ReadForward/readforward.py:149-162 | `sent` is the number of ReadForward packets read, whatever their hop count; other types and empty reads count nothing; every record is posted in order; the loop stops right after the packet that brings `sent` to `packets`, or at the first packet that raises |
| ReadForward.CountMatchingAppend | ReadForward/readforward.py:151-153 | the packet count over a stream is the sum of the counts over its parts |
| ReadForward.CountMatchingIgnoresOthers | ReadForward/readforward.py:153 | a read adds one to the count exactly when it is a ReadForward packet |
| ReadForward.PostedPrefix | ReadForward/readforward.py:160-161 | posts for later packets only extend the posts made so far |
| ReadForward.PostedTimestamps | ReadForward/readforward.py:104 | the `j`-th posted record carries the `j`-th clock reading |
| ReadForward.PostedKinds | ReadForward/readforward.py:110-124 | every posted record has a known reading type, and its value is `None` exactly when that type is VOLTAGE |
| ReadForward.EmptyPacketCounts | ReadForward/readforward.py:155-162 | a zero-hop packet of a known type adds one to `sent` and posts nothing |
| Oscilloscope.HeaderLayoutOffsets | AdcTelos/oscilloscope.py:72-80 | the four 2-byte header fields sit at bytes 0, 2, 4, 6, so the readings begin at byte 8 |
| Oscilloscope.Decode | AdcTelos/oscilloscope.py:72-80 | the readings blob is everything after the 8 header bytes |
| Oscilloscope.DecodeFields | AdcTelos/oscilloscope.py:74-79 | `version`, `interval`, `id`, `count` are the big-endian pairs at bytes 0, 2, 4, 6 |
| Oscilloscope.Pairs | AdcTelos/oscilloscope.py:92 | the comprehension yields `floor(len(readings)/2)` pairs |
| Oscilloscope.FlattenPairsPrefix | AdcTelos/oscilloscope.py:92 | the first `n` pairs concatenated are the first `2n` bytes |
| Oscilloscope.PairsReassemble | AdcTelos/oscilloscope.py:92 | the pairs concatenated give the blob when its length is even, and drop only its last byte when odd |
| Oscilloscope.PairsPartition | AdcTelos/oscilloscope.py:92 | pair `k` is bytes `2k` and `2k+1`; every paired byte lies in exactly one pair, so pairs never overlap |
| Oscilloscope.NumberReadings | AdcTelos/oscilloscope.py:91-96 | one line per pair, numbered 1, 2, ..., n in pair order, each the visible-light lux of its pair |
| Oscilloscope.OnlyMatching | AdcTelos/oscilloscope.py:89 | keeps exactly the oscilloscope packets of the stream: every kept read is one, every one is kept, and filtering distributes over concatenation (`OnlyMatchingAppend`), so arrival order is kept |
| Oscilloscope.OnlyMatchingAppend | AdcTelos/oscilloscope.py:87-89 | filtering a concatenated stream is filtering each part and concatenating, in order |
| Oscilloscope.OutputIgnoresOthers | AdcTelos/oscilloscope.py:87-90 | only packets of type `AM_OSCILLOSCOPE` print anything: dropping all other reads leaves the output unchanged |
| Oscilloscope.Listen | AdcTelos/oscilloscope.py:87-97 | the listening loop prints, for each oscilloscope packet in order, its numbered readings and a blank line |

## Left out

- Serial transport (`tos.AM`, `am.read`) and the internals of `tos.Packet`: these are a foreign library. Reads are a finite sequence. A ReadForward packet is assumed to carry exactly 18 bytes and an oscilloscope packet at least 8. How the library handles shorter buffers cannot be seen, so these lengths are preconditions (`Framed`).
- HTTP posts (`aiohttp`), `simplejson.dumps` and `asyncio`: the awaits run one after another. A post is modelled as appending the record to `posted`. The URL is not modelled, and neither is an exception from a failed post.
- `time.time()`: a `clock` parameter.
- Command-line handling (`usage`, `-h`, `sys.argv`, `sys.exit`, the default budget of 250, URL building): `Run` takes `packets` as a parameter.
- The endless `while True` of the oscilloscope script and the endless reading of `main`: only a finite prefix of reads is modelled.
- Console output: the `print(buf)` in the oscilloscope's `bytes_to_int` and the usage text. Printed lines are values (`Line`), not formatted text.
- IEEE-754 rounding in the calibration formulas: they are exact `real` arithmetic.
- The oscilloscope script's own copy of `Telosb` (`get_humid`, `get_temp`, `get_visible_light`, AdcTelos/oscilloscope.py:12-68): it has the same formulas as the ReadForward copy and is modelled once, in `Calibration`.
- The `.h` files: they hold only constants and struct declarations for the mote side.
