# Wellhead telemetry: register layer

This project models the register layer of a small oil-field telemetry stack, in Dafny.

- A **simulator** groups wellhead metadata rows into an ordered dictionary, `wellhead id -> parameter list`. It refuses to start on an empty dictionary. Each cycle it prints one frame: one data point per wellhead, with one drawn value per parameter code.
- Two **gateways** relay each frame into the holding-register block of a Modbus server.
  - The newer gateway (`src/modbus_gateway.py`) first builds a register map `wellhead -> code -> {register, type}` from the mapping rows. It then writes each mapped parameter's two 16-bit words at that parameter's own register, in a block of 1000 registers.
  - The legacy gateway (`modbus_gateway.py`) parses `WH-nnn` into the window `(nnn - 1) * 50`. It packs the present configured parameters back to back from the start of that window, in a block of 20 × 50 registers.
- An **ingestion service** (`database_ingestion.py`) runs poll cycles.
  - Each cycle reads the windows of the first five wellheads, `2 × len(config)` registers each, and decodes them in configuration order.
  - It builds one batch of records that share one timestamp, skipping wellheads whose read returned an error.
  - It commits the batch only when it is non-empty, then sleeps for what is left of the 30-second interval.
  - Any exception closes the connections and retries after 10 s.

The codec is shared by all three. A 32-bit value travels as two registers. The bytes inside each register are big-endian, as section 4.2 of the Modbus Application Protocol Specification V1.1b3 requires. The low-order word comes first (`byteorder=Big, wordorder=Little`). Reads use function code 3, which asks for 1 to 125 registers (section 6.3 of the same specification).

Modules, one per file:
- `Wrappers` holds Option.
- `Codec` holds the words and the int32/float32 split.
- `Decimal` holds `str`, `zfill`, `int` and `split` on names.
- `Telemetry` holds frames, parameters and type kinds.
- `Store` holds the holding-register block, a class over an `array`.
- `RegisterMap` holds the newer gateway's map builder.
- `MappedGateway` holds the newer gateway: spec functions and a `Gateway` class.
- `BlockGateway` holds the legacy gateway: spec functions and a `Gateway` class.
- `Ingestion` holds the decoder, the poll cycle and the reconnect loop.
- `Simulator` holds grouping, start-up and frame shape.

Each loop of the source is a method with its invariants. Each method is proved equal to a spec function, and the properties are lemmas about those functions.

Behaviour of the code worth noting:
- An empty mapping table gives an empty register map, not an error.
- An unknown type adds no words, not an error.
- A boolean is packed as `int(value)`, with no truncation to 0/1.
- The excursion range is `[0.8·min, 1.2·max]`, not `min/max ± 0.2·(max−min)`.
- Floats are rounded to 2 decimals.
- The poll reads the windows of the first five wellheads, not the entries of a register map.
- No timestamp check is made before the commit.
- Only `JSONDecodeError`/`KeyError` are caught by the relays. A bad id, an int outside 32 bits, or a float beyond the float32 range (`OverflowError` from `struct.pack`) ends the updater thread. This is the `Faulted` status.
- `json.loads` keeps the last of repeated keys, so `parameters.get(code)` sees the last entry with that code.

## Model

| member | source | states |
|---|---|---|
| Codec.Encode32 | src/modbus_gateway.py:79 | a 32-bit pattern becomes `[u mod 65536, u div 65536]`, low word first |
| Codec.Decode32 | database_ingestion.py:90 | two registers give back `ws[0] + 65536·ws[1]` |
| Codec.Decode32Encode32 | database_ingestion.py:90 | decoding what was encoded gives back the 32-bit pattern |
| Codec.Encode32Decode32 | database_ingestion.py:90 | encoding a decoded register pair gives back the same two registers |
| Codec.RegistersRoundTrip | database_ingestion.py:90 | for any byte order and word order, a decoder configured like the builder gives back the four bytes packed |
| Codec.WordOrderMustAgree | src/modbus_gateway.py:79 | a reader using the other word order gets the original pattern back exactly when its two halves are equal |
| Codec.BytesDetermineValue | src/modbus_gateway.py:79 | two 4-byte big-endian strings of equal value are equal |
| Codec.FromBigEndianBytes | database_ingestion.py:90 | the value read from four big-endian bytes encodes back to those bytes |
| Codec.ToSigned | database_ingestion.py:101 | the signed reading of a pattern is an int32 that is congruent to the pattern mod 2^32 |
| Codec.SignedRoundTrip | database_ingestion.py:101 | taking an int32 as unsigned and back as signed gives the int32 |
| Codec.PackInt32 | src/modbus_gateway.py:83-84 | `add_32bit_int` succeeds exactly for int32 values and gives `[v mod 2^32 mod 65536, (v mod 2^32) div 65536]` |
| Codec.PackFloat32 | src/modbus_gateway.py:81-82 | `add_32bit_float` splits the float32 bit pattern the same way |
| Codec.DecodeInt32 | database_ingestion.py:100-101 | `decode_32bit_int` gives the int32 whose pattern is `ws[0] + 65536·ws[1]` |
| Codec.DecodeFloat32 | database_ingestion.py:98-99 | `decode_32bit_float` gives the pattern that encodes to those registers |
| Codec.Int32RoundTrip | database_ingestion.py:100-105 | every int32 packs, and decodes back to itself |
| Codec.Float32RoundTrip | database_ingestion.py:98-99 | every float32 pattern decodes back to itself, bit for bit |
| Decimal.DecimalString | database_ingestion.py:79 | `str(n)` is a non-empty digit string with no leading zero |
| Decimal.ZFill | database_ingestion.py:79 | `zfill(width)` pads with '0' on the left to `max(width, len)` and keeps the text as its suffix |
| Decimal.ParseNat | modbus_gateway.py:55 | `int(s)` succeeds exactly on non-empty ASCII digit strings, and then gives their value |
| Decimal.DecimalStringValue | database_ingestion.py:79 | `int(str(n)) == n` |
| Decimal.LeadingZerosValue | database_ingestion.py:79 | leading zeros do not change a numeral's value |
| Decimal.ZFilledRoundTrip | database_ingestion.py:79 | `int(str(n).zfill(w)) == n` for every width |
| Decimal.Split | modbus_gateway.py:55 | `split('-')` gives at least one piece, and no piece holds the separator |
| Decimal.JoinSplit | modbus_gateway.py:55 | joining the pieces with the separator gives back the text |
| Decimal.SplitOnce | modbus_gateway.py:55 | `a-b` with no '-' in `a` or `b` splits into exactly `[a, b]` |
| Telemetry.Lookup | modbus_gateway.py:65 | `parameters.get(code)` is present exactly when some entry has that code, and then it is the value of the last entry with that code |
| Telemetry.KindOf | src/modbus_gateway.py:81-84 | only "float", "integer" and "boolean" are understood types |
| Telemetry.Fits | modbus_gateway.py:72-77 | a value packs as its kind when a float lies in the float32 range and an int or boolean in int32; other types pack nothing |
| Telemetry.PackValue | modbus_gateway.py:72-77 | packing fails exactly when the value does not fit its kind (`struct.error`, `OverflowError`); otherwise "float" adds the two words of the float32 split, "integer"/"boolean" add two words, any other type adds none |
| Store.Overwrite | src/modbus_gateway.py:87 | a write changes exactly registers `addr .. addr+len-1`, and only when the whole run lies in the block; every other register keeps its value |
| Store.ReadReply | database_ingestion.py:83-87 | a function-code-3 read answers exactly when 1 ≤ count ≤ 125 and the range lies in the block, and then returns those registers |
| Store.ReadAfterWrite | database_ingestion.py:83 | reading back a run just written returns that run |
| Store.HoldingRegisters.constructor | src/modbus_gateway.py:101 | the block starts as `size` zero registers |
| Store.HoldingRegisters.SetValues | src/modbus_gateway.py:87 | `setValues(3, addr, ws)` leaves the block as `Overwrite` of the old block, and reports whether the run was in the block |
| Store.HoldingRegisters.ReadHolding | database_ingestion.py:83 | the server answers a read with `ReadReply` of its current contents |
| RegisterMap.MapOf | src/modbus_gateway.py:42-47 | the loop over the mapping rows, one `AddRow` per row in order, from an empty map |
| RegisterMap.AddRow | src/modbus_gateway.py:43-47 | one turn of the loop adds the row's wellhead key and sets exactly that (wellhead, code) pair to the row's register and type |
| RegisterMap.MapWellheads | src/modbus_gateway.py:42-47 | the built map's wellhead keys are exactly the wellhead ids of the rows |
| RegisterMap.MapPairs | src/modbus_gateway.py:42-47 | a (wellhead, code) pair is mapped exactly when some row carries it |
| RegisterMap.MapLastRowWins | src/modbus_gateway.py:42-47 | a mapped pair holds the register and type of the last row with that pair |
| MappedGateway.ParamEffect | src/modbus_gateway.py:74-87 | one parameter: an unmapped code writes nothing; a mapped one is packed by its mapped type and written at its register; a packing error faults the updater |
| MappedGateway.ParamsEffect | src/modbus_gateway.py:73-87 | the parameters in object order, each applied to the block the previous one left, stopping at the first fault |
| MappedGateway.PointEffect | src/modbus_gateway.py:67-87 | a missing "wellhead_id" or "parameters" raises `KeyError`; an unmapped wellhead is skipped; otherwise its parameters are relayed |
| MappedGateway.PointsEffect | src/modbus_gateway.py:67-90 | the data points in order; a `KeyError` or a fault drops the rest of the frame |
| MappedGateway.FrameEffect | src/modbus_gateway.py:63-90 | a line that is not JSON is discarded; otherwise its data points are relayed |
| MappedGateway.RunEffect | src/modbus_gateway.py:61-95 | the updater loop: each line read is relayed, empty reads skipped, until a fault ends the thread or the simulator has exited |
| MappedGateway.RunStops | src/modbus_gateway.py:61-95 | the updater takes at most one step per line, stops right after the first step at which the simulator had exited, and faults only at a line that was read; empty reads and discarded lines do not stop it |
| MappedGateway.MappedParamWritesPair | src/modbus_gateway.py:74-87 | a mapped parameter of a supported type whose value fits writes the low word of its pattern at the register and the high word at the next one, and changes nothing else |
| MappedGateway.UnsupportedTypeWritesNothing | src/modbus_gateway.py:79-87 | a type other than float/integer/boolean leaves the block unchanged and does not stop the frame |
| MappedGateway.ParamsKeep | src/modbus_gateway.py:73-87 | a register outside every window of a wellhead's mapped codes is unchanged by its parameters |
| MappedGateway.PointsKeep | src/modbus_gateway.py:67-87 | a register outside every mapped window is unchanged by a whole frame |
| MappedGateway.UnmappedRegisterKept | src/modbus_gateway.py:61-95 | a register outside every mapped window keeps its value, the initial 0, through any run of the updater |
| MappedGateway.UnmappedParamsWriteNothing | src/modbus_gateway.py:73-74 | parameters whose codes are not mapped for the wellhead write nothing |
| MappedGateway.UnmappedPointWritesNothing | src/modbus_gateway.py:68-74 | with the map built from the rows, a data point none of whose (wellhead, code) pairs a row carries writes nothing |
| MappedGateway.ParamsNeverDiscard | src/modbus_gateway.py:73-87 | the parameter loop never raises `KeyError` |
| MappedGateway.DiscardKeepsEarlierWrites | src/modbus_gateway.py:64-90 | when data point k raises `KeyError`, the frame ends there, with the earlier points' writes kept and nothing later written |
| MappedGateway.Gateway.constructor | src/modbus_gateway.py:101 | the gateway starts with an empty map and 1000 zero registers |
| MappedGateway.Gateway.BuildRegisterMap | src/modbus_gateway.py:42-49 | the map is filled in a temporary, and afterwards `registerMap` is the whole map of the rows |
| MappedGateway.Gateway.ApplyParams | src/modbus_gateway.py:73-87 | the block after the parameter loop, and its status, are those of `ParamsEffect` |
| MappedGateway.Gateway.ApplyPoint | src/modbus_gateway.py:67-87 | one data point changes the block as `PointEffect` says |
| MappedGateway.Gateway.ApplyFrame | src/modbus_gateway.py:63-90 | one line of output changes the block as `FrameEffect` says; a non-JSON line is discarded |
| MappedGateway.Gateway.Run | src/modbus_gateway.py:61-95 | the updater loop leaves the block, the step count and the stop reason of `RunEffect` |
| BlockGateway.WellheadIndex | modbus_gateway.py:54-55 | `int(id.split('-')[1]) - 1`; None where that raises (no second piece, or a piece that is not a numeral) |
| BlockGateway.PackFrom | modbus_gateway.py:64-77 | the builder loop over the configured names: a missing parameter is skipped, a present one adds its packed words, a packing error ends it |
| BlockGateway.PointEffect | modbus_gateway.py:53-84 | a missing "wellhead_id" or "parameters" raises `KeyError`; a bad id faults; otherwise the payload is written at the window's base address |
| BlockGateway.RunEffect | modbus_gateway.py:46-97 | the updater loop: each line read is handled, empty reads skipped, until a fault ends the thread or the simulator has exited |
| BlockGateway.WellheadIndexOfName | modbus_gateway.py:54-55 | a name `<prefix>-<digits>` gives index `digits - 1` |
| BlockGateway.TypeMap | modbus_gateway.py:38 | the type dictionary's keys are exactly the configured names |
| BlockGateway.TypeMapLastWins | modbus_gateway.py:38 | a name that no later entry repeats keeps its own type |
| BlockGateway.BlockPayload | modbus_gateway.py:61-80 | a built payload holds at most two words per configured parameter |
| BlockGateway.PackedLength | modbus_gateway.py:64-80 | the payload holds two words per carried parameter of a supported type |
| BlockGateway.Present | modbus_gateway.py:64-69 | the carried parameters are configured parameters that the data point has |
| BlockGateway.MissingLeaveNoGap | modbus_gateway.py:68-69 | the payload equals the one built from the carried parameters alone, so later parameters move up two registers |
| BlockGateway.PackFailsIff | modbus_gateway.py:72-77 | packing fails exactly when some carried value does not fit its type: an integer/boolean outside int32 or a float beyond the float32 range |
| BlockGateway.PayloadLayout | modbus_gateway.py:64-80 | when every parameter is carried and supported, parameter j occupies payload words 2j and 2j+1 |
| BlockGateway.PointStaysInWindow | modbus_gateway.py:54-84 | a data point writes nothing outside the 50-register window its id names (writes outside the block being rejected) |
| BlockGateway.PointsOfOtherWellheadsDisjoint | modbus_gateway.py:58-84 | a data point never changes a register in another wellhead's window (writes outside the block being rejected) |
| BlockGateway.AllocatedWellheadsOnly | modbus_gateway.py:108-110 | a payload reaches the block exactly for indices 0..19; any other index leaves the block unchanged (writes outside the block being rejected) |
| BlockGateway.RunStops | modbus_gateway.py:46-97 | the updater takes at most one step per line, stops right after the first step at which the simulator had exited, and faults only at a line that was read; empty reads and discarded lines do not stop it |
| BlockGateway.Gateway.constructor | modbus_gateway.py:108-110 | the block starts as 20 × 50 zero registers |
| BlockGateway.Gateway.BuildPayload | modbus_gateway.py:61-80 | the builder loop over the configured names yields `BlockPayload` |
| BlockGateway.Gateway.ApplyPoint | modbus_gateway.py:53-84 | one data point changes the block as `PointEffect` says |
| BlockGateway.Gateway.ApplyFrame | modbus_gateway.py:51-90 | one line of output changes the block as `FrameEffect` says |
| BlockGateway.Gateway.Run | modbus_gateway.py:46-97 | the updater loop leaves the block, the step count and the stop reason of `RunEffect` |
| Ingestion.WellheadId | database_ingestion.py:79 | the name `f"WH-{str(i+1).zfill(3)}"` of wellhead i |
| Ingestion.ColumnName | database_ingestion.py:96 | `name.replace(' ', '_').lower()` |
| Ingestion.WellheadIdIndex | database_ingestion.py:79-80 | the legacy gateway parses the name `WH-{i+1:03}` back to index i, so both sides use the window `i·50` |
| Ingestion.WellheadIdInjective | database_ingestion.py:79 | different indices give different names |
| Ingestion.WellheadIdsDistinct | database_ingestion.py:77-79 | the five polled names are pairwise distinct |
| Ingestion.ColumnNameShape | database_ingestion.py:96 | a column name has the name's length, no space and no capital, and keeps every other character |
| Ingestion.ValueRoundTrip | database_ingestion.py:98-105 | the decoder reads what a gateway packed as the float, the int, or `int != 0` for a boolean |
| Ingestion.DecodeAs | database_ingestion.py:98-105 | a float parameter decodes a float32, an integer an int32, a boolean `bool` of an int32 |
| Ingestion.Decoded | database_ingestion.py:90-105 | the decoder loop: each supported parameter takes the next two registers and sets its column; other types take none |
| Ingestion.DecodedKeys | database_ingestion.py:92-105 | the decoded columns are exactly those of the parameters of a supported type |
| Ingestion.DecodedKeeps | database_ingestion.py:92-105 | an entry that is no parameter's column is left as it was |
| Ingestion.DecodedColumn | database_ingestion.py:92-105 | with supported types, the last parameter of a column holds the decoding of registers 2k, 2k+1 |
| Ingestion.DecodedValues | database_ingestion.py:92-105 | with distinct columns and supported types, column k holds the decoding of registers 2k and 2k+1 |
| Ingestion.RecordValues | database_ingestion.py:108 | the record exists exactly when every column was decoded, and then lists them in column order |
| Ingestion.UnsupportedColumnRaises | database_ingestion.py:93-108 | an unsupported type whose column no supported parameter shares makes building the record raise |
| Ingestion.TypeMapOfDistinct | modbus_gateway.py:38 | with distinct column names, each configured name maps to its own type |
| Ingestion.PayloadFills | modbus_gateway.py:64-80 | a fully carried, supported configuration fills exactly `2·len(config)` registers |
| Ingestion.ColumnRoundTrip | database_ingestion.py:92-105 | column k of the decoded legacy payload is the data point's value for parameter k |
| Ingestion.PayloadRoundTrip | database_ingestion.py:90-108 | decoding the legacy payload of a fully carried point gives exactly its values, column by column |
| Ingestion.ReadWellhead | database_ingestion.py:80-109 | a successful read carries one value per configured parameter |
| Ingestion.ReplyIsPayload | database_ingestion.py:80-83 | after the gateway wrote wellhead i, the `2·len(config)` read at `i·50` returns exactly its payload |
| Ingestion.GatewayToRecord | database_ingestion.py:80-109 | end to end, wellhead i's reading is exactly the values of the data point the legacy gateway wrote |
| Ingestion.Collect | database_ingestion.py:77-109 | the wellhead loop over the readings: a failed read is skipped, a lost connection or a missing column raises, a good read appends its record |
| Ingestion.Cycle | database_ingestion.py:74-109 | one poll of the five wellheads with one shared timestamp |
| Ingestion.RaisedPersists | database_ingestion.py:77-109 | once a cycle has raised, it stays raised |
| Ingestion.CollectRaises | database_ingestion.py:77-109 | the wellhead loop raises exactly when one of its reads failed |
| Ingestion.RecordsFromReads | database_ingestion.py:77-109 | every record comes from a successful read, so there are at most as many as wellheads |
| Ingestion.ReadsRecorded | database_ingestion.py:77-109 | every successful read has its record |
| Ingestion.RecordedIff | database_ingestion.py:85-109 | with distinct names, a reading succeeded exactly when some record carries its name |
| Ingestion.CycleRaises | database_ingestion.py:77-109 | a cycle raises exactly when some wellhead's read or record fails |
| Ingestion.CycleRecordsFromReads | database_ingestion.py:74-109 | at most five records, each being the shared timestamp, the name `WH-nnn` and that wellhead's read values |
| Ingestion.CycleReadsRecorded | database_ingestion.py:83-109 | wellhead i has a record exactly when its read succeeded; skipped wellheads leave none |
| Ingestion.CycleOutcome | database_ingestion.py:111-120 | after the poll: commit only a non-empty batch, then sleep for what is left of the interval; an exception or a failed commit ends the cycle |
| Ingestion.CyclesActions | database_ingestion.py:71-120 | the cycles of one connection in order, until one fails |
| Ingestion.Service | database_ingestion.py:55-128 | a failed attempt is followed by closing the connections and a 10-second sleep before the next |
| Ingestion.FailureEndsCycles | database_ingestion.py:71-122 | the cycles after a failing one add nothing |
| Ingestion.CycleWellFormed | database_ingestion.py:74-120 | a cycle commits only a non-empty batch of at most five records with one timestamp, and sleeps only a positive time up to 30 s |
| Ingestion.CyclesWellFormed | database_ingestion.py:71-120 | the same holds for the cycles of one connection |
| Ingestion.ServiceOfWellFormed | database_ingestion.py:55-128 | the outer loop keeps the actions well formed |
| Ingestion.ServiceWellFormed | database_ingestion.py:55-128 | every action of the service is well formed |
| Ingestion.CyclesNoClose | database_ingestion.py:71-120 | the poll cycles never close the connections |
| Ingestion.ServiceOfBacksOff | database_ingestion.py:122-128 | in the outer loop, every close is followed at once by the 10-second sleep |
| Ingestion.ServiceBacksOff | database_ingestion.py:122-128 | the service sleeps 10 s right after each time it closes the connections |
| Ingestion.DecodeBlock | database_ingestion.py:90-105 | the decoder loop with its moving cursor yields `Decoded` |
| Ingestion.PollCycle | database_ingestion.py:74-109 | the wellhead loop yields `Cycle` |
| Ingestion.RunCycle | database_ingestion.py:72-120 | one cycle polls, commits a non-empty batch and sleeps out the interval, as `CycleActions` says |
| Ingestion.RunCycles | database_ingestion.py:71-120 | the inner loop yields the actions of `CyclesActions` |
| Ingestion.Serve | database_ingestion.py:55-128 | the reconnect loop yields the actions of `ServiceActions` |
| Simulator.AddRow | src/wellhead_simulator.py:39-46 | one row: a new wellhead id is appended to the order with an empty list, and the row's info is appended to its list |
| Simulator.Group | src/wellhead_simulator.py:36-47 | the grouping loop over the rows, from the empty dictionary |
| Simulator.AddRowValid | src/wellhead_simulator.py:39-46 | one turn of the grouping loop keeps each key listed exactly once in the iteration order |
| Simulator.GroupValid | src/wellhead_simulator.py:36-46 | the grouped dictionary's order lists each key exactly once |
| Simulator.GroupKeys | wellhead_simulator.py:111-115 | the keys are exactly the distinct wellhead ids of the rows |
| Simulator.GroupLists | wellhead_simulator.py:116-121 | each wellhead's list is the rows of that wellhead, in row order, with code, min, max and type copied |
| Simulator.GroupTotal | src/wellhead_simulator.py:41-46 | the list lengths sum to the number of rows |
| Simulator.GroupOrder | src/wellhead_simulator.py:36-40 | the dictionary iterates over each wellhead of the rows exactly once |
| Simulator.Startup | wellhead_simulator.py:159-163 | the simulation runs exactly when there are rows, and then on the grouped configuration |
| Simulator.GroupMetadata | src/wellhead_simulator.py:36-47 | the grouping loop yields `Group` |
| Simulator.Sample | src/wellhead_simulator.py:62-65 | one draw in ten is uniform over `[0.8·min, 1.2·max]`, the others over `[min, max]` |
| Simulator.ValueOf | src/wellhead_simulator.py:62-72 | a float is its sample rounded to 2 decimals, a boolean a 0/1 choice, anything else its sample truncated |
| Simulator.Trunc | src/wellhead_simulator.py:71-72 | `int(x)` truncates toward zero: it is within 1 of x and no farther from 0 |
| Simulator.RoundCents | src/wellhead_simulator.py:67-68 | `round(x, 2)` is within 0.005 of x |
| Simulator.NormalSampleInBounds | src/wellhead_simulator.py:62-65 | a draw outside the 10% excursion lies in `[min, max]` |
| Simulator.FloatValueNearSample | wellhead_simulator.py:142-143 | a float parameter's value is its sample rounded to within 0.005 |
| Simulator.BooleanIsBit | wellhead_simulator.py:144-145 | a boolean parameter's value is 0 or 1 |
| Simulator.ParamsOf | src/wellhead_simulator.py:60-72 | the "parameters" dictionary of a data point: each code in turn set to its drawn value |
| Simulator.PointOf | src/wellhead_simulator.py:55-72 | data point k: the clock reading for it, the wellhead id and its parameters |
| Simulator.FrameOf | src/wellhead_simulator.py:53-73 | one data point per wellhead, in the dictionary's order |
| Simulator.ParamKeys | src/wellhead_simulator.py:60-72 | a data point's parameter keys are exactly its list's codes |
| Simulator.ParamLastWins | wellhead_simulator.py:135-147 | a code that no later entry repeats holds its own entry's drawn value |
| Simulator.FrameWellheads | wellhead_simulator.py:128-134 | a frame has one data point per key, in dictionary order, stamped by the clock |
| Simulator.FrameCodes | wellhead_simulator.py:128-148 | wellhead k's parameter keys are exactly the codes of its rows |
| Simulator.FrameValue | src/wellhead_simulator.py:60-72 | an entry's code holds its drawn value, and a boolean's is 0 or 1 |
| Simulator.EmitFrame | src/wellhead_simulator.py:53-73 | the nested frame loops yield `FrameOf` |

## Left out

- Database access (psycopg2 queries, connections, `execute_batch`, `commit`) is foreign I/O. Metadata and mapping rows are input sequences. A commit is an action carrying its batch. A failing commit is an input flag.
- The pymodbus TCP server and client are left out. Only the stated byte and word order of `BinaryPayloadBuilder`/`BinaryPayloadDecoder` is modelled, over an explicit register array. A read error (`isError`) and a lost connection are given per wellhead as inputs.
- `subprocess.Popen`, `readline` and `json.loads` are I/O. A line is a parsed frame, None for a line that is not JSON, or an empty read.
- The threading and the global `server_context` are concurrency. The model has one sequential writer.
- `time.sleep(0.1)` in the relays is not modelled.
- `time.time()` and `datetime.utcnow()` become integer inputs: elapsed milliseconds per cycle, and a timestamp string. The simulator's clock is a function parameter.
- Randomness is a parameter: every `random.random()`, `uniform` and `choice` is a given `Draw`.
- IEEE-754 conversions are left out. `float(value)` is given as an opaque float32 bit pattern, and `int(value)` as an int, with each JSON number.
- Simulator.RoundCents: Python's `round(x, 2)` on binary floats is modelled on exact reals. The contract states only closeness to x.
- Store.Overwrite: a write whose start is negative, or whose run leaves the block, is modelled as rejected, with the block unchanged. The data block's list-slice assignment would instead wrap a negative start toward the end of the block, or lengthen the list. The data block's own addressing is not modelled.
- Store.HoldingRegisters.SetValues: the same rejection as `Store.Overwrite`, for negative starts and for runs past the end of the block.
- BlockGateway.PointStaysInWindow: the id "WH-000" gives index −1 and base address −50. The lemma holds for it only because the model rejects a negative start; the source's slice assignment would write at the end of the block.
- BlockGateway.PointsOfOtherWellheadsDisjoint: for index −1 (the id "WH-000") this holds only under the rejection of negative starts. The source would write into the last window, wellhead 19's.
- BlockGateway.AllocatedWellheadsOnly: its claim that the block is unchanged for any index outside 0..19 rests, for index −1, on the rejection of negative starts.
- The legacy gateway calls `setValues` on the server context itself (modbus_gateway.py:84). The model performs the holding-register write this line evidently intends, as the newer gateway does.
- Decimal.ParseNat: `int()` is modelled on ASCII digit strings only. Python's `int` also accepts surrounding whitespace, a sign, underscores between digits and non-ASCII decimal digits. So "WH- 1" names index 0 in the source but is a fault here.
- Ingestion.ColumnNameShape: `lower()` (in `Ingestion.ColumnName`) is modelled on ASCII letters only. Python lowers other letters too, and can change the length (for 'İ'), so the shape holds for the modelled normaliser only.
- JSON `null` values are not modelled.
- MappedGateway.ParamsEffect: a data point's "parameters" is modelled as its list of entries. `json.loads` folds a repeated key into one entry, with the last value at the first key's place. The model's loop instead relays each repeated entry in turn. `Telemetry.Lookup` takes the last entry, as the parsed object does.
- Simulator.SimPoint: a data point's parameters are a map, so the order of the keys in the printed object (the order of the metadata rows) is not kept. The newer gateway writes in that order and stops at the first fault. So which writes precede a fault is not tied to the simulator's output.
- Telemetry.Scalar: JSON's non-finite numbers (`Infinity`, `NaN`) and `int()` of them are not modelled.
- A NULL `normal_min`/`normal_max` is not modelled (it makes `None * 0.8` raise): bounds are reals.
- When a connect attempt fails, the model closes whatever the service opened. Which of the two connections was open is not tracked.
- The model covers finitely many attempts and cycles. An attempt whose modelled cycles all succeed is where the input ends.
- The commented-out simulator at the top of wellhead_simulator.py is not live code.
- Parameter_Catalog.py is a static table with no logic, and simulated_wellSensors.py is a script of random readings. Neither is part of this model.
- Loading `parameters.json` and environment variables, the start-up `sleep(10)`, the prints and the `print(json.dumps(...))` output are I/O and are left out.
- The simulator's interval sleep and its endless loop are left out. One pass of the loop is modelled.
