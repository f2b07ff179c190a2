/**
 * The ingestion service: each poll cycle reads the register window of each
 * of the first five wellheads from the legacy gateway, decodes it with the
 * parameter configuration, and stores one record per readable wellhead in a
 * single transaction; any other failure closes the connections and starts
 * over after ten seconds.
 */
module Ingestion {
  import opened Wrappers
  import opened Codec
  import opened Telemetry
  import opened Store
  import opened Decimal
  import opened BlockGateway

  const NUMBER_OF_WELLHEADS: nat := 5

  /** Time is counted in milliseconds. */
  const POLL_INTERVAL_MS: nat := 30000

  const RECONNECT_DELAY_MS: nat := 10000

  /** `f"WH-{str(i+1).zfill(3)}"`, the name of the wellhead at index i. */
  function WellheadId(i: nat): string {
    "WH-" + ZFill(DecimalString(i + 1), 3)
  }

  /**
   * The legacy gateway reads the name back as index i, so the gateway writes
   * and the ingestion service reads the same window, i * 50.
   */
  lemma WellheadIdIndex(i: nat)
    ensures WellheadIndex(WellheadId(i)) == Some(i)
  {
    ZFilledRoundTrip(i + 1, 3);
    NamedIndex(ZFill(DecimalString(i + 1), 3), i + 1);
  }

  /** `WH-<digits>` names wellhead index (digits - 1). */
  lemma NamedIndex(digits: string, n: nat)
    requires ParseNat(digits) == Some(n)
    ensures WellheadIndex("WH-" + digits) == Some(n - 1)
  {
    assert "WH-" + digits == "WH" + ['-'] + digits;
    WellheadIndexOfName("WH", digits);
  }

  /** Different indices give different names. */
  lemma WellheadIdInjective(i: nat, j: nat)
    ensures WellheadId(i) == WellheadId(j) <==> i == j
  {
    WellheadIdIndex(i);
    WellheadIdIndex(j);
  }

  predicate IsUpper(c: char) {
    'A' <= c <= 'Z'
  }

  function Lower(c: char): char {
    if IsUpper(c) then (c as int + 32) as char else c
  }

  /** `name.replace(' ', '_').lower()`, with `lower` acting on ASCII letters. */
  function ColumnName(name: string): string {
    seq(|name|, k requires 0 <= k < |name| => if name[k] == ' ' then '_' else Lower(name[k]))
  }

  /**
   * A column name has the length of its parameter name, holds no space and
   * no upper-case letter, and keeps every other character of the name.
   */
  lemma ColumnNameShape(name: string)
    ensures |ColumnName(name)| == |name|
    ensures forall k :: 0 <= k < |name| ==> ColumnName(name)[k] != ' ' && !IsUpper(ColumnName(name)[k])
    ensures forall k :: 0 <= k < |name| && name[k] != ' ' && !IsUpper(name[k]) ==> ColumnName(name)[k] == name[k]
  {
  }

  /** The column names, in configuration order. */
  function Columns(config: seq<ParamSpec>): seq<string> {
    seq(|config|, k requires 0 <= k < |config| => ColumnName(config[k].name))
  }

  predicate DistinctColumns(config: seq<ParamSpec>) {
    forall j, k :: 0 <= j < k < |config| ==> ColumnName(config[j].name) != ColumnName(config[k].name)
  }

  predicate Supported(config: seq<ParamSpec>) {
    forall j :: 0 <= j < |config| ==> KindOf(config[j].typeName) != NoKind
  }

  /** A decoded value: a float32 bit pattern, an int, or a bool. */
  datatype Value = FloatValue(bits: Float32) | IntValue(i: int) | BoolValue(b: bool)

  /** What the decoder yields for one parameter of a supported kind from its two registers. */
  function DecodeAs(kind: Kind, ws: seq<Word>): Value
    requires kind != NoKind && |ws| == 2
  {
    match kind
    case FloatKind => FloatValue(DecodeFloat32(ws))
    case IntKind => IntValue(DecodeInt32(ws))
    case BoolKind => BoolValue(DecodeInt32(ws) != 0)
  }

  /**
   * The value a simulator reading should arrive as: its float, its int, or
   * `bool` of its int. (A float beyond the float32 range never reaches the
   * registers, since packing it fails; 0 stands in for it here.)
   */
  function Expected(kind: Kind, v: Scalar): Value
    requires kind != NoKind
  {
    match kind
    case FloatKind => FloatValue(v.asFloat.GetOr(0))
    case IntKind => IntValue(v.asInt)
    case BoolKind => BoolValue(v.asInt != 0)
  }

  /** What a gateway packs for one value, the decoder reads back as that value. */
  lemma ValueRoundTrip(typeName: string, v: Scalar)
    requires KindOf(typeName) != NoKind && PackValue(typeName, v).Some?
    ensures DecodeAs(KindOf(typeName), PackValue(typeName, v).value) == Expected(KindOf(typeName), v)
  {
    if KindOf(typeName) == FloatKind {
      Float32RoundTrip(v.asFloat.value);
    } else {
      Int32RoundTrip(v.asInt);
    }
  }

  /**
   * The decoder loop over the configuration: a float or an int/boolean
   * parameter takes the next two registers; a parameter of any other type
   * takes none and decodes nothing.
   */
  function Decoded(regs: seq<Word>, config: seq<ParamSpec>, acc: map<string, Value>): map<string, Value>
    requires 2 * |config| <= |regs|
    decreases |config|
  {
    if config == [] then acc
    else
      var kind := KindOf(config[0].typeName);
      if kind == NoKind then Decoded(regs, config[1..], acc)
      else Decoded(regs[2..], config[1..], acc[ColumnName(config[0].name) := DecodeAs(kind, regs[..2])])
  }

  /** The column names of the parameters of a supported type. */
  function SupportedColumns(config: seq<ParamSpec>): set<string> {
    set j | 0 <= j < |config| && KindOf(config[j].typeName) != NoKind :: ColumnName(config[j].name)
  }

  /** The supported columns, with the first parameter taken apart from the rest. */
  lemma SupportedColumnsCons(config: seq<ParamSpec>)
    requires config != []
    ensures SupportedColumns(config) ==
      (if KindOf(config[0].typeName) != NoKind then {ColumnName(config[0].name)} else {}) + SupportedColumns(config[1..])
  {
    var tail := config[1..];
    assert forall j :: 0 <= j < |tail| ==> tail[j] == config[j + 1];
    forall c | c in SupportedColumns(config)
      ensures c in (if KindOf(config[0].typeName) != NoKind then {ColumnName(config[0].name)} else {}) + SupportedColumns(tail)
    {
      var j :| 0 <= j < |config| && KindOf(config[j].typeName) != NoKind && c == ColumnName(config[j].name);
      if j > 0 {
        assert tail[j - 1] == config[j];
      }
    }
  }

  /** The decoded columns are exactly those of the parameters of a supported type. */
  lemma {:induction false} DecodedKeys(regs: seq<Word>, config: seq<ParamSpec>, acc: map<string, Value>)
    requires 2 * |config| <= |regs|
    ensures Decoded(regs, config, acc).Keys == acc.Keys + SupportedColumns(config)
    decreases |config|
  {
    if config != [] {
      var kind := KindOf(config[0].typeName);
      SupportedColumnsCons(config);
      if kind == NoKind {
        DecodedKeys(regs, config[1..], acc);
      } else {
        DecodedKeys(regs[2..], config[1..], acc[ColumnName(config[0].name) := DecodeAs(kind, regs[..2])]);
      }
    }
  }

  /** No configured parameter has the column name `c`. */
  predicate NotAColumn(config: seq<ParamSpec>, c: string) {
    forall j :: 0 <= j < |config| ==> ColumnName(config[j].name) != c
  }

  /** The decoder leaves an entry that is no parameter's column as it was. */
  lemma {:induction false} DecodedKeeps(regs: seq<Word>, config: seq<ParamSpec>, acc: map<string, Value>, c: string)
    requires 2 * |config| <= |regs| && c in acc && NotAColumn(config, c)
    ensures c in Decoded(regs, config, acc) && Decoded(regs, config, acc)[c] == acc[c]
    decreases |config|
  {
    if config != [] {
      var kind := KindOf(config[0].typeName);
      var tail := config[1..];
      assert ColumnName(config[0].name) != c;
      assert NotAColumn(tail, c) by {
        forall j | 0 <= j < |tail| ensures ColumnName(tail[j].name) != c {
          assert tail[j] == config[j + 1];
        }
      }
      if kind == NoKind {
        DecodedKeeps(regs, tail, acc, c);
      } else {
        DecodedKeeps(regs[2..], tail, acc[ColumnName(config[0].name) := DecodeAs(kind, regs[..2])], c);
      }
    }
  }

  /** One turn of the decoder on a parameter of a supported type. */
  lemma DecodedStep(regs: seq<Word>, config: seq<ParamSpec>, acc: map<string, Value>)
    requires config != [] && 2 * |config| <= |regs| && Supported(config)
    ensures Decoded(regs, config, acc) == Decoded(regs[2..], config[1..],
      acc[ColumnName(config[0].name) := DecodeAs(KindOf(config[0].typeName), regs[..2])])
  {
    assert KindOf(config[0].typeName) != NoKind;
  }

  /** No parameter after k shares parameter k's column. */
  predicate LastOfColumn(config: seq<ParamSpec>, k: nat)
    requires k < |config|
  {
    forall j :: k < j < |config| ==> ColumnName(config[j].name) != ColumnName(config[k].name)
  }

  /** What the configuration's tail inherits from it. */
  lemma TailKeeps(config: seq<ParamSpec>, k: nat)
    requires k < |config| && Supported(config) && LastOfColumn(config, k)
    ensures Supported(config[1..])
    ensures k == 0 ==> NotAColumn(config[1..], ColumnName(config[0].name))
    ensures k > 0 ==> LastOfColumn(config[1..], k - 1)
  {
    var tail := config[1..];
    assert forall j :: 0 <= j < |tail| ==> tail[j] == config[j + 1];
  }

  /** Register pair k - 1 after the first two registers is register pair k. */
  lemma PairShift(regs: seq<Word>, k: nat)
    requires 0 < k && 2 * k + 2 <= |regs|
    ensures regs[2..][2 * (k - 1)..2 * (k - 1) + 2] == regs[2 * k..2 * k + 2]
  {
  }

  /**
   * With every type supported, the column of parameter k, when no later
   * parameter shares it, holds the value decoded from registers 2k and 2k + 1.
   */
  lemma {:induction false} DecodedColumn(regs: seq<Word>, config: seq<ParamSpec>, acc: map<string, Value>, k: nat)
    requires 2 * |config| <= |regs| && Supported(config) && k < |config| && LastOfColumn(config, k)
    ensures ColumnName(config[k].name) in Decoded(regs, config, acc)
    ensures Decoded(regs, config, acc)[ColumnName(config[k].name)] == DecodeAs(KindOf(config[k].typeName), regs[2 * k..2 * k + 2])
    decreases |config|
  {
    var kind := KindOf(config[0].typeName);
    var tail := config[1..];
    var col := ColumnName(config[0].name);
    var acc' := acc[col := DecodeAs(kind, regs[..2])];
    DecodedStep(regs, config, acc);
    TailKeeps(config, k);
    if k == 0 {
      DecodedKeeps(regs[2..], tail, acc', col);
      assert regs[..2] == regs[0..2];
    } else {
      assert tail[k - 1] == config[k];
      PairShift(regs, k);
      DecodedColumn(regs[2..], tail, acc', k - 1);
    }
  }

  /** Every column, at once. */
  lemma DecodedValues(regs: seq<Word>, config: seq<ParamSpec>, acc: map<string, Value>)
    requires 2 * |config| <= |regs| && DistinctColumns(config) && Supported(config)
    ensures forall k :: 0 <= k < |config| ==>
      ColumnName(config[k].name) in Decoded(regs, config, acc) &&
      Decoded(regs, config, acc)[ColumnName(config[k].name)] == DecodeAs(KindOf(config[k].typeName), regs[2 * k..2 * k + 2])
  {
    forall k | 0 <= k < |config|
      ensures ColumnName(config[k].name) in Decoded(regs, config, acc)
      ensures Decoded(regs, config, acc)[ColumnName(config[k].name)] == DecodeAs(KindOf(config[k].typeName), regs[2 * k..2 * k + 2])
    {
      assert LastOfColumn(config, k);
      DecodedColumn(regs, config, acc, k);
    }
  }

  /**
   * `[decoded[col] for col in columns]`; None stands for the KeyError of a
   * column nothing was decoded into.
   */
  function RecordValues(decoded: map<string, Value>, columns: seq<string>): (r: Option<seq<Value>>)
    ensures r.Some? <==> forall k :: 0 <= k < |columns| ==> columns[k] in decoded
    ensures r.Some? ==> |r.value| == |columns| && forall k :: 0 <= k < |columns| ==> r.value[k] == decoded[columns[k]]
  {
    if forall k :: 0 <= k < |columns| ==> columns[k] in decoded then
      Some(seq(|columns|, k requires 0 <= k < |columns| => decoded[columns[k]]))
    else None
  }

  /**
   * A parameter of an unsupported type whose column no supported parameter
   * shares leaves its column undecoded, so building the record fails.
   */
  lemma UnsupportedColumnRaises(regs: seq<Word>, config: seq<ParamSpec>, k: nat)
    requires 2 * |config| <= |regs| && k < |config| && KindOf(config[k].typeName) == NoKind
    requires forall j :: 0 <= j < |config| && KindOf(config[j].typeName) != NoKind ==>
      ColumnName(config[j].name) != ColumnName(config[k].name)
    ensures RecordValues(Decoded(regs, config, map[]), Columns(config)).None?
  {
    DecodedKeys(regs, config, map[]);
    assert Columns(config)[k] == ColumnName(config[k].name);
  }

  /**
   * The flagship round trip: when the configuration has distinct column
   * names and supported types only, and a data point carries every
   * parameter with its ints inside 32 bits, the registers the legacy gateway
   * packs decode into exactly the data point's values, column by column.
   */
  lemma PayloadRoundTrip(config: seq<ParamSpec>, ps: seq<Param>)
    requires DistinctColumns(config) && Supported(config) && AllCarried(config, ps)
    requires BlockPayload(config, Some(ps)).Built?
    ensures var ws := BlockPayload(config, Some(ps)).ws;
      2 * |config| <= |ws| &&
      RecordValues(Decoded(ws, config, map[]), Columns(config))
        == Some(seq(|config|, k requires 0 <= k < |config| =>
             Expected(KindOf(config[k].typeName), Lookup(ps, config[k].name).value)))
  {
    var ws := BlockPayload(config, Some(ps)).ws;
    PayloadFills(config, ps);
    var decoded := Decoded(ws, config, map[]);
    var columns := Columns(config);
    var expected := seq(|config|, k requires 0 <= k < |config| =>
      Expected(KindOf(config[k].typeName), Lookup(ps, config[k].name).value));
    forall k | 0 <= k < |config|
      ensures columns[k] in decoded && decoded[columns[k]] == expected[k]
    {
      ColumnRoundTrip(config, ps, k);
    }
    var rv := RecordValues(decoded, columns);
    assert rv.Some?;
    assert rv.value == expected;
  }

  /** Under the round trip's conditions the payload fills two registers per parameter. */
  lemma PayloadFills(config: seq<ParamSpec>, ps: seq<Param>)
    requires DistinctColumns(config) && Supported(config) && AllCarried(config, ps)
    requires BlockPayload(config, Some(ps)).Built?
    ensures |BlockPayload(config, Some(ps)).ws| == 2 * |config|
  {
    TypeMapNamed(config);
    TypeMapOfDistinct(config);
    PayloadLayout(config, TypeMap(config), ps);
  }

  /** The round trip of one column k. */
  lemma ColumnRoundTrip(config: seq<ParamSpec>, ps: seq<Param>, k: nat)
    requires DistinctColumns(config) && Supported(config) && AllCarried(config, ps)
    requires BlockPayload(config, Some(ps)).Built? && k < |config|
    ensures var ws := BlockPayload(config, Some(ps)).ws;
      2 * |config| <= |ws| &&
      ColumnName(config[k].name) in Decoded(ws, config, map[]) &&
      Decoded(ws, config, map[])[ColumnName(config[k].name)]
        == Expected(KindOf(config[k].typeName), Lookup(ps, config[k].name).value)
  {
    var types := TypeMap(config);
    var ws := BlockPayload(config, Some(ps)).ws;
    TypeMapNamed(config);
    TypeMapOfDistinct(config);
    PayloadLayout(config, types, ps);
    assert LastOfColumn(config, k);
    DecodedColumn(ws, config, map[], k);
    var v := Lookup(ps, config[k].name).value;
    assert types[config[k].name] == config[k].typeName;
    assert PackValue(config[k].typeName, v) == Some(ws[2 * k..2 * k + 2]);
    ValueRoundTrip(config[k].typeName, v);
  }

  /** With distinct names, every name's configured type is its own. */
  lemma TypeMapOfDistinct(config: seq<ParamSpec>)
    requires DistinctColumns(config)
    ensures forall j :: 0 <= j < |config| ==> config[j].name in TypeMap(config) && TypeMap(config)[config[j].name] == config[j].typeName
  {
    forall j | 0 <= j < |config|
      ensures config[j].name in TypeMap(config) && TypeMap(config)[config[j].name] == config[j].typeName
    {
      forall k | j < k < |config|
        ensures config[k].name != config[j].name
      {
        assert ColumnName(config[j].name) != ColumnName(config[k].name);
      }
      TypeMapLastWins(config, j);
    }
  }

  /** How the Modbus read of one wellhead fails, when it does: an error reply, or a lost connection that raises. */
  datatype ReadFault = ErrorReply | ConnectionLost

  /** One row for the readings table. */
  datatype Record = Record(timestamp: string, wellheadId: string, values: seq<Value>)

  /** A poll cycle's records, or an exception that ends the connection. */
  datatype CycleResult = Batch(records: seq<Record>) | Raised

  /** The result of reading one wellhead: skipped on an error reply, failed by an exception, or its values. */
  datatype Reading = Skipped | Failed | Read(values: seq<Value>)

  /**
   * Wellhead i of a cycle whose reads see the block `regs`; `faults` says
   * which reads fail for reasons other than the request itself.
   */
  function ReadWellhead(regs: seq<Word>, config: seq<ParamSpec>, faults: map<nat, ReadFault>, i: nat): (r: Reading)
    ensures r.Read? ==> |r.values| == |config|
  {
    if i in faults && faults[i] == ConnectionLost then Failed
    else
      var reply := if i in faults then None else ReadReply(regs, i * REGISTERS_PER_WELLHEAD, 2 * |config|);
      match reply
      case None => Skipped
      case Some(ws) =>
        match RecordValues(Decoded(ws, config, map[]), Columns(config))
        case None => Failed
        case Some(vs) => Read(vs)
  }

  /** The readings of the five wellheads of one cycle, in index order. */
  function Readings(regs: seq<Word>, config: seq<ParamSpec>, faults: map<nat, ReadFault>): seq<Reading> {
    seq(NUMBER_OF_WELLHEADS, i requires 0 <= i < NUMBER_OF_WELLHEADS => ReadWellhead(regs, config, faults, i))
  }

  /** The ids of the five wellheads, in index order. */
  function WellheadIds(): seq<string> {
    seq(NUMBER_OF_WELLHEADS, i requires 0 <= i < NUMBER_OF_WELLHEADS => WellheadId(i))
  }

  /**
   * A poll cycle after its first n readings, reading i belonging to the
   * wellhead `ids[i]`: the records gathered so far, or the exception that
   * ended it.
   */
  function Collect(readings: seq<Reading>, ids: seq<string>, timestamp: string, n: nat): CycleResult
    requires n <= |readings| && n <= |ids|
  {
    if n == 0 then Batch([])
    else
      match Collect(readings, ids, timestamp, n - 1)
      case Raised => Raised
      case Batch(acc) =>
        match readings[n - 1]
        case Failed => Raised
        case Skipped => Batch(acc)
        case Read(vs) => Batch(acc + [Record(timestamp, ids[n - 1], vs)])
  }

  function Cycle(regs: seq<Word>, config: seq<ParamSpec>, faults: map<nat, ReadFault>, timestamp: string): CycleResult {
    Collect(Readings(regs, config, faults), WellheadIds(), timestamp, NUMBER_OF_WELLHEADS)
  }

  /** Once a cycle has raised, it stays raised. */
  lemma {:induction false} RaisedPersists(readings: seq<Reading>, ids: seq<string>, timestamp: string, n: nat, m: nat)
    requires n <= m <= |readings| && m <= |ids| && Collect(readings, ids, timestamp, n).Raised?
    ensures Collect(readings, ids, timestamp, m).Raised?
    decreases m - n
  {
    if n < m {
      RaisedPersists(readings, ids, timestamp, n, m - 1);
    }
  }

  /** A record of wellhead i carrying reading i's values. */
  predicate RecordOf(readings: seq<Reading>, ids: seq<string>, timestamp: string, i: nat, rec: Record)
    requires i < |readings| && i < |ids|
  {
    readings[i].Read? && rec == Record(timestamp, ids[i], readings[i].values)
  }

  /** The cycle raises exactly when one of its first n readings failed. */
  lemma {:induction false} CollectRaises(readings: seq<Reading>, ids: seq<string>, timestamp: string, n: nat)
    requires n <= |readings| && n <= |ids|
    ensures Collect(readings, ids, timestamp, n).Raised? <==> exists i :: 0 <= i < n && readings[i].Failed?
  {
    if n > 0 {
      CollectRaises(readings, ids, timestamp, n - 1);
      if readings[n - 1].Failed? {
        assert 0 <= n - 1 < n && readings[n - 1].Failed?;
      }
    }
  }

  /** `rec` is the record of one of the first n readings. */
  predicate FromRead(readings: seq<Reading>, ids: seq<string>, timestamp: string, n: nat, rec: Record)
    requires n <= |readings| && n <= |ids|
  {
    exists i :: 0 <= i < n && RecordOf(readings, ids, timestamp, i, rec)
  }

  /** Reading i has its record among `records`. */
  predicate HasRecord(readings: seq<Reading>, ids: seq<string>, timestamp: string, i: nat, records: seq<Record>)
    requires i < |readings| && i < |ids|
  {
    exists k :: 0 <= k < |records| && RecordOf(readings, ids, timestamp, i, records[k])
  }

  /** Every record of the first n readings comes from one of them, so there are at most n. */
  lemma {:induction false} RecordsFromReads(readings: seq<Reading>, ids: seq<string>, timestamp: string, n: nat)
    requires n <= |readings| && n <= |ids| && Collect(readings, ids, timestamp, n).Batch?
    ensures |Collect(readings, ids, timestamp, n).records| <= n
    ensures forall k :: 0 <= k < |Collect(readings, ids, timestamp, n).records| ==>
      FromRead(readings, ids, timestamp, n, Collect(readings, ids, timestamp, n).records[k])
  {
    if n > 0 {
      var prev := Collect(readings, ids, timestamp, n - 1);
      assert prev.Batch?;
      RecordsFromReads(readings, ids, timestamp, n - 1);
      var acc := prev.records;
      var records := Collect(readings, ids, timestamp, n).records;
      if readings[n - 1].Read? {
        assert records == acc + [Record(timestamp, ids[n - 1], readings[n - 1].values)];
        forall k | 0 <= k < |records|
          ensures FromRead(readings, ids, timestamp, n, records[k])
        {
          if k < |acc| {
            var i :| 0 <= i < n - 1 && RecordOf(readings, ids, timestamp, i, acc[k]);
            assert records[k] == acc[k];
            assert RecordOf(readings, ids, timestamp, i, records[k]);
          } else {
            assert RecordOf(readings, ids, timestamp, n - 1, records[k]);
          }
        }
      } else {
        assert records == acc;
        forall k | 0 <= k < |records|
          ensures FromRead(readings, ids, timestamp, n, records[k])
        {
          var i :| 0 <= i < n - 1 && RecordOf(readings, ids, timestamp, i, acc[k]);
        }
      }
    }
  }

  /** Every successful read among the first n readings has its record. */
  lemma {:induction false} ReadsRecorded(readings: seq<Reading>, ids: seq<string>, timestamp: string, n: nat)
    requires n <= |readings| && n <= |ids| && Collect(readings, ids, timestamp, n).Batch?
    ensures forall i :: 0 <= i < n && readings[i].Read? ==>
      HasRecord(readings, ids, timestamp, i, Collect(readings, ids, timestamp, n).records)
  {
    if n > 0 {
      var prev := Collect(readings, ids, timestamp, n - 1);
      assert prev.Batch?;
      ReadsRecorded(readings, ids, timestamp, n - 1);
      var acc := prev.records;
      var records := Collect(readings, ids, timestamp, n).records;
      if readings[n - 1].Read? {
        assert records == acc + [Record(timestamp, ids[n - 1], readings[n - 1].values)];
        forall i | 0 <= i < n && readings[i].Read?
          ensures HasRecord(readings, ids, timestamp, i, records)
        {
          if i < n - 1 {
            var k :| 0 <= k < |acc| && RecordOf(readings, ids, timestamp, i, acc[k]);
            assert records[k] == acc[k];
            assert RecordOf(readings, ids, timestamp, i, records[k]);
          } else {
            assert RecordOf(readings, ids, timestamp, i, records[|acc|]);
          }
        }
      } else {
        assert records == acc;
        forall i | 0 <= i < n && readings[i].Read?
          ensures HasRecord(readings, ids, timestamp, i, records)
        {
          assert i < n - 1;
        }
      }
    }
  }

  /** One poll cycle raises exactly when some wellhead's read raises or its record cannot be built. */
  lemma CycleRaises(regs: seq<Word>, config: seq<ParamSpec>, faults: map<nat, ReadFault>, timestamp: string)
    ensures Cycle(regs, config, faults, timestamp).Raised? <==>
      exists i :: 0 <= i < NUMBER_OF_WELLHEADS && ReadWellhead(regs, config, faults, i).Failed?
  {
    var readings := Readings(regs, config, faults);
    assert forall i :: 0 <= i < NUMBER_OF_WELLHEADS ==> readings[i] == ReadWellhead(regs, config, faults, i);
    CollectRaises(readings, WellheadIds(), timestamp, NUMBER_OF_WELLHEADS);
  }

  /**
   * Each record of a cycle's batch is, under the cycle's one timestamp, the
   * name and values of a wellhead whose read succeeded; so there are at
   * most five.
   */
  lemma CycleRecordsFromReads(regs: seq<Word>, config: seq<ParamSpec>, faults: map<nat, ReadFault>, timestamp: string)
    requires Cycle(regs, config, faults, timestamp).Batch?
    ensures var records := Cycle(regs, config, faults, timestamp).records;
      |records| <= NUMBER_OF_WELLHEADS &&
      forall k :: 0 <= k < |records| ==>
        exists i :: 0 <= i < NUMBER_OF_WELLHEADS &&
          ReadWellhead(regs, config, faults, i).Read? &&
          records[k] == Record(timestamp, WellheadId(i), ReadWellhead(regs, config, faults, i).values)
  {
    var readings := Readings(regs, config, faults);
    var ids := WellheadIds();
    var records := Cycle(regs, config, faults, timestamp).records;
    RecordsFromReads(readings, ids, timestamp, NUMBER_OF_WELLHEADS);
    forall k | 0 <= k < |records|
      ensures exists i :: 0 <= i < NUMBER_OF_WELLHEADS &&
                ReadWellhead(regs, config, faults, i).Read? &&
                records[k] == Record(timestamp, WellheadId(i), ReadWellhead(regs, config, faults, i).values)
    {
      var i :| 0 <= i < NUMBER_OF_WELLHEADS && RecordOf(readings, ids, timestamp, i, records[k]);
      assert readings[i] == ReadWellhead(regs, config, faults, i) && ids[i] == WellheadId(i);
    }
  }

  /** Among the first n readings, each name belongs to one wellhead. */
  predicate DistinctIds(ids: seq<string>, n: nat)
    requires n <= |ids|
  {
    forall a, b :: 0 <= a < b < n ==> ids[a] != ids[b]
  }

  lemma WellheadIdsDistinct()
    ensures DistinctIds(WellheadIds(), NUMBER_OF_WELLHEADS)
  {
    var ids := WellheadIds();
    forall a, b | 0 <= a < b < NUMBER_OF_WELLHEADS
      ensures ids[a] != ids[b]
    {
      WellheadIdInjective(a, b);
    }
  }

  /** When names are distinct, reading i succeeded exactly when a record carries its name. */
  lemma RecordedIff(readings: seq<Reading>, ids: seq<string>, timestamp: string, n: nat, i: nat)
    requires n <= |readings| && n <= |ids| && i < n && DistinctIds(ids, n)
    requires Collect(readings, ids, timestamp, n).Batch?
    ensures var records := Collect(readings, ids, timestamp, n).records;
      readings[i].Read? <==> exists k :: 0 <= k < |records| && records[k].wellheadId == ids[i]
  {
    var records := Collect(readings, ids, timestamp, n).records;
    if readings[i].Read? {
      ReadsRecorded(readings, ids, timestamp, n);
      var k :| 0 <= k < |records| && RecordOf(readings, ids, timestamp, i, records[k]);
      assert records[k].wellheadId == ids[i];
    }
    if exists k :: 0 <= k < |records| && records[k].wellheadId == ids[i] {
      var k :| 0 <= k < |records| && records[k].wellheadId == ids[i];
      RecordsFromReads(readings, ids, timestamp, n);
      var j :| 0 <= j < n && RecordOf(readings, ids, timestamp, j, records[k]);
      assert ids[j] == ids[i];
      assert i == j;
    }
  }

  /**
   * A wellhead has a record in a cycle's batch exactly when its read
   * succeeded: skipped wellheads leave no record.
   */
  lemma CycleReadsRecorded(regs: seq<Word>, config: seq<ParamSpec>, faults: map<nat, ReadFault>, timestamp: string, i: nat)
    requires Cycle(regs, config, faults, timestamp).Batch? && i < NUMBER_OF_WELLHEADS
    ensures var records := Cycle(regs, config, faults, timestamp).records;
      ReadWellhead(regs, config, faults, i).Read? <==>
      exists k :: 0 <= k < |records| && records[k].wellheadId == WellheadId(i)
  {
    var readings := Readings(regs, config, faults);
    var ids := WellheadIds();
    assert readings[i] == ReadWellhead(regs, config, faults, i) && ids[i] == WellheadId(i);
    WellheadIdsDistinct();
    RecordedIff(readings, ids, timestamp, NUMBER_OF_WELLHEADS, i);
  }

  /**
   * After the legacy gateway has written wellhead i's data point, the
   * service's request for wellhead i's window is answered with exactly the
   * payload the gateway packed.
   */
  lemma ReplyIsPayload(regs: seq<Word>, config: seq<ParamSpec>, dp: DataPoint, i: nat)
    requires |regs| == STORE_SIZE && 0 < |config| <= REGISTERS_PER_WELLHEAD / 2
    requires DistinctColumns(config) && Supported(config)
    requires i < NUMBER_OF_WELLHEADS && dp.wellheadId == Some(WellheadId(i))
    requires dp.parameters.Some? && AllCarried(config, dp.parameters.value)
    requires BlockPayload(config, dp.parameters).Built?
    ensures ReadReply(PointEffect(regs, config, dp).regs, i * REGISTERS_PER_WELLHEAD, 2 * |config|)
      == Some(BlockPayload(config, dp.parameters).ws)
  {
    WellheadIdIndex(i);
    PayloadFills(config, dp.parameters.value);
    var ws := BlockPayload(config, dp.parameters).ws;
    assert PointEffect(regs, config, dp).regs == Overwrite(regs, i * REGISTERS_PER_WELLHEAD, ws);
    ReadAfterWrite(regs, i * REGISTERS_PER_WELLHEAD, ws);
  }

  /**
   * End to end: when the legacy gateway has written wellhead i's data point
   * (one of the five the service polls), the service's read of wellhead i in
   * a cycle without read faults yields exactly that data point's values.
   */
  lemma GatewayToRecord(regs: seq<Word>, config: seq<ParamSpec>, dp: DataPoint, i: nat, faults: map<nat, ReadFault>)
    requires |regs| == STORE_SIZE && 0 < |config| <= REGISTERS_PER_WELLHEAD / 2
    requires DistinctColumns(config) && Supported(config)
    requires i < NUMBER_OF_WELLHEADS && i !in faults
    requires dp.wellheadId == Some(WellheadId(i)) && dp.parameters.Some? && AllCarried(config, dp.parameters.value)
    requires BlockPayload(config, dp.parameters).Built?
    ensures ReadWellhead(PointEffect(regs, config, dp).regs, config, faults, i)
      == Read(seq(|config|, k requires 0 <= k < |config| =>
           Expected(KindOf(config[k].typeName), Lookup(dp.parameters.value, config[k].name).value)))
  {
    ReplyIsPayload(regs, config, dp, i);
    PayloadRoundTrip(config, dp.parameters.value);
  }

  /** How one poll cycle goes in the driver's world: the block its reads see and what the environment does. */
  datatype CycleInput = CycleInput(regs: seq<Word>, timestamp: string, faults: map<nat, ReadFault>,
                                   elapsedMs: nat, storageFails: bool)

  /** One pass of the outer loop: whether connecting succeeds, then the poll cycles it runs. */
  datatype Attempt = Attempt(connects: bool, cycles: seq<CycleInput>)

  /** What the service does that can be observed: store a batch, sleep, or close its connections. */
  datatype Action = Commit(records: seq<Record>) | Sleep(ms: nat) | Close

  /** The actions of a stretch of the loop, and whether it ended without an exception. */
  datatype Segment = Segment(actions: seq<Action>, ok: bool)

  /**
   * What one cycle does once its result is known: commit the batch only
   * when it holds records, then sleep for what is left of the 30-second
   * interval, if anything; an exception or a failed commit ends the cycle.
   */
  function CycleOutcome(r: CycleResult, c: CycleInput): Segment {
    if r.Raised? then Segment([], false)
    else if |r.records| > 0 && c.storageFails then Segment([], false)
    else
      Segment((if |r.records| > 0 then [Commit(r.records)] else [])
              + (if c.elapsedMs < POLL_INTERVAL_MS then [Sleep(POLL_INTERVAL_MS - c.elapsedMs)] else []), true)
  }

  /** One poll cycle of the driver. */
  function CycleActions(config: seq<ParamSpec>, c: CycleInput): Segment {
    CycleOutcome(Cycle(c.regs, config, c.faults, c.timestamp), c)
  }

  /** The cycles of one connection, taken in order until one fails. */
  function CyclesActions(config: seq<ParamSpec>, cycles: seq<CycleInput>): Segment
    decreases |cycles|
  {
    if cycles == [] then Segment([], true)
    else
      var before := CyclesActions(config, cycles[..|cycles| - 1]);
      if !before.ok then before
      else
        var s := CycleActions(config, cycles[|cycles| - 1]);
        Segment(before.actions + s.actions, s.ok)
  }

  /** Cycles after a failed one add nothing. */
  lemma {:induction false} FailureEndsCycles(config: seq<ParamSpec>, cycles: seq<CycleInput>, n: nat)
    requires n <= |cycles| && !CyclesActions(config, cycles[..n]).ok
    ensures CyclesActions(config, cycles) == CyclesActions(config, cycles[..n])
    decreases |cycles| - n
  {
    if n < |cycles| {
      var init := cycles[..|cycles| - 1];
      assert init[..n] == cycles[..n];
      FailureEndsCycles(config, init, n);
    } else {
      assert cycles[..n] == cycles;
    }
  }

  function AttemptActions(config: seq<ParamSpec>, a: Attempt): Segment {
    if a.connects then CyclesActions(config, a.cycles) else Segment([], false)
  }

  /** What each modelled attempt does, in order. */
  function Segments(config: seq<ParamSpec>, attempts: seq<Attempt>): (r: seq<Segment>)
    ensures |r| == |attempts| && forall i :: 0 <= i < |attempts| ==> r[i] == AttemptActions(config, attempts[i])
  {
    seq(|attempts|, i requires 0 <= i < |attempts| => AttemptActions(config, attempts[i]))
  }

  /**
   * The outer loop over the attempts' segments: a segment that fails is
   * followed by closing the connections and a ten-second sleep before the
   * next attempt; one that runs out of modelled cycles without failing is
   * where the input ends.
   */
  function Service(segments: seq<Segment>): seq<Action>
    decreases |segments|
  {
    if segments == [] then []
    else if segments[0].ok then segments[0].actions
    else segments[0].actions + [Close, Sleep(RECONNECT_DELAY_MS)] + Service(segments[1..])
  }

  /** The whole service over the modelled attempts. */
  function ServiceActions(config: seq<ParamSpec>, attempts: seq<Attempt>): seq<Action> {
    Service(Segments(config, attempts))
  }

  /** A batch is stored only when it is not empty, holds at most five records and carries one timestamp; every sleep lasts between 0 and 30 seconds. */
  predicate WellFormed(a: Action) {
    match a
    case Commit(records) =>
      0 < |records| <= NUMBER_OF_WELLHEADS &&
      forall k :: 0 <= k < |records| ==> records[k].timestamp == records[0].timestamp
    case Sleep(ms) => 0 < ms <= POLL_INTERVAL_MS
    case Close => true
  }

  predicate AllWellFormed(actions: seq<Action>) {
    forall k :: 0 <= k < |actions| ==> WellFormed(actions[k])
  }

  lemma CycleWellFormed(config: seq<ParamSpec>, c: CycleInput)
    ensures AllWellFormed(CycleActions(config, c).actions)
  {
    if Cycle(c.regs, config, c.faults, c.timestamp).Batch? {
      CycleRecordsFromReads(c.regs, config, c.faults, c.timestamp);
    }
  }

  lemma {:induction false} CyclesWellFormed(config: seq<ParamSpec>, cycles: seq<CycleInput>)
    ensures AllWellFormed(CyclesActions(config, cycles).actions)
    decreases |cycles|
  {
    if cycles != [] {
      CyclesWellFormed(config, cycles[..|cycles| - 1]);
      CycleWellFormed(config, cycles[|cycles| - 1]);
    }
  }

  lemma {:induction false} ServiceOfWellFormed(segments: seq<Segment>)
    requires forall i :: 0 <= i < |segments| ==> AllWellFormed(segments[i].actions)
    ensures AllWellFormed(Service(segments))
    decreases |segments|
  {
    if segments != [] && !segments[0].ok {
      ServiceOfWellFormed(segments[1..]);
    }
  }

  /** Every action of the service is well formed. */
  lemma ServiceWellFormed(config: seq<ParamSpec>, attempts: seq<Attempt>)
    ensures AllWellFormed(ServiceActions(config, attempts))
  {
    var segments := Segments(config, attempts);
    forall i | 0 <= i < |segments|
      ensures AllWellFormed(segments[i].actions)
    {
      if attempts[i].connects {
        CyclesWellFormed(config, attempts[i].cycles);
      }
    }
    ServiceOfWellFormed(segments);
  }

  /** The cycles of a connection never close it: only the outer loop does. */
  predicate NoClose(actions: seq<Action>) {
    forall k :: 0 <= k < |actions| ==> actions[k] != Close
  }

  /** Every Close is followed at once by the ten-second back-off. */
  predicate BacksOff(actions: seq<Action>) {
    forall k :: 0 <= k < |actions| && actions[k] == Close ==> k + 1 < |actions| && actions[k + 1] == Sleep(RECONNECT_DELAY_MS)
  }

  lemma {:induction false} CyclesNoClose(config: seq<ParamSpec>, cycles: seq<CycleInput>)
    ensures NoClose(CyclesActions(config, cycles).actions)
    decreases |cycles|
  {
    if cycles != [] {
      CyclesNoClose(config, cycles[..|cycles| - 1]);
    }
  }

  lemma {:induction false} ServiceOfBacksOff(segments: seq<Segment>)
    requires forall i :: 0 <= i < |segments| ==> NoClose(segments[i].actions)
    ensures BacksOff(Service(segments))
    decreases |segments|
  {
    if segments != [] && !segments[0].ok {
      ServiceOfBacksOff(segments[1..]);
      var head := segments[0].actions;
      var rest := Service(segments[1..]);
      var all := head + [Close, Sleep(RECONNECT_DELAY_MS)] + rest;
      forall k | 0 <= k < |all| && all[k] == Close
        ensures k + 1 < |all| && all[k + 1] == Sleep(RECONNECT_DELAY_MS)
      {
        if k > |head| + 1 {
          assert rest[k - |head| - 2] == Close;
          assert all[k + 1] == rest[k + 1 - |head| - 2];
        }
      }
    }
  }

  /** The outer loop backs off ten seconds after each time it closes the connections. */
  lemma ServiceBacksOff(config: seq<ParamSpec>, attempts: seq<Attempt>)
    ensures BacksOff(ServiceActions(config, attempts))
  {
    var segments := Segments(config, attempts);
    forall i | 0 <= i < |segments|
      ensures NoClose(segments[i].actions)
    {
      if attempts[i].connects {
        CyclesNoClose(config, attempts[i].cycles);
      }
    }
    ServiceOfBacksOff(segments);
  }

  /** One turn of the decoder with its cursor at register `pos` and parameter j. */
  lemma DecodedAt(regs: seq<Word>, config: seq<ParamSpec>, acc: map<string, Value>, pos: nat, j: nat)
    requires j < |config| && pos + 2 * (|config| - j) <= |regs|
    ensures KindOf(config[j].typeName) == NoKind ==>
      Decoded(regs[pos..], config[j..], acc) == Decoded(regs[pos..], config[j + 1..], acc)
    ensures KindOf(config[j].typeName) != NoKind ==>
      Decoded(regs[pos..], config[j..], acc) ==
        Decoded(regs[pos + 2..], config[j + 1..], acc[ColumnName(config[j].name) := DecodeAs(KindOf(config[j].typeName), regs[pos..pos + 2])])
  {
    assert config[j..][0] == config[j] && config[j..][1..] == config[j + 1..];
    assert regs[pos..][..2] == regs[pos..pos + 2] && regs[pos..][2..] == regs[pos + 2..];
  }

  /** The decoder loop: a cursor into the registers moves by two for each supported parameter. */
  method DecodeBlock(regs: seq<Word>, config: seq<ParamSpec>) returns (decoded: map<string, Value>)
    requires 2 * |config| <= |regs|
    ensures decoded == Decoded(regs, config, map[])
  {
    decoded := map[];
    var pos := 0;
    for j := 0 to |config|
      invariant pos <= 2 * j && 2 * |config| <= |regs|
      invariant Decoded(regs, config, map[]) == Decoded(regs[pos..], config[j..], decoded)
    {
      DecodedAt(regs, config, decoded, pos, j);
      var kind := KindOf(config[j].typeName);
      if kind != NoKind {
        decoded := decoded[ColumnName(config[j].name) := DecodeAs(kind, regs[pos..pos + 2])];
        pos := pos + 2;
      }
    }
  }

  /** One poll cycle over the five wellheads. */
  method PollCycle(regs: seq<Word>, config: seq<ParamSpec>, faults: map<nat, ReadFault>, timestamp: string)
    returns (r: CycleResult)
    ensures r == Cycle(regs, config, faults, timestamp)
  {
    var records: seq<Record> := [];
    ghost var readings := Readings(regs, config, faults);
    ghost var ids := WellheadIds();
    for i := 0 to NUMBER_OF_WELLHEADS
      invariant Collect(readings, ids, timestamp, i) == Batch(records)
    {
      assert readings[i] == ReadWellhead(regs, config, faults, i) && ids[i] == WellheadId(i);
      if i in faults && faults[i] == ConnectionLost {
        RaisedPersists(readings, ids, timestamp, i + 1, NUMBER_OF_WELLHEADS);
        return Raised;
      }
      var reply := if i in faults then None else ReadReply(regs, i * REGISTERS_PER_WELLHEAD, 2 * |config|);
      if reply.Some? {
        var decoded := DecodeBlock(reply.value, config);
        var values := RecordValues(decoded, Columns(config));
        if values.None? {
          RaisedPersists(readings, ids, timestamp, i + 1, NUMBER_OF_WELLHEADS);
          return Raised;
        }
        records := records + [Record(timestamp, WellheadId(i), values.value)];
      }
    }
    return Batch(records);
  }

  /** One more cycle of a connection whose cycles so far all succeeded. */
  lemma CyclesStep(config: seq<ParamSpec>, cycles: seq<CycleInput>, c: nat, actions: seq<Action>)
    requires c < |cycles| && CyclesActions(config, cycles[..c]) == Segment(actions, true)
    ensures var s := CycleActions(config, cycles[c]);
      CyclesActions(config, cycles[..c + 1]) == Segment(actions + s.actions, s.ok)
  {
    assert cycles[..c + 1][..c] == cycles[..c] && cycles[..c + 1][c] == cycles[c];
  }

  /** One cycle of the inner loop: poll, commit a non-empty batch, and sleep out the interval. */
  method RunCycle(config: seq<ParamSpec>, input: CycleInput) returns (s: Segment)
    ensures s == CycleActions(config, input)
  {
    var r := PollCycle(input.regs, config, input.faults, input.timestamp);
    if r.Raised? || (|r.records| > 0 && input.storageFails) {
      return Segment([], false);
    }
    var actions := [];
    if |r.records| > 0 {
      actions := actions + [Commit(r.records)];
    }
    if input.elapsedMs < POLL_INTERVAL_MS {
      actions := actions + [Sleep(POLL_INTERVAL_MS - input.elapsedMs)];
    }
    s := Segment(actions, true);
  }

  /** The inner loop of one connection: poll cycles until one raises. */
  method RunCycles(config: seq<ParamSpec>, cycles: seq<CycleInput>) returns (actions: seq<Action>, ok: bool)
    ensures Segment(actions, ok) == CyclesActions(config, cycles)
  {
    actions := [];
    var c := 0;
    while c < |cycles|
      invariant 0 <= c <= |cycles|
      invariant CyclesActions(config, cycles[..c]) == Segment(actions, true)
    {
      var s := RunCycle(config, cycles[c]);
      CyclesStep(config, cycles, c, actions);
      if !s.ok {
        assert actions + s.actions == actions;
        FailureEndsCycles(config, cycles, c + 1);
        return actions, false;
      }
      actions := actions + s.actions;
      c := c + 1;
    }
    assert cycles[..c] == cycles;
    ok := true;
  }

  /** Service from segment a on, one segment unfolded. */
  lemma ServiceUnfold(segments: seq<Segment>, a: nat)
    requires a < |segments|
    ensures Service(segments[a..]) ==
      if segments[a].ok then segments[a].actions
      else segments[a].actions + [Close, Sleep(RECONNECT_DELAY_MS)] + Service(segments[a + 1..])
  {
    assert segments[a..][0] == segments[a] && segments[a..][1..] == segments[a + 1..];
  }

  lemma Associate<T>(a: seq<T>, b: seq<T>, c: seq<T>, d: seq<T>)
    ensures a + (b + c + d) == a + b + c + d
  {
  }

  /** One step of the outer loop: what segment a adds to the actions before it. */
  lemma ServiceStep(segments: seq<Segment>, a: nat, actions: seq<Action>)
    requires a < |segments| && Service(segments) == actions + Service(segments[a..])
    ensures segments[a].ok ==> Service(segments) == actions + segments[a].actions
    ensures !segments[a].ok ==>
      Service(segments) == actions + segments[a].actions + [Close, Sleep(RECONNECT_DELAY_MS)] + Service(segments[a + 1..])
  {
    ServiceUnfold(segments, a);
    if !segments[a].ok {
      Associate(actions, segments[a].actions, [Close, Sleep(RECONNECT_DELAY_MS)], Service(segments[a + 1..]));
    }
  }

  /** The service's outer loop: connect, run cycles, and on failure close, sleep and reconnect. */
  method Serve(config: seq<ParamSpec>, attempts: seq<Attempt>) returns (actions: seq<Action>)
    ensures actions == ServiceActions(config, attempts)
  {
    ghost var segments := Segments(config, attempts);
    actions := [];
    var a := 0;
    assert segments[0..] == segments;
    while a < |attempts|
      invariant 0 <= a <= |attempts|
      invariant Service(segments) == actions + Service(segments[a..])
    {
      var segment: seq<Action> := [];
      var ok := false;
      if attempts[a].connects {
        segment, ok := RunCycles(config, attempts[a].cycles);
      }
      assert Segment(segment, ok) == segments[a];
      ServiceStep(segments, a, actions);
      if ok {
        return actions + segment;
      }
      actions := actions + segment + [Close, Sleep(RECONNECT_DELAY_MS)];
      a := a + 1;
    }
    assert segments[a..] == [];
  }
}
