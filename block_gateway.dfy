/**
 * The legacy gateway: every wellhead owns a window of 50 holding registers
 * starting at (n - 1) * 50 for wellhead "WH-n", and each data point's present
 * parameters are packed back to back, in configuration order, from the start
 * of its window.
 */
module BlockGateway {
  import opened Wrappers
  import opened Codec
  import opened Telemetry
  import opened Store
  import opened Decimal

  const REGISTERS_PER_WELLHEAD: nat := 50

  /** The server preallocates registers for 20 wellheads. */
  const NUM_WELLHEADS_ALLOC: nat := 20

  const STORE_SIZE: nat := NUM_WELLHEADS_ALLOC * REGISTERS_PER_WELLHEAD

  /**
   * `int(id.split('-')[1]) - 1`, the 0-based wellhead index; None stands for
   * the IndexError or ValueError this raises, which the updater does not catch.
   */
  function WellheadIndex(id: string): Option<int> {
    var pieces := Split(id, '-');
    if |pieces| < 2 then None
    else
      match ParseNat(pieces[1])
      case None => None
      case Some(n) => Some(n - 1)
  }

  function BaseAddress(index: int): int {
    index * REGISTERS_PER_WELLHEAD
  }

  /** How `WellheadIndex` reads a name once its pieces are known. */
  lemma WellheadIndexOfPieces(id: string, prefix: string, digits: string)
    requires Split(id, '-') == [prefix, digits]
    requires |digits| > 0 && AllDigits(digits)
    ensures WellheadIndex(id) == Some(DigitsValue(digits) - 1)
  {
  }

  /** A name of the form `<prefix>-<digits>` names wellhead index (digits - 1). */
  lemma WellheadIndexOfName(prefix: string, digits: string)
    requires '-' !in prefix
    requires |digits| > 0 && AllDigits(digits)
    ensures WellheadIndex(prefix + ['-'] + digits) == Some(DigitsValue(digits) - 1)
  {
    assert forall i :: 0 <= i < |digits| ==> digits[i] != '-';
    SplitOnce(prefix, '-', digits);
    WellheadIndexOfPieces(prefix + ['-'] + digits, prefix, digits);
  }

  /** `{p['name']: p['type'] for p in config}`: a later entry with the same name wins. */
  function TypeMap(config: seq<ParamSpec>): (m: map<string, string>)
    ensures m.Keys == set i | 0 <= i < |config| :: config[i].name
  {
    if config == [] then map[]
    else
      var init := config[..|config| - 1];
      var last := config[|config| - 1];
      var m := TypeMap(init)[last.name := last.typeName];
      assert (set i | 0 <= i < |config| :: config[i].name)
          == (set i | 0 <= i < |init| :: init[i].name) + {last.name};
      m
  }

  /** A parameter whose name no later entry repeats keeps its own type in the map: later entries win. */
  lemma {:induction false} TypeMapLastWins(config: seq<ParamSpec>, j: nat)
    requires j < |config|
    requires forall k :: j < k < |config| ==> config[k].name != config[j].name
    ensures config[j].name in TypeMap(config) && TypeMap(config)[config[j].name] == config[j].typeName
  {
    var n := |config| - 1;
    if j < n {
      var init := config[..n];
      assert init[j] == config[j];
      assert forall k :: j < k < n ==> init[k] == config[k];
      TypeMapLastWins(init, j);
    }
  }

  /** What the payload builder ends with: its words, a KeyError for a missing "parameters", or a packing error. */
  datatype Payload = Built(ws: seq<Word>) | KeyMissing | PackFailed

  function Prepend(ws: seq<Word>, p: Payload): Payload {
    match p
    case Built(rest) => Built(ws + rest)
    case _ => p
  }

  predicate Named(config: seq<ParamSpec>, types: map<string, string>) {
    forall j :: 0 <= j < |config| ==> config[j].name in types
  }

  /** The builder's words for the configured parameters `config`, each present one in turn. */
  function PackFrom(config: seq<ParamSpec>, types: map<string, string>, params: seq<Param>): Payload
    requires Named(config, types)
    decreases |config|
  {
    if config == [] then Built([])
    else
      var v := Lookup(params, config[0].name);
      if v.None? then PackFrom(config[1..], types, params)
      else
        match PackValue(types[config[0].name], v.value)
        case None => PackFailed
        case Some(ws) => Prepend(ws, PackFrom(config[1..], types, params))
  }

  lemma PrependTwice(a: seq<Word>, b: seq<Word>, p: Payload)
    ensures Prepend(a, Prepend(b, p)) == Prepend(a + b, p)
  {
    if p.Built? {
      assert a + (b + p.ws) == (a + b) + p.ws;
    }
  }

  /** One turn of the builder's loop, read off `PackFrom` on the suffix from parameter j. */
  lemma PackFromStep(config: seq<ParamSpec>, types: map<string, string>, ps: seq<Param>, j: nat)
    requires Named(config, types) && j < |config|
    ensures Named(config[j..], types) && Named(config[j + 1..], types)
    ensures var v := Lookup(ps, config[j].name);
      PackFrom(config[j..], types, ps) ==
        if v.None? then PackFrom(config[j + 1..], types, ps)
        else match PackValue(types[config[j].name], v.value)
          case None => PackFailed
          case Some(ws) => Prepend(ws, PackFrom(config[j + 1..], types, ps))
  {
    assert config[j..][0] == config[j] && config[j..][1..] == config[j + 1..];
  }

  lemma TypeMapNamed(config: seq<ParamSpec>)
    ensures Named(config, TypeMap(config))
  {
  }

  /**
   * The payload of one data point; the first turn of the loop reads
   * "parameters". It never holds more than two registers per configured
   * parameter, so with at most 25 parameters it fits one wellhead's window.
   */
  function BlockPayload(config: seq<ParamSpec>, params: Option<seq<Param>>): (r: Payload)
    ensures r.Built? ==> |r.ws| <= 2 * |config|
  {
    TypeMapNamed(config);
    match params
    case None => if config == [] then Built([]) else KeyMissing
    case Some(ps) =>
      PackedLength(config, TypeMap(config), ps);
      PackFrom(config, TypeMap(config), ps)
  }

  function PointEffect(regs: seq<Word>, config: seq<ParamSpec>, dp: DataPoint): Outcome {
    match dp.wellheadId
    case None => Outcome(regs, Discarded)
    case Some(id) =>
      match WellheadIndex(id)
      case None => Outcome(regs, Faulted)
      case Some(index) =>
        match BlockPayload(config, dp.parameters)
        case KeyMissing => Outcome(regs, Discarded)
        case PackFailed => Outcome(regs, Faulted)
        case Built(ws) => Outcome(Overwrite(regs, BaseAddress(index), ws), Completed)
  }

  function PointsEffect(regs: seq<Word>, config: seq<ParamSpec>, pts: seq<DataPoint>): Outcome
    decreases |pts|
  {
    if pts == [] then Outcome(regs, Completed)
    else
      var o := PointEffect(regs, config, pts[0]);
      if o.status != Completed then o else PointsEffect(o.regs, config, pts[1..])
  }

  function FrameEffect(regs: seq<Word>, config: seq<ParamSpec>, line: Option<Frame>): Outcome {
    match line
    case None => Outcome(regs, Discarded)
    case Some(pts) => PointsEffect(regs, config, pts)
  }

  function RunEffect(regs: seq<Word>, config: seq<ParamSpec>, steps: seq<Step>): RunResult
    decreases |steps|
  {
    if steps == [] then RunResult(regs, 0, InputEnded)
    else
      var s := steps[0];
      var o := if s.line.Some? then FrameEffect(regs, config, s.line.value) else Outcome(regs, Completed);
      if o.status == Faulted then RunResult(o.regs, 1, UpdaterFaulted)
      else if s.exited then RunResult(o.regs, 1, SimulatorExited)
      else
        var r := RunEffect(o.regs, config, steps[1..]);
        RunResult(r.regs, r.steps + 1, r.stop)
  }

  /** The number of configured parameters a data point carries whose type takes registers. */
  function PackedCount(config: seq<ParamSpec>, types: map<string, string>, ps: seq<Param>): nat
    requires Named(config, types)
    decreases |config|
  {
    if config == [] then 0
    else
      (if config[0].name in Codes(ps) && KindOf(types[config[0].name]) != NoKind then 1 else 0)
      + PackedCount(config[1..], types, ps)
  }

  /** Two registers per carried parameter of a supported type, and never more parameters than configured. */
  lemma {:induction false} PackedLength(config: seq<ParamSpec>, types: map<string, string>, ps: seq<Param>)
    requires Named(config, types)
    ensures PackedCount(config, types, ps) <= |config|
    ensures PackFrom(config, types, ps).Built? ==>
      |PackFrom(config, types, ps).ws| == 2 * PackedCount(config, types, ps)
  {
    if config != [] {
      PackedLength(config[1..], types, ps);
    }
  }

  /** The configured parameters a data point carries, in configuration order. */
  function Present(config: seq<ParamSpec>, ps: seq<Param>): (r: seq<ParamSpec>)
    ensures forall x :: x in r ==> x in config
    ensures forall j :: 0 <= j < |r| ==> r[j].name in Codes(ps)
    decreases |config|
  {
    if config == [] then []
    else
      var rest := Present(config[1..], ps);
      if config[0].name in Codes(ps) then [config[0]] + rest else rest
  }

  /**
   * A parameter the data point lacks leaves no gap: the payload is the one
   * built from the carried parameters alone, so every later parameter moves
   * up by two registers.
   */
  lemma {:induction false} MissingLeaveNoGap(config: seq<ParamSpec>, types: map<string, string>, ps: seq<Param>)
    requires Named(config, types)
    ensures Named(Present(config, ps), types)
    ensures PackFrom(config, types, ps) == PackFrom(Present(config, ps), types, ps)
  {
    var r := Present(config, ps);
    assert forall j :: 0 <= j < |r| ==> r[j] in config;
    if config != [] {
      MissingLeaveNoGap(config[1..], types, ps);
      var rest := Present(config[1..], ps);
      if config[0].name in Codes(ps) {
        assert r[1..] == rest;
      }
    }
  }

  /** Packing fails exactly when some carried parameter of an integer or boolean type is outside 32 bits. */
  lemma {:induction false} PackFailsIff(config: seq<ParamSpec>, types: map<string, string>, ps: seq<Param>)
    requires Named(config, types)
    ensures !PackFrom(config, types, ps).KeyMissing?
    ensures PackFrom(config, types, ps).PackFailed?
        <==> exists j :: 0 <= j < |config| && config[j].name in Codes(ps)
               && PackValue(types[config[j].name], Lookup(ps, config[j].name).value).None?
  {
    if config != [] {
      PackFailsIff(config[1..], types, ps);
      var bad := j => 0 <= j < |config| && config[j].name in Codes(ps)
               && PackValue(types[config[j].name], Lookup(ps, config[j].name).value).None?;
      if exists j :: 1 <= j < |config| && bad(j) {
        var j :| 1 <= j < |config| && bad(j);
        assert config[1..][j - 1] == config[j];
      }
      if exists j :: bad(j) {
        var j :| bad(j);
        if j > 0 {
          assert config[1..][j - 1] == config[j];
        }
      }
    }
  }

  predicate AllCarried(config: seq<ParamSpec>, ps: seq<Param>) {
    forall j :: 0 <= j < |config| ==> config[j].name in Codes(ps)
  }

  predicate AllSupported(config: seq<ParamSpec>, types: map<string, string>)
    requires Named(config, types)
  {
    forall j :: 0 <= j < |config| ==> KindOf(types[config[j].name]) != NoKind
  }

  /** Register pair j of a payload that starts with one pair `head`. */
  lemma PairAfter(head: seq<Word>, rest: seq<Word>, j: nat)
    requires |head| == 2 && 2 * j + 2 <= |head| + |rest|
    ensures (head + rest)[2 * j..2 * j + 2] == if j == 0 then head else rest[2 * (j - 1)..2 * (j - 1) + 2]
  {
  }

  /**
   * When a data point carries every configured parameter and every type is
   * supported, parameter j of the configuration occupies registers 2j and
   * 2j + 1 of the payload.
   */
  lemma {:induction false} PayloadLayout(config: seq<ParamSpec>, types: map<string, string>, ps: seq<Param>)
    requires Named(config, types) && AllCarried(config, ps) && AllSupported(config, types)
    requires PackFrom(config, types, ps).Built?
    ensures |PackFrom(config, types, ps).ws| == 2 * |config|
    ensures forall j :: 0 <= j < |config| ==>
      PackValue(types[config[j].name], Lookup(ps, config[j].name).value)
        == Some(PackFrom(config, types, ps).ws[2 * j..2 * j + 2])
  {
    if config != [] {
      var ws := PackFrom(config, types, ps).ws;
      var head := PackValue(types[config[0].name], Lookup(ps, config[0].name).value).value;
      var tail := config[1..];
      assert forall j :: 0 <= j < |tail| ==> tail[j] == config[j + 1];
      PayloadLayout(tail, types, ps);
      var rest := PackFrom(tail, types, ps).ws;
      assert ws == head + rest;
      assert |head| == 2;
      forall j | 0 <= j < |config|
        ensures PackValue(types[config[j].name], Lookup(ps, config[j].name).value) == Some(ws[2 * j..2 * j + 2])
      {
        PairAfter(head, rest, j);
      }
    }
  }

  /** A data point writes nothing outside the 50-register window of the wellhead its id names. */
  lemma PointStaysInWindow(regs: seq<Word>, config: seq<ParamSpec>, dp: DataPoint, index: int)
    requires |config| <= REGISTERS_PER_WELLHEAD / 2
    requires dp.wellheadId.Some? && WellheadIndex(dp.wellheadId.value) == Some(index)
    ensures forall k :: 0 <= k < |regs| && !(BaseAddress(index) <= k < BaseAddress(index) + REGISTERS_PER_WELLHEAD) ==>
      PointEffect(regs, config, dp).regs[k] == regs[k]
  {
  }

  /**
   * The windows of two different wellheads are disjoint, so a data point
   * never changes a register that belongs to another wellhead.
   */
  lemma PointsOfOtherWellheadsDisjoint(regs: seq<Word>, config: seq<ParamSpec>, dp: DataPoint, index: int, other: int, k: int)
    requires |config| <= REGISTERS_PER_WELLHEAD / 2
    requires dp.wellheadId.Some? && WellheadIndex(dp.wellheadId.value) == Some(index)
    requires other != index && BaseAddress(other) <= k < BaseAddress(other) + REGISTERS_PER_WELLHEAD
    requires 0 <= k < |regs|
    ensures PointEffect(regs, config, dp).regs[k] == regs[k]
  {
    PointStaysInWindow(regs, config, dp, index);
    if index < other {
      assert BaseAddress(index) + REGISTERS_PER_WELLHEAD <= BaseAddress(other);
    } else {
      assert BaseAddress(other) + REGISTERS_PER_WELLHEAD <= BaseAddress(index);
    }
  }

  /**
   * A built payload reaches the block exactly for the 20 preallocated
   * wellheads (indices 0 to 19); for any other index the block is unchanged.
   */
  lemma AllocatedWellheadsOnly(regs: seq<Word>, config: seq<ParamSpec>, dp: DataPoint, index: int)
    requires |regs| == STORE_SIZE && |config| <= REGISTERS_PER_WELLHEAD / 2
    requires dp.wellheadId.Some? && WellheadIndex(dp.wellheadId.value) == Some(index)
    requires BlockPayload(config, dp.parameters).Built?
    ensures 0 <= index < NUM_WELLHEADS_ALLOC ==>
      var ws := BlockPayload(config, dp.parameters).ws;
      forall k :: 0 <= k < |ws| ==> PointEffect(regs, config, dp).regs[BaseAddress(index) + k] == ws[k]
    ensures !(0 <= index < NUM_WELLHEADS_ALLOC) && |BlockPayload(config, dp.parameters).ws| > 0 ==>
      PointEffect(regs, config, dp).regs == regs
  {
  }

  /**
   * The updater stops at the first step whose line faults or after which the
   * simulator has exited; a discarded line does not stop it.
   */
  lemma {:induction false} RunStops(regs: seq<Word>, config: seq<ParamSpec>, steps: seq<Step>)
    ensures RunEffect(regs, config, steps).steps <= |steps|
    ensures RunEffect(regs, config, steps).stop == InputEnded ==>
      RunEffect(regs, config, steps).steps == |steps| && forall k :: 0 <= k < |steps| ==> !steps[k].exited
    ensures RunEffect(regs, config, steps).stop == SimulatorExited ==>
      var n := RunEffect(regs, config, steps).steps;
      0 < n && steps[n - 1].exited && forall k :: 0 <= k < n - 1 ==> !steps[k].exited
    ensures RunEffect(regs, config, steps).stop == UpdaterFaulted ==>
      var n := RunEffect(regs, config, steps).steps;
      0 < n && steps[n - 1].line.Some? && forall k :: 0 <= k < n - 1 ==> !steps[k].exited
    decreases |steps|
  {
    if steps != [] {
      var s := steps[0];
      var o := if s.line.Some? then FrameEffect(regs, config, s.line.value) else Outcome(regs, Completed);
      if o.status != Faulted && !s.exited {
        RunStops(o.regs, config, steps[1..]);
        assert forall k :: 1 <= k < |steps| ==> steps[1..][k - 1] == steps[k];
      }
    }
  }

  class Gateway {
    const config: seq<ParamSpec>
    const store: HoldingRegisters

    /** The gateway with its parameter configuration and 20 * 50 zero registers. */
    constructor (config: seq<ParamSpec>)
      ensures this.config == config
      ensures fresh(store) && fresh(store.cells) && store.cells.Length == STORE_SIZE
      ensures forall k :: 0 <= k < STORE_SIZE ==> store.cells[k] == 0
    {
      this.config := config;
      store := new HoldingRegisters(STORE_SIZE);
    }

    /** The payload builder loop over the configured parameter names. */
    method BuildPayload(params: Option<seq<Param>>) returns (p: Payload)
      ensures p == BlockPayload(config, params)
    {
      var types := TypeMap(config);
      TypeMapNamed(config);
      var payload: seq<Word> := [];
      for j := 0 to |config|
        invariant params.None? ==> j == 0 && payload == []
        invariant params.Some? ==>
          BlockPayload(config, params) == Prepend(payload, PackFrom(config[j..], types, params.value))
      {
        if params.None? {
          return KeyMissing;
        }
        PackFromStep(config, types, params.value, j);
        var value := Lookup(params.value, config[j].name);
        if value.Some? {
          var ws := PackValue(types[config[j].name], value.value);
          if ws.None? {
            return PackFailed;
          }
          PrependTwice(payload, ws.value, PackFrom(config[j + 1..], types, params.value));
          payload := payload + ws.value;
        }
      }
      assert config[|config|..] == [] && payload + [] == payload;
      return Built(payload);
    }

    method ApplyPoint(dp: DataPoint) returns (status: Status)
      modifies store.cells
      ensures Outcome(store.Contents(), status) == PointEffect(old(store.Contents()), config, dp)
    {
      if dp.wellheadId.None? {
        return Discarded;
      }
      var index := WellheadIndex(dp.wellheadId.value);
      if index.None? {
        return Faulted;
      }
      var base := index.value * REGISTERS_PER_WELLHEAD;
      var payload := BuildPayload(dp.parameters);
      match payload
      case KeyMissing =>
        return Discarded;
      case PackFailed =>
        return Faulted;
      case Built(ws) =>
        var _ := store.SetValues(base, ws);
        return Completed;
    }

    method ApplyFrame(line: Option<Frame>) returns (status: Status)
      modifies store.cells
      ensures Outcome(store.Contents(), status) == FrameEffect(old(store.Contents()), config, line)
    {
      if line.None? {
        return Discarded;
      }
      var pts := line.value;
      ghost var start := store.Contents();
      for i := 0 to |pts|
        invariant PointsEffect(start, config, pts) == PointsEffect(store.Contents(), config, pts[i..])
      {
        assert pts[i..][0] == pts[i] && pts[i..][1..] == pts[i + 1..];
        status := ApplyPoint(pts[i]);
        if status != Completed {
          return;
        }
      }
      status := Completed;
    }

    /** `data_updater_thread`: relay lines until the simulator exits or an uncaught error ends the thread. */
    method Run(steps: seq<Step>) returns (taken: nat, stop: Stop)
      modifies store.cells
      ensures RunResult(store.Contents(), taken, stop) == RunEffect(old(store.Contents()), config, steps)
    {
      ghost var start := store.Contents();
      var i := 0;
      while i < |steps|
        invariant 0 <= i <= |steps|
        invariant var r := RunEffect(store.Contents(), config, steps[i..]);
          RunEffect(start, config, steps) == RunResult(r.regs, r.steps + i, r.stop)
      {
        assert steps[i..][0] == steps[i] && steps[i..][1..] == steps[i + 1..];
        var status := Completed;
        if steps[i].line.Some? {
          status := ApplyFrame(steps[i].line.value);
        }
        if status == Faulted {
          return i + 1, UpdaterFaulted;
        }
        if steps[i].exited {
          return i + 1, SimulatorExited;
        }
        i := i + 1;
      }
      taken, stop := i, InputEnded;
    }
  }
}
