/**
 * The newer gateway: it builds the register map from the mapping rows, then
 * relays every frame the simulator prints into its holding-register block,
 * writing each mapped parameter's two words at the parameter's own register.
 */
module MappedGateway {
  import opened Wrappers
  import opened Codec
  import opened Telemetry
  import opened Store
  import opened RegisterMap

  /** The server's holding-register block: 1000 registers. */
  const STORE_SIZE: nat := 1000

  /** The registers after relaying one parameter of a wellhead whose inner map is `entry`. */
  function ParamEffect(regs: seq<Word>, entry: map<string, Mapping>, p: Param): Outcome {
    if p.code !in entry then Outcome(regs, Completed)
    else
      match PackValue(entry[p.code].dataType, p.value)
      case None => Outcome(regs, Faulted)
      case Some(ws) => Outcome(Overwrite(regs, entry[p.code].register, ws), Completed)
  }

  /** The parameters of one data point, relayed in object order; a fault stops the rest. */
  function ParamsEffect(regs: seq<Word>, entry: map<string, Mapping>, ps: seq<Param>): Outcome
    decreases |ps|
  {
    if ps == [] then Outcome(regs, Completed)
    else
      var o := ParamEffect(regs, entry, ps[0]);
      if o.status != Completed then o else ParamsEffect(o.regs, entry, ps[1..])
  }

  /** One data point: a missing "wellhead_id" or "parameters" raises KeyError; an unmapped wellhead is skipped. */
  function PointEffect(regs: seq<Word>, rmap: RegMap, dp: DataPoint): Outcome {
    match dp.wellheadId
    case None => Outcome(regs, Discarded)
    case Some(w) =>
      if w !in rmap then Outcome(regs, Completed)
      else
        match dp.parameters
        case None => Outcome(regs, Discarded)
        case Some(ps) => ParamsEffect(regs, rmap[w], ps)
  }

  function PointsEffect(regs: seq<Word>, rmap: RegMap, pts: seq<DataPoint>): Outcome
    decreases |pts|
  {
    if pts == [] then Outcome(regs, Completed)
    else
      var o := PointEffect(regs, rmap, pts[0]);
      if o.status != Completed then o else PointsEffect(o.regs, rmap, pts[1..])
  }

  /** One line of simulator output; a line that is not JSON raises JSONDecodeError. */
  function FrameEffect(regs: seq<Word>, rmap: RegMap, line: Option<Frame>): Outcome {
    match line
    case None => Outcome(regs, Discarded)
    case Some(pts) => PointsEffect(regs, rmap, pts)
  }

  /** The updater loop over the simulator's output, until the simulator exits or the thread dies. */
  function RunEffect(regs: seq<Word>, rmap: RegMap, steps: seq<Step>): RunResult
    decreases |steps|
  {
    if steps == [] then RunResult(regs, 0, InputEnded)
    else
      var s := steps[0];
      var o := if s.line.Some? then FrameEffect(regs, rmap, s.line.value) else Outcome(regs, Completed);
      if o.status == Faulted then RunResult(o.regs, 1, UpdaterFaulted)
      else if s.exited then RunResult(o.regs, 1, SimulatorExited)
      else
        var r := RunEffect(o.regs, rmap, steps[1..]);
        RunResult(r.regs, r.steps + 1, r.stop)
  }

  /**
   * The updater loop takes at most one step per line, stops right after the
   * first step at which the simulator had exited, and stops on a fault only
   * at a line that was read; an empty read or a discarded line never stops it.
   */
  lemma {:induction false} RunStops(regs: seq<Word>, rmap: RegMap, steps: seq<Step>)
    ensures RunEffect(regs, rmap, steps).steps <= |steps|
    ensures RunEffect(regs, rmap, steps).stop == InputEnded ==>
      RunEffect(regs, rmap, steps).steps == |steps| && forall k :: 0 <= k < |steps| ==> !steps[k].exited
    ensures RunEffect(regs, rmap, steps).stop == SimulatorExited ==>
      var n := RunEffect(regs, rmap, steps).steps;
      0 < n && steps[n - 1].exited && forall k :: 0 <= k < n - 1 ==> !steps[k].exited
    ensures RunEffect(regs, rmap, steps).stop == UpdaterFaulted ==>
      var n := RunEffect(regs, rmap, steps).steps;
      0 < n && steps[n - 1].line.Some? && forall k :: 0 <= k < n - 1 ==> !steps[k].exited
    decreases |steps|
  {
    if steps != [] {
      var s := steps[0];
      var o := if s.line.Some? then FrameEffect(regs, rmap, s.line.value) else Outcome(regs, Completed);
      if o.status != Faulted && !s.exited {
        RunStops(o.regs, rmap, steps[1..]);
        assert forall k :: 1 <= k < |steps| ==> steps[1..][k - 1] == steps[k];
      }
    }
  }

  /** The 32-bit pattern a supported value is packed as: the float32 bits, or the int's two's complement. */
  function Pattern(typeName: string, v: Scalar): Uint32
    requires Fits(KindOf(typeName), v)
  {
    if KindOf(typeName) == FloatKind then v.asFloat.value else v.asInt % UINT32_RANGE
  }

  /**
   * Relaying a mapped parameter of a supported type writes the low word of
   * its 32-bit pattern at the mapped register and the high word at the next
   * one, and changes no other register.
   */
  lemma MappedParamWritesPair(regs: seq<Word>, entry: map<string, Mapping>, p: Param)
    requires p.code in entry && KindOf(entry[p.code].dataType) != NoKind
    requires Fits(KindOf(entry[p.code].dataType), p.value)
    requires InBlock(entry[p.code].register, 2, |regs|)
    ensures var o := ParamEffect(regs, entry, p);
      var a, u := entry[p.code].register, Pattern(entry[p.code].dataType, p.value);
      && o.status == Completed && |o.regs| == |regs|
      && o.regs[a] == u % WORD_RANGE && o.regs[a + 1] == u / WORD_RANGE
      && forall k :: 0 <= k < |regs| && k != a && k != a + 1 ==> o.regs[k] == regs[k]
  {
  }

  /** A mapped parameter whose type is not "float", "integer" or "boolean" adds no words and changes nothing. */
  lemma UnsupportedTypeWritesNothing(regs: seq<Word>, entry: map<string, Mapping>, p: Param)
    requires p.code in entry && KindOf(entry[p.code].dataType) == NoKind
    ensures ParamEffect(regs, entry, p) == Outcome(regs, Completed)
  {
    var o := ParamEffect(regs, entry, p);
    assert o.regs == regs;
  }

  /** Register `k` lies in the two-register window of some code of `entry`. */
  predicate EntryCovers(entry: map<string, Mapping>, k: int) {
    exists c :: c in entry && entry[c].register <= k < entry[c].register + 2
  }

  /** Register `k` lies in the two-register window of some mapped pair. */
  predicate Covered(rmap: RegMap, k: int) {
    exists w :: w in rmap && EntryCovers(rmap[w], k)
  }

  lemma {:induction false} ParamsKeep(regs: seq<Word>, entry: map<string, Mapping>, ps: seq<Param>, k: int)
    requires 0 <= k < |regs| && !EntryCovers(entry, k)
    ensures var o := ParamsEffect(regs, entry, ps); |o.regs| == |regs| && o.regs[k] == regs[k]
    decreases |ps|
  {
    if ps != [] {
      var o := ParamEffect(regs, entry, ps[0]);
      if ps[0].code in entry {
        assert !(entry[ps[0].code].register <= k < entry[ps[0].code].register + 2);
      }
      if o.status == Completed {
        ParamsKeep(o.regs, entry, ps[1..], k);
      }
    }
  }

  lemma {:induction false} PointsKeep(regs: seq<Word>, rmap: RegMap, pts: seq<DataPoint>, k: int)
    requires 0 <= k < |regs| && !Covered(rmap, k)
    ensures var o := PointsEffect(regs, rmap, pts); |o.regs| == |regs| && o.regs[k] == regs[k]
    decreases |pts|
  {
    if pts != [] {
      var dp := pts[0];
      if dp.wellheadId.Some? && dp.wellheadId.value in rmap && dp.parameters.Some? {
        ParamsKeep(regs, rmap[dp.wellheadId.value], dp.parameters.value, k);
      }
      var o := PointEffect(regs, rmap, dp);
      if o.status == Completed {
        PointsKeep(o.regs, rmap, pts[1..], k);
      }
    }
  }

  /**
   * A register outside every mapped two-register window keeps its value
   * through any run of the updater; since the block starts at zero, such a
   * register always reads 0.
   */
  lemma {:induction false} UnmappedRegisterKept(regs: seq<Word>, rmap: RegMap, steps: seq<Step>, k: int)
    requires 0 <= k < |regs| && !Covered(rmap, k)
    ensures var r := RunEffect(regs, rmap, steps); |r.regs| == |regs| && r.regs[k] == regs[k]
    decreases |steps|
  {
    if steps != [] {
      var s := steps[0];
      if s.line.Some? && s.line.value.Some? {
        PointsKeep(regs, rmap, s.line.value.value, k);
      }
      var o := if s.line.Some? then FrameEffect(regs, rmap, s.line.value) else Outcome(regs, Completed);
      if o.status != Faulted && !s.exited {
        UnmappedRegisterKept(o.regs, rmap, steps[1..], k);
      }
    }
  }

  lemma {:induction false} UnmappedParamsWriteNothing(regs: seq<Word>, entry: map<string, Mapping>, ps: seq<Param>)
    requires forall j :: 0 <= j < |ps| ==> ps[j].code !in entry
    ensures ParamsEffect(regs, entry, ps) == Outcome(regs, Completed)
    decreases |ps|
  {
    if ps != [] {
      UnmappedParamsWriteNothing(regs, entry, ps[1..]);
    }
  }

  /**
   * With the map built from `rows`: a data point of a wellhead that no row
   * names, or none of whose parameter codes a row maps for that wellhead,
   * writes nothing.
   */
  lemma UnmappedPointWritesNothing(rows: seq<MapRow>, regs: seq<Word>, dp: DataPoint)
    requires dp.wellheadId.Some? && dp.parameters.Some?
    requires forall i, j :: 0 <= i < |rows| && 0 <= j < |dp.parameters.value| ==>
      !Matches(rows[i], dp.wellheadId.value, dp.parameters.value[j].code)
    ensures PointEffect(regs, MapOf(rows), dp) == Outcome(regs, Completed)
  {
    var w, ps := dp.wellheadId.value, dp.parameters.value;
    var rmap := MapOf(rows);
    if w in rmap {
      forall j | 0 <= j < |ps|
        ensures ps[j].code !in rmap[w]
      {
        MapPairs(rows, w, ps[j].code);
      }
      UnmappedParamsWriteNothing(regs, rmap[w], ps);
    }
  }

  lemma {:induction false} ParamsNeverDiscard(regs: seq<Word>, entry: map<string, Mapping>, ps: seq<Param>)
    ensures ParamsEffect(regs, entry, ps).status != Discarded
    decreases |ps|
  {
    if ps != [] {
      var o := ParamEffect(regs, entry, ps[0]);
      if o.status == Completed {
        ParamsNeverDiscard(o.regs, entry, ps[1..]);
      }
    }
  }

  /**
   * When data point `k` raises KeyError, the frame ends there: the writes of
   * the earlier data points stay in place and nothing after them is written.
   */
  lemma {:induction false} DiscardKeepsEarlierWrites(regs: seq<Word>, rmap: RegMap, pts: seq<DataPoint>, k: nat)
    requires k < |pts|
    requires PointsEffect(regs, rmap, pts[..k]).status == Completed
    requires PointEffect(PointsEffect(regs, rmap, pts[..k]).regs, rmap, pts[k]).status == Discarded
    ensures PointsEffect(regs, rmap, pts) == Outcome(PointsEffect(regs, rmap, pts[..k]).regs, Discarded)
    decreases k
  {
    var o := PointEffect(regs, rmap, pts[0]);
    if k == 0 {
      if pts[0].wellheadId.Some? && pts[0].wellheadId.value in rmap && pts[0].parameters.Some? {
        ParamsNeverDiscard(regs, rmap[pts[0].wellheadId.value], pts[0].parameters.value);
      }
    } else {
      assert pts[..k][0] == pts[0] && pts[..k][1..] == pts[1..][..k - 1];
      assert pts[1..][k - 1] == pts[k];
      DiscardKeepsEarlierWrites(o.regs, rmap, pts[1..], k - 1);
    }
  }

  class Gateway {
    var registerMap: RegMap
    const store: HoldingRegisters

    /** The gateway before start-up: an empty map and 1000 zero registers. */
    constructor ()
      ensures registerMap == map[]
      ensures fresh(store) && fresh(store.cells) && store.cells.Length == STORE_SIZE
      ensures forall k :: 0 <= k < STORE_SIZE ==> store.cells[k] == 0
    {
      registerMap := map[];
      store := new HoldingRegisters(STORE_SIZE);
    }

    /**
     * `build_register_map`: the map is built in a temporary from the rows
     * and only then replaces `registerMap` as a whole.
     */
    method BuildRegisterMap(rows: seq<MapRow>)
      modifies this
      ensures registerMap == MapOf(rows)
    {
      var tempMap: RegMap := map[];
      for i := 0 to |rows|
        invariant tempMap == MapOf(rows[..i])
      {
        var row := rows[i];
        if row.wellheadId !in tempMap {
          tempMap := tempMap[row.wellheadId := map[]];
        }
        tempMap := tempMap[row.wellheadId := tempMap[row.wellheadId][row.code := Mapping(row.register, row.dataType)]];
        assert rows[..i + 1][..i] == rows[..i];
      }
      assert rows[..|rows|] == rows;
      registerMap := tempMap;
    }

    method ApplyParams(entry: map<string, Mapping>, ps: seq<Param>) returns (status: Status)
      modifies store.cells
      ensures Outcome(store.Contents(), status) == ParamsEffect(old(store.Contents()), entry, ps)
    {
      ghost var start := store.Contents();
      for j := 0 to |ps|
        invariant ParamsEffect(start, entry, ps) == ParamsEffect(store.Contents(), entry, ps[j..])
      {
        assert ps[j..][0] == ps[j] && ps[j..][1..] == ps[j + 1..];
        var p := ps[j];
        if p.code in entry {
          var mapping := entry[p.code];
          var payload := PackValue(mapping.dataType, p.value);
          if payload.None? {
            return Faulted;
          }
          var _ := store.SetValues(mapping.register, payload.value);
        }
      }
      status := Completed;
    }

    method ApplyPoint(dp: DataPoint) returns (status: Status)
      modifies store.cells
      ensures Outcome(store.Contents(), status) == PointEffect(old(store.Contents()), registerMap, dp)
    {
      if dp.wellheadId.None? {
        return Discarded;
      }
      var w := dp.wellheadId.value;
      if w !in registerMap {
        return Completed;
      }
      if dp.parameters.None? {
        return Discarded;
      }
      status := ApplyParams(registerMap[w], dp.parameters.value);
    }

    /** The body of the updater loop for one line of simulator output. */
    method ApplyFrame(line: Option<Frame>) returns (status: Status)
      modifies store.cells
      ensures Outcome(store.Contents(), status) == FrameEffect(old(store.Contents()), registerMap, line)
    {
      if line.None? {
        return Discarded;
      }
      var pts := line.value;
      ghost var start := store.Contents();
      for i := 0 to |pts|
        invariant PointsEffect(start, registerMap, pts) == PointsEffect(store.Contents(), registerMap, pts[i..])
      {
        assert pts[i..][0] == pts[i] && pts[i..][1..] == pts[i + 1..];
        status := ApplyPoint(pts[i]);
        if status != Completed {
          return;
        }
      }
      status := Completed;
    }

    /** `data_updater_thread`: relay lines until the simulator exits or an uncaught error ends the thread. */
    method Run(steps: seq<Step>) returns (taken: nat, stop: Stop)
      modifies store.cells
      ensures RunResult(store.Contents(), taken, stop) == RunEffect(old(store.Contents()), registerMap, steps)
    {
      ghost var start := store.Contents();
      var i := 0;
      while i < |steps|
        invariant 0 <= i <= |steps|
        invariant var r := RunEffect(store.Contents(), registerMap, steps[i..]);
          RunEffect(start, registerMap, steps) == RunResult(r.regs, r.steps + i, r.stop)
      {
        assert steps[i..][0] == steps[i] && steps[i..][1..] == steps[i + 1..];
        var status := Completed;
        if steps[i].line.Some? {
          status := ApplyFrame(steps[i].line.value);
        }
        if status == Faulted {
          return i + 1, UpdaterFaulted;
        }
        if steps[i].exited {
          return i + 1, SimulatorExited;
        }
        i := i + 1;
      }
      taken, stop := i, InputEnded;
    }
  }
}
