/**
 * The values that flow between the simulator, the gateways and the
 * ingestion service: parsed frames, parameter configuration, type names and
 * the outcome of handling one frame.
 */
module Telemetry {
  import opened Wrappers
  import opened Codec

  /**
   * A JSON number of a frame together with the two conversions the gateways
   * apply to it: `int(value)`, and the float32 bit pattern that
   * `float(value)` packs to, which is None when the float is finite but
   * beyond the float32 range (packing it raises OverflowError). The
   * conversions themselves (truncation, IEEE-754 rounding) are not
   * modelled: they are given with the number.
   */
  datatype Scalar = Scalar(asInt: int, asFloat: Option<Float32>)

  /** One `code: value` entry of a data point's "parameters" object, in object order. */
  datatype Param = Param(code: string, value: Scalar)

  /**
   * One element of a frame: a parsed JSON object with the fields
   * "timestamp", "wellhead_id" and "parameters"; a field the object lacks is
   * None, and reading it with `obj[key]` raises KeyError.
   */
  datatype DataPoint = DataPoint(timestamp: Option<string>, wellheadId: Option<string>, parameters: Option<seq<Param>>)

  /** One line of simulator output, parsed: the list of data points. */
  type Frame = seq<DataPoint>

  /** An entry of the parameter configuration file: its "name" and its "type". */
  datatype ParamSpec = ParamSpec(name: string, typeName: string)

  function Codes(params: seq<Param>): set<string> {
    set i | 0 <= i < |params| :: params[i].code
  }

  /** Entry i is the last entry of `params` with its code. */
  predicate LastWithCode(params: seq<Param>, i: int) {
    0 <= i < |params| && forall j :: i < j < |params| ==> params[j].code != params[i].code
  }

  /** The codes of a list are those of its front and that of its last entry. */
  lemma CodesSnoc(params: seq<Param>)
    requires params != []
    ensures Codes(params) == Codes(params[..|params| - 1]) + {params[|params| - 1].code}
  {
    var n := |params| - 1;
    assert forall i :: 0 <= i < n ==> params[..n][i] == params[i];
  }

  /** The last entry of the front with a code the last entry lacks is the last entry of the list with it. */
  lemma LastOfFront(params: seq<Param>)
    requires params != []
    ensures var n := |params| - 1;
      forall i :: LastWithCode(params[..n], i) && params[i].code != params[n].code ==>
        LastWithCode(params, i) && params[..n][i] == params[i]
  {
  }

  /**
   * `parameters.get(code)`: the value of the last entry with that code, if
   * any, as `json.loads` keeps the last of repeated keys.
   */
  function Lookup(params: seq<Param>, code: string): (r: Option<Scalar>)
    ensures r.Some? <==> code in Codes(params)
    ensures r.Some? ==> exists i :: LastWithCode(params, i) && params[i] == Param(code, r.value)
    decreases |params|
  {
    if params == [] then None
    else
      var n := |params| - 1;
      CodesSnoc(params);
      if params[n].code == code then
        assert LastWithCode(params, n);
        Some(params[n].value)
      else
        LastOfFront(params);
        Lookup(params[..n], code)
  }

  /** How a configured type name is encoded; only these three names are understood. */
  datatype Kind = FloatKind | IntKind | BoolKind | NoKind

  function KindOf(typeName: string): Kind {
    if typeName == "float" then FloatKind
    else if typeName == "integer" then IntKind
    else if typeName == "boolean" then BoolKind
    else NoKind
  }

  /**
   * Whether a value can be packed as the given kind: a float must lie in
   * the float32 range, an int or a boolean's int in 32 bits; a type that
   * is not understood packs nothing and so cannot fail.
   */
  predicate Fits(kind: Kind, v: Scalar) {
    match kind
    case FloatKind => v.asFloat.Some?
    case IntKind => IsInt32(v.asInt)
    case BoolKind => IsInt32(v.asInt)
    case NoKind => true
  }

  /**
   * The registers a fresh payload builder holds after adding one value of
   * the named type: `add_32bit_float(float(value))` for "float",
   * `add_32bit_int(int(value))` for "integer" and "boolean", nothing for any
   * other type. None is the packing error (struct.error, OverflowError).
   */
  function PackValue(typeName: string, v: Scalar): (r: Option<seq<Word>>)
    ensures r.None? <==> !Fits(KindOf(typeName), v)
    ensures r.Some? ==> |r.value| == if KindOf(typeName) == NoKind then 0 else 2
    ensures r.Some? && KindOf(typeName) == FloatKind ==>
      r.value == [v.asFloat.value % WORD_RANGE, v.asFloat.value / WORD_RANGE]
  {
    match KindOf(typeName)
    case FloatKind => if v.asFloat.Some? then Some(PackFloat32(v.asFloat.value)) else None
    case IntKind => PackInt32(v.asInt)
    case BoolKind => PackInt32(v.asInt)
    case NoKind => Some([])
  }

  /**
   * How handling a frame ended: it ran to its end, an exception the updater
   * catches (JSONDecodeError, KeyError) dropped the rest of it, or an
   * exception it does not catch ended the updater thread.
   */
  datatype Status = Completed | Discarded | Faulted

  /** The holding registers after handling (part of) a frame, and how it ended. */
  datatype Outcome = Outcome(regs: seq<Word>, status: Status)

  /**
   * One iteration of an updater loop: what `readline` returned (None: an
   * empty read; Some(None): a line that is not valid JSON) and whether the
   * simulator process had exited by the `poll` that follows.
   */
  datatype Step = Step(line: Option<Option<Frame>>, exited: bool)

  /** Why an updater loop stopped: the simulator exited, the thread died, or the modelled input ran out. */
  datatype Stop = SimulatorExited | UpdaterFaulted | InputEnded

  /** The holding registers when an updater loop stops, how many steps it took, and why it stopped. */
  datatype RunResult = RunResult(regs: seq<Word>, steps: nat, stop: Stop)
}
