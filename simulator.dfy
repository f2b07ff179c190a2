/**
 * The wellhead simulator: it groups the metadata rows of the active
 * wellheads into an insertion-ordered dictionary wellhead id -> parameter
 * list, refuses to start when that dictionary is empty, and then emits one
 * frame per interval: one data point per configured wellhead, each with one
 * randomly drawn value per parameter code.
 */
module Simulator {
  import opened Wrappers

  /** One row of the metadata query: wellhead id, parameter code, normal bounds, data type. */
  datatype MetaRow = MetaRow(wellheadId: string, code: string, min: real, max: real, dataType: string)

  /** The `{"code", "min", "max", "type"}` entry a row becomes. */
  datatype ParamInfo = ParamInfo(code: string, min: real, max: real, dataType: string)

  function InfoOf(row: MetaRow): ParamInfo {
    ParamInfo(row.code, row.min, row.max, row.dataType)
  }

  /**
   * The grouped configuration: a dictionary whose keys iterate in insertion
   * order, written as that order next to the key -> list map.
   */
  datatype Config = Config(order: seq<string>, lists: map<string, seq<ParamInfo>>)

  predicate Distinct(ids: seq<string>) {
    forall i, j :: 0 <= i < j < |ids| ==> ids[i] != ids[j]
  }

  /** A dictionary's invariant: its iteration order lists each key exactly once. */
  predicate Valid(c: Config) {
    Distinct(c.order) &&
    (forall k :: 0 <= k < |c.order| ==> c.order[k] in c.lists) &&
    (forall id :: id in c.lists ==> id in c.order)
  }

  /** One turn of the grouping loop: create the wellhead's empty list when absent, then append the row's entry. */
  function AddRow(c: Config, row: MetaRow): Config {
    var id := row.wellheadId;
    var c1 := if id in c.lists then c else Config(c.order + [id], c.lists[id := []]);
    Config(c1.order, c1.lists[id := c1.lists[id] + [InfoOf(row)]])
  }

  /** The configuration after the grouping loop has taken every row in order. */
  function Group(rows: seq<MetaRow>): Config {
    if rows == [] then Config([], map[]) else AddRow(Group(rows[..|rows| - 1]), rows[|rows| - 1])
  }

  lemma AddRowValid(c: Config, row: MetaRow)
    requires Valid(c)
    ensures Valid(AddRow(c, row))
  {
    var id := row.wellheadId;
    if id !in c.lists {
      var order := c.order + [id];
      assert forall k :: 0 <= k < |c.order| ==> order[k] == c.order[k];
      assert id !in c.order;
    }
  }

  /** The grouped configuration is a well-formed dictionary. */
  lemma {:induction false} GroupValid(rows: seq<MetaRow>)
    ensures Valid(Group(rows))
  {
    if rows != [] {
      GroupValid(rows[..|rows| - 1]);
      AddRowValid(Group(rows[..|rows| - 1]), rows[|rows| - 1]);
    }
  }

  /** The grouped configuration's keys are exactly the wellhead ids of the rows. */
  lemma {:induction false} GroupKeys(rows: seq<MetaRow>)
    ensures Group(rows).lists.Keys == set i | 0 <= i < |rows| :: rows[i].wellheadId
  {
    if rows != [] {
      var init := rows[..|rows| - 1];
      GroupKeys(init);
      assert (set i | 0 <= i < |rows| :: rows[i].wellheadId)
          == (set i | 0 <= i < |init| :: init[i].wellheadId) + {rows[|rows| - 1].wellheadId};
    }
  }

  /** The reference list of a wellhead: the entries of its rows, in row order. */
  function RowsFor(rows: seq<MetaRow>, id: string): seq<ParamInfo> {
    if rows == [] then []
    else
      var init := RowsFor(rows[..|rows| - 1], id);
      if rows[|rows| - 1].wellheadId == id then init + [InfoOf(rows[|rows| - 1])] else init
  }

  /** The list a lookup of `id` finds, empty for a missing key. */
  function ListOf(c: Config, id: string): seq<ParamInfo> {
    if id in c.lists then c.lists[id] else []
  }

  /** Each wellhead's list holds one entry per row of that wellhead, copied unchanged and in row order. */
  lemma {:induction false} GroupLists(rows: seq<MetaRow>, id: string)
    ensures ListOf(Group(rows), id) == RowsFor(rows, id)
  {
    if rows != [] {
      GroupLists(rows[..|rows| - 1], id);
    }
  }

  /** The number of entries in the lists of `order`'s keys. */
  function TotalEntries(order: seq<string>, lists: map<string, seq<ParamInfo>>): nat {
    if order == [] then 0
    else
      var last := order[|order| - 1];
      TotalEntries(order[..|order| - 1], lists) + (if last in lists then |lists[last]| else 0)
  }

  lemma {:induction false} TotalOfOther(order: seq<string>, lists: map<string, seq<ParamInfo>>, id: string, l: seq<ParamInfo>)
    requires id !in order
    ensures TotalEntries(order, lists[id := l]) == TotalEntries(order, lists)
  {
    if order != [] {
      TotalOfOther(order[..|order| - 1], lists, id, l);
    }
  }

  lemma {:induction false} TotalOfOne(order: seq<string>, lists: map<string, seq<ParamInfo>>, id: string, l: seq<ParamInfo>)
    requires Distinct(order) && id in order && id in lists
    ensures TotalEntries(order, lists[id := l]) + |lists[id]| == TotalEntries(order, lists) + |l|
  {
    var init := order[..|order| - 1];
    assert Distinct(init) by {
      assert forall k :: 0 <= k < |init| ==> init[k] == order[k];
    }
    if order[|order| - 1] == id {
      assert id !in init;
      TotalOfOther(init, lists, id, l);
    } else {
      TotalOfOne(init, lists, id, l);
    }
  }

  /** The list lengths add up to the number of rows. */
  lemma {:induction false} GroupTotal(rows: seq<MetaRow>)
    ensures TotalEntries(Group(rows).order, Group(rows).lists) == |rows|
  {
    if rows != [] {
      var init := rows[..|rows| - 1];
      var row := rows[|rows| - 1];
      var c := Group(init);
      GroupTotal(init);
      GroupValid(init);
      var id := row.wellheadId;
      var info := InfoOf(row);
      if id in c.lists {
        assert Group(rows) == Config(c.order, c.lists[id := c.lists[id] + [info]]);
        TotalOfOne(c.order, c.lists, id, c.lists[id] + [info]);
      } else {
        var lists1 := c.lists[id := [info]];
        assert Group(rows) == Config(c.order + [id], lists1) by {
          var empty: seq<ParamInfo> := [];
          assert empty + [info] == [info];
          assert c.lists[id := empty][id := empty + [info]] == lists1;
        }
        TotalOfOther(c.order, c.lists, id, [info]);
        assert (c.order + [id])[..|c.order|] == c.order;
        assert TotalEntries(c.order + [id], lists1) == TotalEntries(c.order, lists1) + 1;
      }
    }
  }

  /**
   * Start-up: the simulator runs only on a non-empty configuration; no rows
   * means no configuration and an error message instead.
   */
  function Startup(rows: seq<MetaRow>): (r: Option<Config>)
    ensures r.None? <==> rows == []
    ensures r.Some? ==> r.value == Group(rows) && Valid(r.value)
  {
    var c := Group(rows);
    GroupKeys(rows);
    GroupValid(rows);
    assert rows != [] ==> rows[0].wellheadId in c.lists;
    if |c.lists| == 0 then None else Some(c)
  }

  /** The grouping loop over the fetched rows. */
  method GroupMetadata(rows: seq<MetaRow>) returns (c: Config)
    ensures c == Group(rows)
  {
    var order: seq<string> := [];
    var lists: map<string, seq<ParamInfo>> := map[];
    for i := 0 to |rows|
      invariant Config(order, lists) == Group(rows[..i])
    {
      assert rows[..i + 1][..i] == rows[..i];
      var id := rows[i].wellheadId;
      if id !in lists {
        lists := lists[id := []];
        order := order + [id];
      }
      lists := lists[id := lists[id] + [InfoOf(rows[i])]];
    }
    assert rows[..|rows|] == rows;
    return Config(order, lists);
  }

  /**
   * The random draws behind one value: `random.random()` for the outlier
   * test, the `random()` inside `random.uniform`, and `random.choice([0, 1])`.
   */
  datatype Draw = Draw(chance: real, unit: real, bit: bool)

  /** A value as the frame carries it: a float or an int. */
  datatype SimValue = FloatReading(x: real) | IntReading(i: int)

  /** One value in ten is drawn from the widened range. */
  const OUTLIER_CHANCE: real := 0.1

  /** `random.uniform(a, b)` computes `a + (b - a) * random()`. */
  function Uniform(a: real, b: real, u: real): real {
    a + (b - a) * u
  }

  /** The raw value: from [0.8 min, 1.2 max] one time in ten, from [min, max] otherwise. */
  function Sample(p: ParamInfo, d: Draw): real {
    if d.chance < OUTLIER_CHANCE then Uniform(p.min * 0.8, p.max * 1.2, d.unit) else Uniform(p.min, p.max, d.unit)
  }

  /** `int(x)`: truncation toward zero. */
  function Trunc(x: real): (n: int)
    ensures -1.0 < x - n as real < 1.0
    ensures 0.0 <= x ==> 0 <= n <= x.Floor
    ensures x < 0.0 ==> x.Floor <= n <= 0
  {
    if x >= 0.0 then x.Floor else -((-x).Floor)
  }

  /** `round(x, 2)` on the exact value: the nearest hundredth, ties to the even hundredth. */
  function RoundCents(x: real): (r: real)
    ensures -0.005 <= r - x <= 0.005
  {
    var n := (x * 100.0).Floor;
    var f := x * 100.0 - n as real;
    var m := if f < 0.5 then n else if f > 0.5 then n + 1 else if n % 2 == 0 then n else n + 1;
    m as real / 100.0
  }

  /** The value of one parameter in the frame: rounded float, a 0/1 choice, or a truncated int. */
  function ValueOf(p: ParamInfo, d: Draw): SimValue {
    if p.dataType == "float" then FloatReading(RoundCents(Sample(p, d)))
    else if p.dataType == "boolean" then IntReading(if d.bit then 1 else 0)
    else IntReading(Trunc(Sample(p, d)))
  }

  /** A boolean parameter's value is 0 or 1. */
  lemma BooleanIsBit(p: ParamInfo, d: Draw)
    requires p.dataType == "boolean"
    ensures ValueOf(p, d) == IntReading(0) || ValueOf(p, d) == IntReading(1)
  {
  }

  lemma ScaleWithin(a: real, u: real)
    requires 0.0 <= a && 0.0 <= u <= 1.0
    ensures 0.0 <= a * u <= a
  {
    assert a - a * u == a * (1.0 - u);
  }

  /** Outside the one-in-ten branch, the raw value stays within the normal bounds. */
  lemma NormalSampleInBounds(p: ParamInfo, d: Draw)
    requires p.min <= p.max && 0.0 <= d.unit <= 1.0 && OUTLIER_CHANCE <= d.chance
    ensures p.min <= Sample(p, d) <= p.max
  {
    ScaleWithin(p.max - p.min, d.unit);
  }

  /** A float value is its raw value rounded to a hundredth. */
  lemma FloatValueNearSample(p: ParamInfo, d: Draw)
    requires p.dataType == "float"
    ensures ValueOf(p, d).FloatReading? && -0.005 <= ValueOf(p, d).x - Sample(p, d) <= 0.005
  {
  }

  /** One data point, as JSON carries it. */
  datatype SimPoint = SimPoint(timestamp: string, wellheadId: string, parameters: map<string, SimValue>)

  /**
   * The `parameters` dictionary of the k-th data point after its first
   * parameters: each code set to the value drawn for it, a later entry of
   * the same code overwriting an earlier one.
   */
  function ParamsOf(params: seq<ParamInfo>, k: nat, draw: (nat, nat) -> Draw): map<string, SimValue> {
    if params == [] then map[]
    else
      var j := |params| - 1;
      ParamsOf(params[..j], k, draw)[params[j].code := ValueOf(params[j], draw(k, j))]
  }

  /** The parameter keys of a data point are exactly its wellhead's codes. */
  lemma {:induction false} ParamKeys(params: seq<ParamInfo>, k: nat, draw: (nat, nat) -> Draw)
    ensures ParamsOf(params, k, draw).Keys == set j | 0 <= j < |params| :: params[j].code
  {
    if params != [] {
      var init := params[..|params| - 1];
      ParamKeys(init, k, draw);
      assert (set j | 0 <= j < |params| :: params[j].code)
          == (set j | 0 <= j < |init| :: init[j].code) + {params[|params| - 1].code};
    }
  }

  /** A code takes the value drawn for its last entry. */
  lemma {:induction false} ParamLastWins(params: seq<ParamInfo>, k: nat, draw: (nat, nat) -> Draw, j: nat)
    requires j < |params|
    requires forall i :: j < i < |params| ==> params[i].code != params[j].code
    ensures params[j].code in ParamsOf(params, k, draw)
    ensures ParamsOf(params, k, draw)[params[j].code] == ValueOf(params[j], draw(k, j))
  {
    var n := |params| - 1;
    if j < n {
      var init := params[..n];
      assert init[j] == params[j];
      assert forall i :: j < i < n ==> init[i] == params[i];
      ParamLastWins(init, k, draw, j);
    }
  }

  /** The k-th data point of a frame, stamped by the clock reading taken for it. */
  function PointOf(c: Config, clock: nat -> string, draw: (nat, nat) -> Draw, k: nat): SimPoint
    requires Valid(c) && k < |c.order|
  {
    SimPoint(clock(k), c.order[k], ParamsOf(c.lists[c.order[k]], k, draw))
  }

  /** One frame: a data point per configured wellhead, in the dictionary's order. */
  function FrameOf(c: Config, clock: nat -> string, draw: (nat, nat) -> Draw): seq<SimPoint>
    requires Valid(c)
  {
    seq(|c.order|, k requires 0 <= k < |c.order| => PointOf(c, clock, draw, k))
  }

  /**
   * The dictionary iterates over each wellhead of the rows exactly once.
   */
  lemma GroupOrder(rows: seq<MetaRow>)
    ensures var order := Group(rows).order;
      Distinct(order) &&
      (set k | 0 <= k < |order| :: order[k]) == (set i | 0 <= i < |rows| :: rows[i].wellheadId)
  {
    var c := Group(rows);
    GroupValid(rows);
    GroupKeys(rows);
    assert (set k | 0 <= k < |c.order| :: c.order[k]) == c.lists.Keys by {
      forall id | id in c.lists ensures id in set k | 0 <= k < |c.order| :: c.order[k] {
        var k :| 0 <= k < |c.order| && c.order[k] == id;
      }
    }
  }

  /**
   * A frame holds one data point per key of the dictionary, in its order,
   * stamped in turn by the clock.
   */
  lemma FrameWellheads(c: Config, clock: nat -> string, draw: (nat, nat) -> Draw)
    requires Valid(c)
    ensures var frame := FrameOf(c, clock, draw);
      |frame| == |c.order| &&
      forall k :: 0 <= k < |frame| ==> frame[k].wellheadId == c.order[k] && frame[k].timestamp == clock(k)
  {
  }

  /** The parameter keys of wellhead k's data point are exactly the codes of that wellhead's rows. */
  lemma FrameCodes(rows: seq<MetaRow>, clock: nat -> string, draw: (nat, nat) -> Draw, k: nat)
    requires Valid(Group(rows)) && k < |Group(rows).order|
    ensures var point := FrameOf(Group(rows), clock, draw)[k]; var entries := RowsFor(rows, point.wellheadId);
      point.parameters.Keys == set j | 0 <= j < |entries| :: entries[j].code
  {
    var c := Group(rows);
    var id := c.order[k];
    GroupLists(rows, id);
    ParamKeys(c.lists[id], k, draw);
  }

  /**
   * In wellhead k's data point, the code of entry j takes the value drawn
   * for that entry when no later entry repeats the code; for a boolean entry
   * that value is 0 or 1.
   */
  lemma FrameValue(c: Config, clock: nat -> string, draw: (nat, nat) -> Draw, k: nat, j: nat)
    requires Valid(c) && k < |c.order| && j < |c.lists[c.order[k]]|
    requires var params := c.lists[c.order[k]];
      forall i :: j < i < |params| ==> params[i].code != params[j].code
    ensures var entry := c.lists[c.order[k]][j]; var values := FrameOf(c, clock, draw)[k].parameters;
      entry.code in values && values[entry.code] == ValueOf(entry, draw(k, j)) &&
      (entry.dataType == "boolean" ==> values[entry.code] == IntReading(0) || values[entry.code] == IntReading(1))
  {
    var params := c.lists[c.order[k]];
    ParamLastWins(params, k, draw, j);
    if params[j].dataType == "boolean" {
      BooleanIsBit(params[j], draw(k, j));
    }
  }

  /** One pass of the simulation loop: build the frame, point by point and parameter by parameter. */
  method EmitFrame(c: Config, clock: nat -> string, draw: (nat, nat) -> Draw) returns (frame: seq<SimPoint>)
    requires Valid(c)
    ensures frame == FrameOf(c, clock, draw)
  {
    frame := [];
    for k := 0 to |c.order|
      invariant |frame| == k
      invariant forall i :: 0 <= i < k ==> frame[i] == PointOf(c, clock, draw, i)
    {
      var id := c.order[k];
      var params := c.lists[id];
      var values: map<string, SimValue> := map[];
      for j := 0 to |params|
        invariant values == ParamsOf(params[..j], k, draw)
      {
        assert params[..j + 1][..j] == params[..j];
        values := values[params[j].code := ValueOf(params[j], draw(k, j))];
      }
      assert params[..|params|] == params;
      frame := frame + [SimPoint(clock(k), id, values)];
    }
  }
}
