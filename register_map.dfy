/**
 * The register map of the newer gateway: the active rows of the device
 * parameter mapping, grouped as wellhead id -> parameter code ->
 * (register, data type).
 */
module RegisterMap {
  import opened Wrappers

  /** One row of the mapping query: wellhead id, parameter code, Modbus register, data type. */
  datatype MapRow = MapRow(wellheadId: string, code: string, register: int, dataType: string)

  /** The `{"register": ..., "type": ...}` entry of one (wellhead, code) pair. */
  datatype Mapping = Mapping(register: int, dataType: string)

  type RegMap = map<string, map<string, Mapping>>

  function MappingOf(row: MapRow): Mapping {
    Mapping(row.register, row.dataType)
  }

  predicate Matches(row: MapRow, wellheadId: string, code: string) {
    row.wellheadId == wellheadId && row.code == code
  }

  /** `register_map[w][c]` when both keys are present. */
  function Entry(m: RegMap, wellheadId: string, code: string): Option<Mapping> {
    if wellheadId in m && code in m[wellheadId] then Some(m[wellheadId][code]) else None
  }

  /** One turn of the builder's loop: create the wellhead's inner dict when absent, then set the code's entry. */
  function AddRow(m: RegMap, row: MapRow): (r: RegMap)
    ensures r.Keys == m.Keys + {row.wellheadId}
    ensures forall w, c :: Entry(r, w, c) == if Matches(row, w, c) then Some(MappingOf(row)) else Entry(m, w, c)
  {
    var inner := if row.wellheadId in m then m[row.wellheadId] else map[];
    m[row.wellheadId := inner[row.code := MappingOf(row)]]
  }

  /** The map the builder holds after taking every row in order. */
  function MapOf(rows: seq<MapRow>): RegMap {
    if rows == [] then map[] else AddRow(MapOf(rows[..|rows| - 1]), rows[|rows| - 1])
  }

  /** The map's wellhead keys are exactly the wellhead ids of the rows. */
  lemma {:induction false} MapWellheads(rows: seq<MapRow>)
    ensures MapOf(rows).Keys == set i | 0 <= i < |rows| :: rows[i].wellheadId
  {
    if rows != [] {
      var init := rows[..|rows| - 1];
      MapWellheads(init);
      assert (set i | 0 <= i < |rows| :: rows[i].wellheadId)
          == (set i | 0 <= i < |init| :: init[i].wellheadId) + {rows[|rows| - 1].wellheadId};
    }
  }

  /** A (wellhead, code) pair is mapped exactly when some row carries it. */
  lemma {:induction false} MapPairs(rows: seq<MapRow>, wellheadId: string, code: string)
    ensures Entry(MapOf(rows), wellheadId, code).Some?
        <==> exists i :: 0 <= i < |rows| && Matches(rows[i], wellheadId, code)
  {
    if rows != [] {
      var n := |rows| - 1;
      MapPairs(rows[..n], wellheadId, code);
      assert forall i :: 0 <= i < n ==> rows[..n][i] == rows[i];
    }
  }

  /**
   * A mapped pair holds the register and type of the LAST row that carries
   * it: later rows overwrite earlier ones.
   */
  lemma {:induction false} MapLastRowWins(rows: seq<MapRow>, i: nat)
    requires i < |rows|
    requires forall j :: i < j < |rows| ==> !Matches(rows[j], rows[i].wellheadId, rows[i].code)
    ensures Entry(MapOf(rows), rows[i].wellheadId, rows[i].code) == Some(MappingOf(rows[i]))
  {
    var n := |rows| - 1;
    if i < n {
      var init := rows[..n];
      assert init[i] == rows[i];
      assert forall j :: i < j < n ==> init[j] == rows[j];
      MapLastRowWins(init, i);
    }
  }
}
