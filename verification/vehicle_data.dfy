/**
 * The vehicle catalog: per-model attributes read once from a table and looked up by the
 * composite key `make + " " + model`.
 */
module VehicleData {
  import opened Wrappers

  /**
   * One row of the vehicle table, as the dictionary a lookup returns. Make and model always
   * exist (the key is built from them); the other columns may be absent from the table, in
   * which case the cost calculation falls back to its own defaults.
   */
  datatype VehicleRecord = VehicleRecord(
    make: string,
    model: string,
    fuelType: Option<string>,
    efficiency: Option<real>,
    insurancePerYear: Option<real>,
    maintenancePerYear: Option<real>)

  /** The composite lookup key of a row. */
  function Key(v: VehicleRecord): (key: string)
    ensures |key| == |v.make| + 1 + |v.model|
    ensures key[..|v.make|] == v.make && key[|v.make|] == ' ' && key[|v.make| + 1..] == v.model
  {
    v.make + " " + v.model
  }

  /** No two rows share a key. */
  predicate DistinctKeys(rows: seq<VehicleRecord>)
  {
    forall i, j :: 0 <= i < j < |rows| ==> Key(rows[i]) != Key(rows[j])
  }

  /** The loaded table, indexed by key. */
  type Catalog = map<string, VehicleRecord>

  /** Indexes the rows by key; the key set is exactly the set of row keys. */
  function Index(rows: seq<VehicleRecord>): (c: Catalog)
    ensures forall k :: k in c <==> exists i :: 0 <= i < |rows| && Key(rows[i]) == k
  {
    if rows == [] then map[]
    else
      var last := rows[|rows| - 1];
      var c := Index(rows[..|rows| - 1])[Key(last) := last];
      assert forall i :: 0 <= i < |rows| - 1 ==> rows[..|rows| - 1][i] == rows[i];
      c
  }

  /**
   * Loading the table: `None` stands for a missing file, which leaves the catalog empty
   * instead of failing.
   */
  function LoadCatalog(source: Option<seq<VehicleRecord>>): (c: Catalog)
    ensures source.None? ==> c == map[]
    ensures source.Some? ==> forall i :: 0 <= i < |source.value| ==> Key(source.value[i]) in c
  {
    match source
    case None => map[]
    case Some(rows) => Index(rows)
  }

  /** Exact, case-sensitive lookup of a key; `None` when the catalog is empty or lacks the key. */
  function GetVehicleInfo(c: Catalog, modelName: string): (info: Option<VehicleRecord>)
    ensures info.Some? <==> modelName in c
    ensures info.Some? ==> info.value == c[modelName]
  {
    if |c| != 0 && modelName in c then Some(c[modelName]) else None
  }

  /** Every row of a table without duplicate keys is indexed under its own key. */
  lemma {:induction false} IndexFindsRow(rows: seq<VehicleRecord>, i: nat)
    requires DistinctKeys(rows) && i < |rows|
    ensures Key(rows[i]) in Index(rows) && Index(rows)[Key(rows[i])] == rows[i]
  {
    var init := rows[..|rows| - 1];
    if i < |rows| - 1 {
      assert init[i] == rows[i];
      assert DistinctKeys(init) by {
        forall a, b | 0 <= a < b < |init|
          ensures Key(init[a]) != Key(init[b])
        {
          assert init[a] == rows[a] && init[b] == rows[b];
        }
      }
      IndexFindsRow(init, i);
      assert Key(rows[i]) != Key(rows[|rows| - 1]);
    }
  }

  /** Looking up `make + " " + model` of a loaded row returns that row. */
  lemma LookupFindsRow(rows: seq<VehicleRecord>, i: nat)
    requires DistinctKeys(rows) && i < |rows|
    ensures GetVehicleInfo(LoadCatalog(Some(rows)), rows[i].make + " " + rows[i].model) == Some(rows[i])
  {
    IndexFindsRow(rows, i);
  }

  /** A key no row carries, or any key after a missing file, is not found. */
  lemma LookupMissing(source: Option<seq<VehicleRecord>>, modelName: string)
    requires source.Some? ==> forall i :: 0 <= i < |source.value| ==> Key(source.value[i]) != modelName
    ensures GetVehicleInfo(LoadCatalog(source), modelName) == None
  {
  }
}
