/** The address hierarchy (province, district, sector, cell, village) as the
    remote service returns it, its flattening into the list of sectors the
    location selectors offer, and the id-to-name lookup the detail view uses
    for places and health centres. */
module Address {
  import opened Options
  import opened Records
  import opened Seqs

  datatype Village = Village(id: Id, name: string)
  datatype Cell = Cell(id: Id, name: string, villages: Option<seq<Village>>)
  datatype Sector = Sector(id: Id, name: string, cells: Option<seq<Cell>>)
  datatype District = District(sectors: Option<seq<Sector>>)
  datatype Province = Province(districts: Option<seq<District>>)

  /** A sector as the selectors hold it: its cells list always present. */
  datatype FlatSector = FlatSector(id: Id, name: string, cells: seq<Cell>)

  /** The lists behind the three location selectors: all sectors, the cells
      offered for the chosen sector, the villages offered for the chosen
      cell. */
  datatype Selectors = Selectors(sectors: seq<FlatSector>, cells: seq<Cell>, villages: seq<Village>)

  const NoSelectors: Selectors := Selectors([], [], [])

  // ---------------------------------------------------------------------------
  // Flattening
  // ---------------------------------------------------------------------------

  /** `{ id, name, cells: sector.cells || [] }`. */
  function FlattenSector(s: Sector): (r: FlatSector)
    ensures r.id == s.id && r.name == s.name
    ensures s.cells.Some? ==> r.cells == s.cells.value
    ensures s.cells.None? ==> r.cells == []
  {
    FlatSector(s.id, s.name, s.cells.GetOr([]))
  }

  /** A district's sectors, one flat sector for each, in order. */
  function FlattenSectors(ss: seq<Sector>): (r: seq<FlatSector>)
    ensures |r| == |ss|
    ensures forall i :: 0 <= i < |ss| ==> r[i] == FlattenSector(ss[i])
  {
    if ss == [] then [] else [FlattenSector(ss[0])] + FlattenSectors(ss[1..])
  }

  /** The sectors of a run of districts: nothing but the flattened forms of
      sectors those districts list. */
  function FlattenDistricts(ds: seq<District>): (r: seq<FlatSector>)
    ensures forall x :: x in r ==> exists d, s :: d in ds && s in d.sectors.GetOr([]) && x == FlattenSector(s)
  {
    if ds == [] then []
    else
      var head, rest := FlattenSectors(ds[0].sectors.GetOr([])), FlattenDistricts(ds[1..]);
      assert forall x :: x in head ==> exists s :: s in ds[0].sectors.GetOr([]) && x == FlattenSector(s) by {
        forall x | x in head ensures exists s :: s in ds[0].sectors.GetOr([]) && x == FlattenSector(s) {
          var i :| 0 <= i < |head| && head[i] == x;
          assert ds[0].sectors.GetOr([])[i] in ds[0].sectors.GetOr([]);
        }
      }
      head + rest
  }

  /** `sector` is declared somewhere in the tree `ps`. */
  ghost predicate Declares(ps: seq<Province>, sector: Sector) {
    exists p, d :: p in ps && d in p.districts.GetOr([]) && sector in d.sectors.GetOr([])
  }

  /** The sectors of a run of provinces: nothing but the flattened forms of
      sectors the tree declares. */
  function FlattenProvinces(ps: seq<Province>): (r: seq<FlatSector>)
    ensures forall x :: x in r ==> exists s :: Declares(ps, s) && x == FlattenSector(s)
  {
    if ps == [] then []
    else
      var head, rest := FlattenDistricts(ps[0].districts.GetOr([])), FlattenProvinces(ps[1..]);
      assert forall x :: x in head + rest ==> exists s :: Declares(ps, s) && x == FlattenSector(s) by {
        forall x | x in head + rest ensures exists s :: Declares(ps, s) && x == FlattenSector(s) {
          if x in head {
            var d, s :| d in ps[0].districts.GetOr([]) && s in d.sectors.GetOr([]) && x == FlattenSector(s);
            assert ps[0] in ps;
            assert Declares(ps, s);
          } else {
            var s :| Declares(ps[1..], s) && x == FlattenSector(s);
            var p, d :| p in ps[1..] && d in p.districts.GetOr([]) && s in d.sectors.GetOr([]);
            assert p in ps;
            assert Declares(ps, s);
          }
        }
      }
      head + rest
  }

  /** The sectors of `data?.data`, province by province, district by
      district; a missing list at any level counts as empty. The flat list
      holds exactly the flattened forms of the sectors the tree declares. */
  function Flatten(data: Option<seq<Province>>): (r: seq<FlatSector>)
    ensures data.None? ==> r == []
    ensures forall x :: x in r <==> exists s :: Declares(data.GetOr([]), s) && x == FlattenSector(s)
  {
    var ps := data.GetOr([]);
    assert forall x :: x in FlattenProvinces(ps) <==> exists s :: Declares(ps, s) && x == FlattenSector(s) by {
      forall x ensures x in FlattenProvinces(ps) <==> exists s :: Declares(ps, s) && x == FlattenSector(s) {
        FlattenMembership(ps, x);
      }
    }
    FlattenProvinces(ps)
  }

  lemma {:induction false} FlattenSectorsConcat(a: seq<Sector>, b: seq<Sector>)
    ensures FlattenSectors(a + b) == FlattenSectors(a) + FlattenSectors(b)
    decreases |a|
  {
    if a == [] {
      assert a + b == b;
    } else {
      assert (a + b)[1..] == a[1..] + b;
      FlattenSectorsConcat(a[1..], b);
    }
  }

  lemma {:induction false} FlattenDistrictsConcat(a: seq<District>, b: seq<District>)
    ensures FlattenDistricts(a + b) == FlattenDistricts(a) + FlattenDistricts(b)
    decreases |a|
  {
    if a == [] {
      assert a + b == b;
    } else {
      assert (a + b)[1..] == a[1..] + b;
      FlattenDistrictsConcat(a[1..], b);
    }
  }

  /** Order is preserved: the sectors of two runs of provinces come out as
      the first run's sectors followed by the second's. */
  lemma {:induction false} FlattenConcat(a: seq<Province>, b: seq<Province>)
    ensures FlattenProvinces(a + b) == FlattenProvinces(a) + FlattenProvinces(b)
    decreases |a|
  {
    if a == [] {
      assert a + b == b;
    } else {
      assert (a + b)[1..] == a[1..] + b;
      FlattenConcat(a[1..], b);
    }
  }

  lemma {:induction false} FlattenSectorsMembership(ss: seq<Sector>, x: FlatSector)
    ensures x in FlattenSectors(ss) <==> exists s :: s in ss && x == FlattenSector(s)
    decreases |ss|
  {
    if ss != [] {
      FlattenSectorsMembership(ss[1..], x);
      assert ss == [ss[0]] + ss[1..];
    }
  }

  lemma {:induction false} FlattenDistrictsMembership(ds: seq<District>, x: FlatSector)
    ensures x in FlattenDistricts(ds) <==>
      exists d, s :: d in ds && s in d.sectors.GetOr([]) && x == FlattenSector(s)
    decreases |ds|
  {
    if ds != [] {
      FlattenDistrictsMembership(ds[1..], x);
      FlattenSectorsMembership(ds[0].sectors.GetOr([]), x);
      assert ds == [ds[0]] + ds[1..];
    }
  }

  /** Nothing is invented and nothing is lost: the flat list holds exactly
      the flattened forms of the sectors the tree declares. */
  lemma {:induction false} FlattenMembership(ps: seq<Province>, x: FlatSector)
    ensures x in FlattenProvinces(ps) <==> exists s :: Declares(ps, s) && x == FlattenSector(s)
    decreases |ps|
  {
    if ps != [] {
      FlattenMembership(ps[1..], x);
      FlattenDistrictsMembership(ps[0].districts.GetOr([]), x);
      assert ps == [ps[0]] + ps[1..];
      if x in FlattenProvinces(ps) {
        if x in FlattenDistricts(ps[0].districts.GetOr([])) {
          var d, s :| d in ps[0].districts.GetOr([]) && s in d.sectors.GetOr([]) && x == FlattenSector(s);
          assert Declares(ps, s);
        } else {
          var s :| Declares(ps[1..], s) && x == FlattenSector(s);
          var p, d :| p in ps[1..] && d in p.districts.GetOr([]) && s in d.sectors.GetOr([]);
          assert Declares(ps, s);
        }
      }
      if exists s :: Declares(ps, s) && x == FlattenSector(s) {
        var s :| Declares(ps, s) && x == FlattenSector(s);
        var p, d :| p in ps && d in p.districts.GetOr([]) && s in d.sectors.GetOr([]);
        if p == ps[0] {
          assert x in FlattenDistricts(ps[0].districts.GetOr([]));
        } else {
          assert p in ps[1..];
          assert Declares(ps[1..], s);
        }
      }
    }
  }

  // ---------------------------------------------------------------------------
  // Loading the selectors
  // ---------------------------------------------------------------------------

  /** A successful `fetchAddressData`: the sector list is replaced by the
      flattened tree. When there is a sector, the cell list becomes the first
      sector's cells and, when that sector has a cell, the village list
      becomes the first cell's villages; otherwise those lists keep what they
      held. */
  function LoadAddress(prev: Selectors, data: Option<seq<Province>>): (r: Selectors)
    ensures r.sectors == Flatten(data)
    ensures r.sectors == [] ==> r.cells == prev.cells && r.villages == prev.villages
    ensures r.sectors != [] ==> r.cells == r.sectors[0].cells
    ensures r.sectors != [] && r.cells == [] ==> r.villages == prev.villages
    ensures r.sectors != [] && r.cells != [] ==> r.villages == r.cells[0].villages.GetOr([])
  {
    var sectors := Flatten(data);
    if sectors == [] then prev.(sectors := sectors)
    else
      var cells := sectors[0].cells;
      if cells == [] then Selectors(sectors, cells, prev.villages)
      else Selectors(sectors, cells, cells[0].villages.GetOr([]))
  }

  // ---------------------------------------------------------------------------
  // Lookup by id
  // ---------------------------------------------------------------------------

  /** `items[i]` is the item `items.find(item => item.id == id)` returns. */
  ghost predicate FirstWithId<T>(items: seq<T>, idOf: T -> Id, id: Id, i: int) {
    && 0 <= i < |items|
    && idOf(items[i]) == id
    && forall j :: 0 <= j < i ==> idOf(items[j]) != id
  }

  /** `items.find(item => item.id == id)`. */
  function FindById<T>(items: seq<T>, idOf: T -> Id, id: Id): (r: Option<T>)
    ensures r.None? <==> forall i :: 0 <= i < |items| ==> idOf(items[i]) != id
    ensures forall i :: FirstWithId(items, idOf, id, i) ==> r == Some(items[i])
  {
    var carriesId := (x: T) => idOf(x) == id;
    match FindFirst(items, carriesId)
    case None => None
    case Some(i) =>
      assert FirstWithId(items, idOf, id, i);
      FirstWithIdUnique(items, idOf, id, i);
      Some(items[i])
  }

  /** `getNameFromId`: the name of the first item carrying `id`, or `id`
      itself when no item does. */
  function GetNameFromId<T>(id: Id, items: seq<T>, idOf: T -> Id, nameOf: T -> string): (r: string)
    ensures (forall i :: 0 <= i < |items| ==> idOf(items[i]) != id) ==> r == id
    ensures forall i :: FirstWithId(items, idOf, id, i) ==> r == nameOf(items[i])
  {
    match FindById(items, idOf, id)
    case None => id
    case Some(item) => nameOf(item)
  }

  /** Only one item can be the first carrying an id. */
  lemma FirstWithIdUnique<T>(items: seq<T>, idOf: T -> Id, id: Id, i: int)
    requires FirstWithId(items, idOf, id, i)
    ensures forall k :: FirstWithId(items, idOf, id, k) ==> k == i
  {
  }

  function IdOfSector(s: FlatSector): Id { s.id }
  function IdOfCell(c: Cell): Id { c.id }
  function IdOfVillage(v: Village): Id { v.id }
}
