/** The add/edit form together with the lists behind its three location
    selectors. Choosing a sector narrows the cells offered, choosing a cell
    narrows the villages offered, and each choice clears the choices below
    it. */
module Cascade {
  import opened Options
  import opened Records
  import opened Address
  import opened Draft

  datatype Form = Form(draft: Born, sel: Selectors)

  /** `sectors.find(s => s.id == id)?.cells || []`. */
  function CellsOf(sectors: seq<FlatSector>, id: Id): (r: seq<Cell>)
    ensures (forall i :: 0 <= i < |sectors| ==> sectors[i].id != id) ==> r == []
    ensures forall i :: FirstWithId(sectors, IdOfSector, id, i) ==> r == sectors[i].cells
  {
    match FindById(sectors, IdOfSector, id)
    case None => []
    case Some(s) => s.cells
  }

  /** `cells.find(c => c.id == id)?.villages || []`. */
  function VillagesOf(cells: seq<Cell>, id: Id): (r: seq<Village>)
    ensures (forall i :: 0 <= i < |cells| ==> cells[i].id != id) ==> r == []
    ensures forall i :: FirstWithId(cells, IdOfCell, id, i) ==> r == cells[i].villages.GetOr([])
  {
    match FindById(cells, IdOfCell, id)
    case None => []
    case Some(c) => c.villages.GetOr([])
  }

  /** The location fields. */
  predicate IsLocation(f: Field) {
    f == SectorId || f == CellId || f == VillageId
  }

  /** `handleSectorChange`: the sector is set, the cell and village are
      cleared, the cells offered are the chosen sector's and no village is
      offered. */
  function SectorChange(form: Form, id: Id): (r: Form)
    ensures r.draft.info.sectorId == id && r.draft.info.cellId == "" && r.draft.info.villageId == ""
    ensures forall g :: !IsLocation(g) ==> Get(r.draft.info, g) == Get(form.draft.info, g)
    ensures r.draft.(info := form.draft.info) == form.draft
    ensures r.sel.sectors == form.sel.sectors
    ensures r.sel.cells == CellsOf(form.sel.sectors, id) && r.sel.villages == []
  {
    var draft := SetField(SetField(SetField(form.draft, SectorId, id), CellId, ""), VillageId, "");
    Form(draft, form.sel.(cells := CellsOf(form.sel.sectors, id), villages := []))
  }

  /** `handleCellChange`: the cell is set and the village cleared; the sector
      stays. The villages offered are the chosen cell's, looked up among the
      cells currently offered. */
  function CellChange(form: Form, id: Id): (r: Form)
    ensures r.draft.info.cellId == id && r.draft.info.villageId == ""
    ensures forall g :: g != CellId && g != VillageId ==> Get(r.draft.info, g) == Get(form.draft.info, g)
    ensures r.draft.(info := form.draft.info) == form.draft
    ensures r.sel.sectors == form.sel.sectors && r.sel.cells == form.sel.cells
    ensures r.sel.villages == VillagesOf(form.sel.cells, id)
  {
    var draft := SetField(SetField(form.draft, CellId, id), VillageId, "");
    Form(draft, form.sel.(villages := VillagesOf(form.sel.cells, id)))
  }

  /** `handleVillageChange`: only the village changes. */
  function VillageChange(form: Form, id: Id): (r: Form)
    ensures r.draft.info.villageId == id
    ensures forall g :: g != VillageId ==> Get(r.draft.info, g) == Get(form.draft.info, g)
    ensures r.draft.(info := form.draft.info) == form.draft && r.sel == form.sel
  {
    Form(SetField(form.draft, VillageId, id), form.sel)
  }

  /** The cells offered are those of the chosen sector, and the villages
      offered are those of the chosen cell (or none while no cell is
      chosen). */
  predicate Consistent(form: Form) {
    var info := form.draft.info;
    && form.sel.cells == CellsOf(form.sel.sectors, info.sectorId)
    && (form.sel.villages == VillagesOf(form.sel.cells, info.cellId)
        || (info.cellId == "" && form.sel.villages == []))
  }

  /** Each of the three choices keeps the lists in step with the draft. */
  lemma ChoicesKeepConsistent(form: Form, id: Id)
    ensures Consistent(SectorChange(form, id))
    ensures Consistent(form) ==> Consistent(CellChange(form, id))
    ensures Consistent(form) ==> Consistent(VillageChange(form, id))
  {
  }

  /** Editing a field other than the location leaves the location choices
      and the lists alone, and so keeps them in step. */
  lemma OtherFieldKeepsConsistent(form: Form, f: Field, v: string)
    requires Consistent(form) && !IsLocation(f)
    ensures Consistent(Form(SetField(form.draft, f, v), form.sel))
  {
    var info := SetField(form.draft, f, v).info;
    assert Get(info, SectorId) == Get(form.draft.info, SectorId);
    assert Get(info, CellId) == Get(form.draft.info, CellId);
  }

  /** Adding, removing or editing a baby does not touch the location, and so
      keeps the lists in step. */
  lemma BabyEditsKeepConsistent(form: Form, babyIndex: int, bf: BabyField, v: string)
    requires Consistent(form)
    ensures Consistent(Form(AddBaby(form.draft), form.sel))
    ensures Consistent(Form(RemoveBaby(form.draft, babyIndex), form.sel))
    ensures 0 <= babyIndex < |form.draft.babies| ==>
      Consistent(Form(SetBabyField(form.draft, babyIndex, bf, v), form.sel))
  {
    assert AddBaby(form.draft).info == form.draft.info;
    assert RemoveBaby(form.draft, babyIndex).info == form.draft.info;
  }

  /** Choosing a cell and then another cell is choosing the second one. */
  lemma CellChangeOverrides(form: Form, a: Id, b: Id)
    ensures CellChange(CellChange(form, a), b) == CellChange(form, b)
  {
    var r1, r2 := CellChange(CellChange(form, a), b), CellChange(form, b);
    InfoExtensional(r1.draft.info, r2.draft.info);
  }

  /** Choosing a sector undoes every cell and village choice made before. */
  lemma SectorChangeForgetsBelow(form: Form, s: Id, c: Id, v: Id)
    ensures SectorChange(VillageChange(CellChange(form, c), v), s) == SectorChange(form, s)
  {
    var r1, r2 := SectorChange(VillageChange(CellChange(form, c), v), s), SectorChange(form, s);
    InfoExtensional(r1.draft.info, r2.draft.info);
  }

  // ---------------------------------------------------------------------------
  // Reset
  // ---------------------------------------------------------------------------

  /** `resetForm` as written: a fresh draft whose location is the first item
      of each list as the lists stand, the lists themselves untouched. */
  function ResetKeepingLists(form: Form, healthCenters: seq<HealthCenter>, today: string): (r: Form)
    ensures r.sel == form.sel && CountConsistent(r.draft) && r.draft.babies == [DefaultBaby]
    ensures r.draft.info.healthCenterId == FirstIdOr(healthCenters, IdOfHealthCenter)
    ensures r.draft.info.sectorId == FirstIdOr(form.sel.sectors, IdOfSector)
    ensures r.draft.info.cellId == FirstIdOr(form.sel.cells, IdOfCell)
    ensures r.draft.info.villageId == FirstIdOr(form.sel.villages, IdOfVillage)
  {
    Form(ResetForm(healthCenters, form.sel, today), form.sel)
  }

  /** The reset forgets the draft it replaces: whatever was typed or
      chosen before, the new draft depends only on the lists, the health
      centres and the date. */
  lemma ResetForgetsDraft(form: Form, d: Born, healthCenters: seq<HealthCenter>, today: string)
    ensures ResetKeepingLists(form.(draft := d), healthCenters, today) == ResetKeepingLists(form, healthCenters, today)
  {
  }

  /** On the lists the address load leaves behind, the reset pre-selects a
      first sector, its first cell and that cell's first village, so the form
      starts consistent. */
  lemma ResetAfterLoadConsistent(data: Option<seq<Province>>, healthCenters: seq<HealthCenter>, today: string)
    ensures Consistent(ResetKeepingLists(Form(ResetForm(healthCenters, NoSelectors, today), LoadAddress(NoSelectors, data)), healthCenters, today))
  {
    var sel := LoadAddress(NoSelectors, data);
    if sel.sectors != [] {
      assert FirstWithId(sel.sectors, IdOfSector, sel.sectors[0].id, 0);
      if sel.cells != [] {
        assert FirstWithId(sel.cells, IdOfCell, sel.cells[0].id, 0);
      }
    }
  }

  /** Two sectors, each with one cell of its own. */
  const TwoSectors: seq<FlatSector> := [
    FlatSector("s1", "Sector one", [Cell("c1", "Cell one", None)]),
    FlatSector("s2", "Sector two", [Cell("c2", "Cell two", None)])]

  /** After a record is added in the second sector, the next reset selects
      the first sector but the second sector's cell, and keeps offering the
      second sector's cells. */
  lemma ResetAfterOtherSectorInconsistent(healthCenters: seq<HealthCenter>, today: string)
    ensures var start := Form(ResetForm(healthCenters, Selectors(TwoSectors, TwoSectors[0].cells, []), today),
                              Selectors(TwoSectors, TwoSectors[0].cells, []));
      var r := ResetKeepingLists(SectorChange(start, "s2"), healthCenters, today);
      && Consistent(start)
      && r.draft.info.sectorId == "s1" && r.draft.info.cellId == "c2"
      && !Consistent(r)
  {
    assert FirstWithId(TwoSectors, IdOfSector, "s1", 0);
    assert FirstWithId(TwoSectors, IdOfSector, "s2", 1);
    assert FirstWithId(TwoSectors[0].cells, IdOfCell, "c1", 0);
  }

  /** The lists as the first sector and its first cell determine them. */
  function FirstSelection(sel: Selectors): (r: Selectors)
    ensures r.sectors == sel.sectors
    ensures r.cells == CellsOf(sel.sectors, FirstIdOr(sel.sectors, IdOfSector))
    ensures r.villages == VillagesOf(r.cells, FirstIdOr(r.cells, IdOfCell))
  {
    if sel.sectors == [] then Selectors([], [], [])
    else
      var cells := sel.sectors[0].cells;
      assert FirstWithId(sel.sectors, IdOfSector, sel.sectors[0].id, 0);
      if cells == [] then Selectors(sel.sectors, [], [])
      else
        assert FirstWithId(cells, IdOfCell, cells[0].id, 0);
        Selectors(sel.sectors, cells, cells[0].villages.GetOr([]))
  }

  /** The reset with the lists re-derived from the first sector: whatever
      was chosen before, the form starts consistent. */
  function Reset(form: Form, healthCenters: seq<HealthCenter>, today: string): (r: Form)
    ensures Consistent(r) && CountConsistent(r.draft)
    ensures r.sel.sectors == form.sel.sectors
    ensures r.draft.info.sectorId == FirstIdOr(form.sel.sectors, IdOfSector)
  {
    var sel := FirstSelection(form.sel);
    Form(ResetForm(healthCenters, sel, today), sel)
  }

  /** Where the lists already belong to the first sector and its first cell,
      the corrected reset is the reset as written. */
  lemma ResetAgreesWhenAtFirst(form: Form, healthCenters: seq<HealthCenter>, today: string)
    requires form.sel == FirstSelection(form.sel)
    ensures Reset(form, healthCenters, today) == ResetKeepingLists(form, healthCenters, today)
  {
  }
}
