/** The add/edit form's draft: one born record holding a list of babies, each
    holding a list of medications. Every edit produces a new draft and leaves
    the old one as it was. */
module Draft {
  import opened Options
  import opened Seqs
  import opened Records
  import opened Address

  // ---------------------------------------------------------------------------
  // Reset
  // ---------------------------------------------------------------------------

  /** The id of the first item, or `''` when there is none. */
  function FirstIdOr<T>(items: seq<T>, idOf: T -> Id): (r: Id)
    ensures items == [] ==> r == ""
    ensures items != [] ==> r == idOf(items[0])
  {
    if |items| > 0 then idOf(items[0]) else ""
  }

  /** The scalar fields of a fresh draft. The first health centre, sector,
      cell and village currently listed are pre-selected; today's date is
      supplied by the caller. */
  function DefaultInfo(healthCenters: seq<HealthCenter>, sel: Selectors, today: string): Info {
    Info(
      dateOfBirth := today,
      healthCenterId := FirstIdOr(healthCenters, IdOfHealthCenter),
      motherName := "",
      motherPhone := "",
      motherNationalId := "",
      fatherNationalId := "",
      fatherName := "",
      fatherPhone := "",
      deliveryType := "Normal",
      leave := "yes",
      status := "go home",
      sectorId := FirstIdOr(sel.sectors, IdOfSector),
      cellId := FirstIdOr(sel.cells, IdOfCell),
      villageId := FirstIdOr(sel.villages, IdOfVillage))
  }

  /** `resetForm`: a new unsaved draft with exactly one blank baby. */
  function ResetForm(healthCenters: seq<HealthCenter>, sel: Selectors, today: string): (r: Born)
    ensures CountConsistent(r) && r.babies == [DefaultBaby]
    ensures r.id.None? && r.appointments.None? && r.medications.None?
    ensures r.info.dateOfBirth == today && r.info.deliveryType == "Normal"
    ensures r.info.leave == "yes" && r.info.status == "go home"
    ensures forall f :: f in {MotherName, MotherPhone, MotherNationalId, FatherNationalId, FatherName, FatherPhone} ==>
      Get(r.info, f) == ""
    ensures r.info.healthCenterId == (if healthCenters == [] then "" else healthCenters[0].id)
    ensures r.info.sectorId == (if sel.sectors == [] then "" else sel.sectors[0].id)
    ensures r.info.cellId == (if sel.cells == [] then "" else sel.cells[0].id)
    ensures r.info.villageId == (if sel.villages == [] then "" else sel.villages[0].id)
  {
    Born(None, DefaultInfo(healthCenters, sel, today), 1, [DefaultBaby], None, None)
  }

  // ---------------------------------------------------------------------------
  // Top-level fields
  // ---------------------------------------------------------------------------

  /** `handleChange`: replaces one scalar field; the babies, the count and
      every other field stay. */
  function SetField(d: Born, f: Field, v: string): (r: Born)
    ensures Get(r.info, f) == v
    ensures forall g :: g != f ==> Get(r.info, g) == Get(d.info, g)
    ensures r.(info := d.info) == d
  {
    d.(info := Set(d.info, f, v))
  }

  // ---------------------------------------------------------------------------
  // Babies
  // ---------------------------------------------------------------------------

  /** `addBaby`: one blank baby at the end, and the count goes up by one. */
  function AddBaby(d: Born): (r: Born)
    ensures |r.babies| == |d.babies| + 1 && r.babies[..|d.babies|] == d.babies
    ensures r.babies[|d.babies|] == DefaultBaby
    ensures r.babyCount == d.babyCount + 1
    ensures r.(babies := d.babies, babyCount := d.babyCount) == d
  {
    d.(babyCount := d.babyCount + 1, babies := d.babies + [DefaultBaby])
  }

  /** `removeBaby`: refused while at most one baby is left. Otherwise the baby
      at `index` goes (none goes when `index` is out of range) and the count
      goes down by one either way. */
  function RemoveBaby(d: Born, index: int): (r: Born)
    ensures |d.babies| <= 1 ==> r == d
    ensures |d.babies| > 1 ==> r.babies == RemoveIndex(d.babies, index) && r.babyCount == d.babyCount - 1
    ensures r.(babies := d.babies, babyCount := d.babyCount) == d
  {
    if |d.babies| <= 1 then d
    else d.(babyCount := d.babyCount - 1, babies := RemoveIndex(d.babies, index))
  }

  /** Adding a baby keeps the count equal to the number of babies. */
  lemma AddBabyKeepsCount(d: Born)
    requires CountConsistent(d)
    ensures CountConsistent(AddBaby(d))
  {
  }

  /** Removing a baby at a valid position keeps the count equal to the number
      of babies, and never leaves a draft without a baby. */
  lemma RemoveBabyKeepsCount(d: Born, index: int)
    requires CountConsistent(d) && 0 <= index < |d.babies|
    ensures CountConsistent(RemoveBaby(d, index))
    ensures |RemoveBaby(d, index).babies| >= 1
  {
  }

  /** The guard only checks the list length, not the index: removing at a
      position outside the list drops no baby but still lowers the count. */
  lemma RemoveBabyOutOfRangeBreaksCount(d: Born, index: int)
    requires CountConsistent(d) && |d.babies| > 1
    requires index < 0 || index >= |d.babies|
    ensures !CountConsistent(RemoveBaby(d, index))
    ensures RemoveBaby(d, index).babies == d.babies
  {
  }

  /** Adding a baby and then removing the last one restores the draft. */
  lemma AddThenRemoveLast(d: Born)
    requires |d.babies| >= 1
    ensures RemoveBaby(AddBaby(d), |d.babies|) == d
  {
    RemoveLastAppended(d.babies, DefaultBaby);
  }

  /** Removing a baby loses exactly that baby: the others keep their order. */
  lemma RemoveBabyLosesOnlyThatBaby(d: Born, index: int)
    requires |d.babies| > 1 && 0 <= index < |d.babies|
    ensures multiset(RemoveBaby(d, index).babies) + multiset{d.babies[index]} == multiset(d.babies)
    ensures IsSubsequence(RemoveBaby(d, index).babies, d.babies)
  {
    RemoveIndexMultiset(d.babies, index);
    RemoveIndexSubsequence(d.babies, index);
  }

  // ---------------------------------------------------------------------------
  // One baby's fields and medications
  // ---------------------------------------------------------------------------

  /** `r` differs from `d` at most in the baby at `index`. */
  predicate OnlyBabyChanged(d: Born, r: Born, index: int) {
    && |r.babies| == |d.babies|
    && (forall j :: 0 <= j < |d.babies| && j != index ==> r.babies[j] == d.babies[j])
    && r.(babies := d.babies) == d
  }

  /** The fields of a baby the form edits by input name. */
  datatype BabyField = BabyName | Gender | BirthWeight | DischargeWeight

  /** `{...baby, [f]: v}`. A weight input delivers text. */
  function SetBaby(b: Baby, f: BabyField, v: string): (r: Baby)
    ensures f == BabyName ==> r == b.(name := v)
    ensures f == Gender ==> r == b.(gender := v)
    ensures f == BirthWeight ==> r == b.(birthWeight := Entered(v))
    ensures f == DischargeWeight ==> r == b.(dischargeWeight := Entered(v))
    ensures r.id == b.id && r.medications == b.medications
  {
    match f
    case BabyName => b.(name := v)
    case Gender => b.(gender := v)
    case BirthWeight => b.(birthWeight := Entered(v))
    case DischargeWeight => b.(dischargeWeight := Entered(v))
  }

  /** `handleBabyChange`: one field of one baby. */
  function SetBabyField(d: Born, babyIndex: int, f: BabyField, v: string): (r: Born)
    requires 0 <= babyIndex < |d.babies|
    ensures OnlyBabyChanged(d, r, babyIndex)
    ensures r.babies[babyIndex] == SetBaby(d.babies[babyIndex], f, v)
  {
    d.(babies := d.babies[babyIndex := SetBaby(d.babies[babyIndex], f, v)])
  }

  /** `addMedication`: a blank medication at the end of one baby's list. */
  function AddMedication(d: Born, babyIndex: int): (r: Born)
    requires 0 <= babyIndex < |d.babies|
    ensures OnlyBabyChanged(d, r, babyIndex)
    ensures var before, after := d.babies[babyIndex], r.babies[babyIndex];
      after == before.(medications := after.medications)
      && |after.medications| == |before.medications| + 1
      && after.medications[..|before.medications|] == before.medications
      && after.medications[|before.medications|] == BlankMedication
  {
    var b := d.babies[babyIndex];
    d.(babies := d.babies[babyIndex := b.(medications := b.medications + [BlankMedication])])
  }

  /** `removeMedication`: drops one medication of one baby; a position
      outside the list drops none. */
  function RemoveMedication(d: Born, babyIndex: int, medIndex: int): (r: Born)
    requires 0 <= babyIndex < |d.babies|
    ensures OnlyBabyChanged(d, r, babyIndex)
    ensures var before, after := d.babies[babyIndex], r.babies[babyIndex];
      after == before.(medications := RemoveIndex(before.medications, medIndex))
  {
    var b := d.babies[babyIndex];
    d.(babies := d.babies[babyIndex := b.(medications := RemoveIndex(b.medications, medIndex))])
  }

  /** The fields of a medication the form edits by input name. */
  datatype MedicationField = MedicationName | Dose | Frequency

  function SetMedication(m: Medication, f: MedicationField, v: string): (r: Medication)
    ensures f == MedicationName ==> r == m.(name := v)
    ensures f == Dose ==> r == m.(dose := v)
    ensures f == Frequency ==> r == m.(frequency := v)
  {
    match f
    case MedicationName => m.(name := v)
    case Dose => m.(dose := v)
    case Frequency => m.(frequency := v)
  }

  /** `handleMedicationChange`: one field of one medication of one baby. */
  function SetMedicationField(d: Born, babyIndex: int, medIndex: int, f: MedicationField, v: string): (r: Born)
    requires 0 <= babyIndex < |d.babies|
    requires 0 <= medIndex < |d.babies[babyIndex].medications|
    ensures OnlyBabyChanged(d, r, babyIndex)
    ensures var before, after := d.babies[babyIndex], r.babies[babyIndex];
      after == before.(medications := after.medications)
      && |after.medications| == |before.medications|
      && after.medications[medIndex] == SetMedication(before.medications[medIndex], f, v)
      && forall k :: 0 <= k < |before.medications| && k != medIndex ==>
           after.medications[k] == before.medications[k]
  {
    var b := d.babies[babyIndex];
    var m := b.medications[medIndex];
    d.(babies := d.babies[babyIndex := b.(medications := b.medications[medIndex := SetMedication(m, f, v)])])
  }

  /** No nested edit touches the count or the number of babies, so none can
      break the count invariant. */
  lemma NestedEditsKeepCount(d: Born, babyIndex: int, medIndex: int, bf: BabyField, mf: MedicationField, v: string)
    requires CountConsistent(d) && 0 <= babyIndex < |d.babies|
    ensures CountConsistent(SetBabyField(d, babyIndex, bf, v))
    ensures CountConsistent(AddMedication(d, babyIndex))
    ensures CountConsistent(RemoveMedication(d, babyIndex, medIndex))
    ensures 0 <= medIndex < |d.babies[babyIndex].medications| ==>
      CountConsistent(SetMedicationField(d, babyIndex, medIndex, mf, v))
  {
  }

  /** Adding a medication and then removing the last one restores the
      draft. */
  lemma AddThenRemoveMedication(d: Born, babyIndex: int)
    requires 0 <= babyIndex < |d.babies|
    ensures RemoveMedication(AddMedication(d, babyIndex), babyIndex, |d.babies[babyIndex].medications|) == d
  {
    var b := d.babies[babyIndex];
    RemoveLastAppended(b.medications, BlankMedication);
    assert d.babies[babyIndex := b] == d.babies;
  }

  /** A later write to the same baby field wins over an earlier one. */
  lemma SetBabyFieldOverrides(d: Born, babyIndex: int, f: BabyField, v: string, w: string)
    requires 0 <= babyIndex < |d.babies|
    ensures SetBabyField(SetBabyField(d, babyIndex, f, v), babyIndex, f, w) == SetBabyField(d, babyIndex, f, w)
  {
  }
}
