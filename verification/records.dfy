/** The entities of the records screen: a born record (a birth event), its
    babies, each baby's medications, and the appointments attached to the
    record. Two shapes of born record exist: `RawBorn` is what the remote
    service returns, where the nested lists may be missing, and `Born` is the
    normalised record the detail view and the add/edit form work on, where the
    babies list is always present. */
module Records {
  import opened Options

  /** Identifiers of records, babies, appointments and places. The source
      compares them loosely (`==`) between strings and numbers; here they are
      one type. */
  type Id = string

  /** A prescribed medication; identified only by its position in the list. */
  datatype Medication = Medication(name: string, dose: string, frequency: string)

  /** A weight as the form holds it: the number `0` of a fresh entry, or the
      text a number input delivered. Weights are stored, never computed on. */
  datatype Weight = Zero | Entered(text: string)

  datatype Baby = Baby(
    id: Option<Id>,              // absent until the service assigns one
    name: string,
    gender: string,              // "Male" or "Female" in the form
    birthWeight: Weight,
    dischargeWeight: Weight,     // `dischargebirthWeight` in the service's shape
    medications: seq<Medication>)

  datatype Appointment = Appointment(
    id: Id,
    babyId: Option<Id>,
    date: string,
    time: string,
    purpose: string,
    status: string)

  /** The scalar fields of a born record that the form edits one at a time. */
  datatype Info = Info(
    dateOfBirth: string,
    healthCenterId: Id,
    motherName: string,
    motherPhone: string,
    motherNationalId: string,
    fatherNationalId: string,
    fatherName: string,
    fatherPhone: string,
    deliveryType: string,
    leave: string,
    status: string,
    sectorId: Id,
    cellId: Id,
    villageId: Id)

  /** The names of the `Info` fields, as a form input's `name` carries them. */
  datatype Field =
    | DateOfBirth | HealthCenterId
    | MotherName | MotherPhone | MotherNationalId
    | FatherNationalId | FatherName | FatherPhone
    | DeliveryType | Leave | Status
    | SectorId | CellId | VillageId

  /** `info[f]`. */
  function Get(info: Info, f: Field): string {
    match f
    case DateOfBirth => info.dateOfBirth
    case HealthCenterId => info.healthCenterId
    case MotherName => info.motherName
    case MotherPhone => info.motherPhone
    case MotherNationalId => info.motherNationalId
    case FatherNationalId => info.fatherNationalId
    case FatherName => info.fatherName
    case FatherPhone => info.fatherPhone
    case DeliveryType => info.deliveryType
    case Leave => info.leave
    case Status => info.status
    case SectorId => info.sectorId
    case CellId => info.cellId
    case VillageId => info.villageId
  }

  /** `{...info, [f]: v}`: replaces one field and keeps every other. */
  function Set(info: Info, f: Field, v: string): (r: Info)
    ensures Get(r, f) == v
    ensures forall g :: g != f ==> Get(r, g) == Get(info, g)
  {
    match f
    case DateOfBirth => info.(dateOfBirth := v)
    case HealthCenterId => info.(healthCenterId := v)
    case MotherName => info.(motherName := v)
    case MotherPhone => info.(motherPhone := v)
    case MotherNationalId => info.(motherNationalId := v)
    case FatherNationalId => info.(fatherNationalId := v)
    case FatherName => info.(fatherName := v)
    case FatherPhone => info.(fatherPhone := v)
    case DeliveryType => info.(deliveryType := v)
    case Leave => info.(leave := v)
    case Status => info.(status := v)
    case SectorId => info.(sectorId := v)
    case CellId => info.(cellId := v)
    case VillageId => info.(villageId := v)
  }

  /** Two `Info` values that agree on every field are the same value, so the
      field-wise contracts of `Set` pin its result down completely. */
  lemma InfoExtensional(a: Info, b: Info)
    requires forall f :: Get(a, f) == Get(b, f)
    ensures a == b
  {
    assert Get(a, DateOfBirth) == Get(b, DateOfBirth);
    assert Get(a, HealthCenterId) == Get(b, HealthCenterId);
    assert Get(a, MotherName) == Get(b, MotherName);
    assert Get(a, MotherPhone) == Get(b, MotherPhone);
    assert Get(a, MotherNationalId) == Get(b, MotherNationalId);
    assert Get(a, FatherNationalId) == Get(b, FatherNationalId);
    assert Get(a, FatherName) == Get(b, FatherName);
    assert Get(a, FatherPhone) == Get(b, FatherPhone);
    assert Get(a, DeliveryType) == Get(b, DeliveryType);
    assert Get(a, Leave) == Get(b, Leave);
    assert Get(a, Status) == Get(b, Status);
    assert Get(a, SectorId) == Get(b, SectorId);
    assert Get(a, CellId) == Get(b, CellId);
    assert Get(a, VillageId) == Get(b, VillageId);
  }

  /** Setting a field to the value it already has changes nothing, and a
      second write to the same field overrides the first. */
  lemma SetLaws(info: Info, f: Field, v: string, w: string)
    ensures Set(info, f, Get(info, f)) == info
    ensures Set(Set(info, f, v), f, w) == Set(info, f, w)
  {
    InfoExtensional(Set(info, f, Get(info, f)), info);
    InfoExtensional(Set(Set(info, f, v), f, w), Set(info, f, w));
  }

  datatype HealthCenter = HealthCenter(id: Id, name: string)

  function IdOfHealthCenter(h: HealthCenter): Id { h.id }

  /** A born record as the remote service returns it. */
  datatype RawBorn = RawBorn(
    id: Id,
    info: Info,
    babyCount: int,
    babies: Option<seq<Baby>>,
    appointments: Option<seq<Appointment>>,
    medications: Option<seq<Medication>>)

  /** A born record with its babies list present: the detail view's current
      record and the add/edit form's draft. A draft that was never saved has
      no `id`; a draft made by the reset has no appointments or medications
      lists at all. */
  datatype Born = Born(
    id: Option<Id>,
    info: Info,
    babyCount: int,
    babies: seq<Baby>,
    appointments: Option<seq<Appointment>>,
    medications: Option<seq<Medication>>)

  /** The blank baby the form starts with and `addBaby` appends. */
  const DefaultBaby: Baby := Baby(None, "", "Male", Zero, Zero, [])

  /** The blank medication `addMedication` appends. */
  const BlankMedication: Medication := Medication("", "", "")

  /** The record-level invariant: the count agrees with the list. */
  predicate CountConsistent(b: Born) {
    b.babyCount == |b.babies|
  }
}
