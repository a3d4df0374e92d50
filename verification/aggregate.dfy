/** Shaping the data the remote service returns for one born record: filling
    in missing nested lists, projecting the draft onto the update request,
    folding the per-appointment feedback replies into one map, and keeping the
    detail view's current record in step with baby edits. */
module Aggregate {
  import opened Options
  import opened Seqs
  import opened Records

  // ---------------------------------------------------------------------------
  // Normalisation
  // ---------------------------------------------------------------------------

  /** `handleViewDetails`: a missing babies list becomes one blank baby, and
      missing appointments and medications lists become empty. A list that is
      present, even an empty one, is kept as it is. */
  function NormalizeDetail(raw: RawBorn): (r: Born)
    ensures r.id == Some(raw.id) && r.info == raw.info && r.babyCount == raw.babyCount
    ensures raw.babies.Some? ==> r.babies == raw.babies.value
    ensures raw.babies.None? ==> r.babies == [DefaultBaby]
    ensures r.appointments.Some? && r.medications.Some?
    ensures raw.appointments.Some? ==> r.appointments == raw.appointments
    ensures raw.medications.Some? ==> r.medications == raw.medications
  {
    Born(Some(raw.id), raw.info, raw.babyCount, raw.babies.GetOr([DefaultBaby]),
         Some(raw.appointments.GetOr([])), Some(raw.medications.GetOr([])))
  }

  /** `fetchBornWithAppointments`: a missing babies list becomes empty, a
      missing appointments list becomes empty, and the medications list is
      passed through as it came. */
  function NormalizeWithAppointments(raw: RawBorn): (r: Born)
    ensures r.id == Some(raw.id) && r.info == raw.info && r.babyCount == raw.babyCount
    ensures raw.babies.Some? ==> r.babies == raw.babies.value
    ensures raw.babies.None? ==> r.babies == []
    ensures r.appointments.Some?
    ensures raw.appointments.Some? ==> r.appointments == raw.appointments
    ensures r.medications == raw.medications
  {
    Born(Some(raw.id), raw.info, raw.babyCount, raw.babies.GetOr([]),
         Some(raw.appointments.GetOr([])), raw.medications)
  }

  /** A normalised record in the service's shape, every list present. */
  function AsRaw(b: Born, id: Id): (r: RawBorn)
    ensures r.id == id && r.babies == Some(b.babies)
    ensures r.info == b.info && r.babyCount == b.babyCount
  {
    RawBorn(id, b.info, b.babyCount, Some(b.babies), b.appointments, b.medications)
  }

  /** Normalising an already normalised record changes nothing. */
  lemma NormalizeIdempotent(raw: RawBorn)
    ensures NormalizeDetail(AsRaw(NormalizeDetail(raw), raw.id)) == NormalizeDetail(raw)
    ensures NormalizeWithAppointments(AsRaw(NormalizeWithAppointments(raw), raw.id)) == NormalizeWithAppointments(raw)
  {
  }

  /** The two normalisations agree exactly on the records that come with both
      a babies and a medications list. */
  lemma NormalizationsAgreeIff(raw: RawBorn)
    ensures NormalizeDetail(raw) == NormalizeWithAppointments(raw) <==>
      raw.babies.Some? && raw.medications.Some?
  {
    if NormalizeDetail(raw) == NormalizeWithAppointments(raw) {
      assert NormalizeDetail(raw).babies == NormalizeWithAppointments(raw).babies;
      assert NormalizeDetail(raw).medications == NormalizeWithAppointments(raw).medications;
    }
  }

  // ---------------------------------------------------------------------------
  // Update request
  // ---------------------------------------------------------------------------

  /** The body of the update request: thirteen scalar fields. The babies,
      their count and `leave` are not sent. */
  datatype Payload = Payload(
    dateOfBirth: string,
    healthCenterId: Id,
    motherName: string,
    motherPhone: string,
    motherNationalId: string,
    fatherNationalId: string,
    fatherName: string,
    fatherPhone: string,
    deliveryType: string,
    status: string,
    sectorId: Id,
    cellId: Id,
    villageId: Id)

  /** The fields `updateBorn` copies out of the draft: every scalar field
      but `leave`, so reading the payload back with the draft's `leave`
      gives the draft's fields. */
  function UpdatePayload(d: Born): (r: Payload)
    ensures ApplyPayload(r, d.info.leave) == d.info
  {
    var i := d.info;
    Payload(i.dateOfBirth, i.healthCenterId, i.motherName, i.motherPhone,
            i.motherNationalId, i.fatherNationalId, i.fatherName, i.fatherPhone,
            i.deliveryType, i.status, i.sectorId, i.cellId, i.villageId)
  }

  /** Reads a payload back into the scalar fields, given the `leave` value it
      does not carry. */
  function ApplyPayload(p: Payload, leave: string): (r: Info)
    ensures r.leave == leave
  {
    Info(p.dateOfBirth, p.healthCenterId, p.motherName, p.motherPhone,
         p.motherNationalId, p.fatherNationalId, p.fatherName, p.fatherPhone,
         p.deliveryType, leave, p.status, p.sectorId, p.cellId, p.villageId)
  }

  /** The payload carries every scalar field but `leave`: reading it back
      with the draft's `leave` gives the draft's fields. */
  lemma PayloadRoundTrip(d: Born)
    ensures ApplyPayload(UpdatePayload(d), d.info.leave) == d.info
    ensures forall f :: f != Leave ==> Get(ApplyPayload(UpdatePayload(d), ""), f) == Get(d.info, f)
  {
  }

  /** Two drafts send the same payload exactly when their scalar fields agree
      on everything but `leave`. */
  lemma PayloadEqualIff(a: Born, b: Born)
    ensures UpdatePayload(a) == UpdatePayload(b) <==> a.info.(leave := "") == b.info.(leave := "")
  {
    if UpdatePayload(a) == UpdatePayload(b) {
      PayloadRoundTrip(a);
      PayloadRoundTrip(b);
      assert ApplyPayload(UpdatePayload(a), "") == a.info.(leave := "");
    }
  }

  /** `updateBorn` does nothing for a record without an id (a missing or
      empty id is falsy); otherwise it addresses the record by its id with the
      payload of the draft. */
  function UpdateRequest(current: Option<Born>, form: Born): (r: Option<(Id, Payload)>)
    ensures r.None? <==> current.None? || current.value.id.None? || current.value.id.value == ""
    ensures r.Some? ==> r.value.0 == current.value.id.value && r.value.1 == UpdatePayload(form)
  {
    if current.None? || current.value.id.None? || current.value.id.value == "" then None
    else Some((current.value.id.value, UpdatePayload(form)))
  }

  // ---------------------------------------------------------------------------
  // Feedback
  // ---------------------------------------------------------------------------

  /** One feedback entry; its content is free-form. */
  datatype Feedback = Feedback(content: string)

  /** What one feedback request produced: a reply carrying data (possibly
      null), or a failure. */
  datatype Outcome = Ok(data: Option<seq<Feedback>>) | Err(status: int)

  /** `response.data || []`, and `[]` for any failure. */
  function FeedbackOf(o: Outcome): (r: seq<Feedback>)
    ensures o.Err? ==> r == []
    ensures o.Ok? && o.data.Some? ==> r == o.data.value
    ensures o.Ok? && o.data.None? ==> r == []
  {
    match o
    case Ok(data) => data.GetOr([])
    case Err(_) => []
  }

  /** `appts[i]` is the last of the first `n` appointments with its id. */
  ghost predicate LastWithId(appts: seq<Appointment>, i: int, n: int) {
    && 0 <= i < n <= |appts|
    && forall k :: i < k < n ==> appts[k].id != appts[i].id
  }

  /** The ids of a list of appointments, gathered front to back. */
  ghost function IdsOf(appts: seq<Appointment>): set<Id> {
    if appts == [] then {} else IdsOf(appts[..|appts| - 1]) + {appts[|appts| - 1].id}
  }

  lemma {:induction false} IdsOfAll(appts: seq<Appointment>)
    ensures IdsOf(appts) == set a | a in appts :: a.id
  {
    if appts != [] {
      var init := appts[..|appts| - 1];
      IdsOfAll(init);
      assert appts == init + [appts[|appts| - 1]];
    }
  }

  /** `m` maps the id of each of the first `n` appointments to the reply of
      the last of them carrying it. */
  ghost predicate Recorded(appts: seq<Appointment>, outcomes: seq<Outcome>, m: map<Id, seq<Feedback>>, n: int)
    requires 0 <= n <= |appts| && n <= |outcomes|
  {
    && m.Keys == IdsOf(appts[..n])
    && forall i :: LastWithId(appts, i, n) ==> appts[i].id in m && m[appts[i].id] == FeedbackOf(outcomes[i])
  }

  /** Recording the reply to the next appointment keeps `Recorded`. */
  lemma RecordNext(appts: seq<Appointment>, outcomes: seq<Outcome>, m: map<Id, seq<Feedback>>, n: int)
    requires 0 <= n < |appts| == |outcomes|
    requires Recorded(appts, outcomes, m, n)
    ensures Recorded(appts, outcomes, m[appts[n].id := FeedbackOf(outcomes[n])], n + 1)
  {
    assert appts[..n + 1][..n] == appts[..n];
    forall i | LastWithId(appts, i, n + 1) && i < n
      ensures LastWithId(appts, i, n)
    {
    }
  }

  /** `fetchFeedback`: with no appointments nothing is set. Otherwise the
      requests go out one after another, the `i`th reply being `outcomes[i]`,
      and the map that is set holds every appointment's id; when two
      appointments share an id the later reply wins. */
  method FetchFeedback(born: Born, outcomes: seq<Outcome>) returns (r: Option<map<Id, seq<Feedback>>>)
    requires |outcomes| == |born.appointments.GetOr([])|
    ensures r.None? <==> born.appointments.GetOr([]) == []
    ensures r.Some? ==> r.value.Keys == set a | a in born.appointments.value :: a.id
    ensures r.Some? ==> forall i :: LastWithId(born.appointments.value, i, |outcomes|) ==>
      r.value[born.appointments.value[i].id] == FeedbackOf(outcomes[i])
  {
    var appts := born.appointments.GetOr([]);
    if |appts| == 0 {
      return None;
    }
    var feedbacks: map<Id, seq<Feedback>> := map[];
    var n := 0;
    while n < |appts|
      invariant 0 <= n <= |appts|
      invariant Recorded(appts, outcomes, feedbacks, n)
    {
      RecordNext(appts, outcomes, feedbacks, n);
      feedbacks := feedbacks[appts[n].id := FeedbackOf(outcomes[n])];
      n := n + 1;
    }
    assert appts[..n] == appts;
    IdsOfAll(appts);
    return Some(feedbacks);
  }

  /** The example of two appointments whose first request fails: the first
      maps to no feedback and the second to what its reply carried. */
  method FeedbackExample(info: Info, data: seq<Feedback>) returns (r: Option<map<Id, seq<Feedback>>>)
    ensures r == Some(map["A1" := [], "A2" := data])
  {
    var a1 := Appointment("A1", None, "", "", "", "");
    var a2 := Appointment("A2", None, "", "", "", "");
    var born := Born(Some("B"), info, 0, [], Some([a1, a2]), None);
    r := FetchFeedback(born, [Err(500), Ok(Some(data))]);
    assert LastWithId([a1, a2], 0, 2) && LastWithId([a1, a2], 1, 2);
    assert r.value.Keys == {"A1", "A2"};
    var expected := map["A1" := [], "A2" := data];
    assert r.value == expected;
  }

  // ---------------------------------------------------------------------------
  // Babies of the current record
  // ---------------------------------------------------------------------------

  /** `handleUpdateBaby`: every baby whose id equals the updated baby's is
      replaced by it (two babies without an id count as equal); the rest of
      the record stays. */
  function ReplaceBabyById(b: Born, updated: Baby): (r: Born)
    ensures |r.babies| == |b.babies|
    ensures forall i :: 0 <= i < |b.babies| ==>
      r.babies[i] == (if b.babies[i].id == updated.id then updated else b.babies[i])
    ensures r.(babies := b.babies) == b
  {
    b.(babies := seq(|b.babies|, i requires 0 <= i < |b.babies| =>
      if b.babies[i].id == updated.id then updated else b.babies[i]))
  }

  /** Replacing by the same baby twice is replacing once, and a baby whose
      id no baby carries changes nothing. */
  lemma ReplaceBabyLaws(b: Born, updated: Baby)
    ensures ReplaceBabyById(ReplaceBabyById(b, updated), updated) == ReplaceBabyById(b, updated)
    ensures (forall i :: 0 <= i < |b.babies| ==> b.babies[i].id != updated.id) ==> ReplaceBabyById(b, updated) == b
  {
  }

  /** Replacing keeps the count invariant, and afterwards the updated baby is
      the one found under its id. */
  lemma ReplaceBabyKeepsCount(b: Born, updated: Baby)
    requires CountConsistent(b)
    ensures CountConsistent(ReplaceBabyById(b, updated))
    ensures forall i :: 0 <= i < |b.babies| && b.babies[i].id == updated.id ==> ReplaceBabyById(b, updated).babies[i] == updated
  {
  }

  /** `handleAddBaby`: the new baby is appended and the count goes up. */
  function AppendBaby(b: Born, newBaby: Baby): (r: Born)
    ensures |r.babies| == |b.babies| + 1 && r.babies[..|b.babies|] == b.babies
    ensures r.babies[|b.babies|] == newBaby
    ensures r.babyCount == b.babyCount + 1
    ensures r.(babies := b.babies, babyCount := b.babyCount) == b
  {
    b.(babies := b.babies + [newBaby], babyCount := b.babyCount + 1)
  }

  /** The detail view's baby edit as written: after the service accepts the
      edited baby, the reply goes to `handleAddBaby`, so a record that already
      holds that baby gains a second copy of it and its count goes up, where
      replacing it by id keeps one copy and the count. */
  lemma DetailEditAppendsCopy(b: Born, i: int, edited: Baby)
    requires CountConsistent(b) && 0 <= i < |b.babies| && b.babies[i].id == edited.id
    ensures var r := AppendBaby(b, edited);
      && |r.babies| == |b.babies| + 1 && r.babyCount == b.babyCount + 1
      && r.babies[i] == b.babies[i] && r.babies[|b.babies|] == edited
      && r.babies[i].id == r.babies[|b.babies|].id
      && r != ReplaceBabyById(b, edited)
    ensures var fixed := ReplaceBabyById(b, edited);
      && |fixed.babies| == |b.babies| && fixed.babyCount == b.babyCount
      && fixed.babies[i] == edited
  {
  }

  /** Appending keeps the count equal to the number of babies, and then
      removing the appended baby restores the record. */
  lemma AppendBabyKeepsCount(b: Born, newBaby: Baby)
    requires CountConsistent(b)
    ensures CountConsistent(AppendBaby(b, newBaby))
    ensures var r := AppendBaby(b, newBaby);
      r.(babies := RemoveIndex(r.babies, |b.babies|), babyCount := r.babyCount - 1) == b
  {
    RemoveLastAppended(b.babies, newBaby);
  }

  // ---------------------------------------------------------------------------
  // Appointments of one baby
  // ---------------------------------------------------------------------------

  function AppointmentOf(babyId: Option<Id>): Appointment -> bool {
    (a: Appointment) => a.babyId == babyId
  }

  /** The appointments listed under one baby: those carrying its id, in
      their order. */
  function AppointmentsForBaby(appts: seq<Appointment>, babyId: Option<Id>): (r: seq<Appointment>)
    ensures forall i :: 0 <= i < |r| ==> r[i].babyId == babyId && r[i] in appts
    ensures forall i :: 0 <= i < |appts| && appts[i].babyId == babyId ==> appts[i] in r
    ensures IsSubsequence(r, appts)
  {
    Filter(appts, AppointmentOf(babyId))
  }

  /** Every appointment is listed under exactly one baby id: the lists for
      the distinct ids an appointment list mentions together hold each
      appointment as often as the whole list does. */
  lemma AppointmentsSplitByBaby(appts: seq<Appointment>, a: Appointment, other: Option<Id>)
    requires other != a.babyId
    ensures multiset(AppointmentsForBaby(appts, a.babyId))[a] == multiset(appts)[a]
    ensures a !in AppointmentsForBaby(appts, other)
  {
    FilterMultiset(appts, AppointmentOf(a.babyId));
  }
}
