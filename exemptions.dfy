/**
 * The register of exemptions and extensions granted to vessels: a list of
 * records with numeric ids, one form used both to add a record and to edit
 * the record being edited, and deletion on confirmation.
 */
module Exemptions {
  import opened Wrappers
  import opened Collections

  datatype ReliefType = Exemption | Extension
  datatype ReliefStatus = Pending | Approved | Rejected | Expired

  datatype ExemptionRecord = ExemptionRecord(
    id: int,
    vesselName: string,
    imoNumber: string,
    kind: ReliefType,
    description: string,
    validFrom: string,
    validTo: string,
    status: ReliefStatus,
    remarks: Option<string>)

  /** The form: every field of a record but its id, with remarks always a string. */
  datatype ExemptionForm = ExemptionForm(
    vesselName: string,
    imoNumber: string,
    kind: ReliefType,
    description: string,
    validFrom: string,
    validTo: string,
    status: ReliefStatus,
    remarks: string)

  /** The form's free-text inputs, by their `name` attribute. */
  datatype TextField = VesselName | ImoNumber | Description | ValidFrom | ValidTo | Remarks

  /** One change event: a text input, or one of the two selects. */
  datatype FormEdit =
    | SetText(field: TextField, text: string)
    | SetKind(kind: ReliefType)
    | SetStatus(status: ReliefStatus)

  const EmptyForm := ExemptionForm("", "", Exemption, "", "", "", Pending, "")

  /** The two records the register starts with. */
  const InitialRecords: seq<ExemptionRecord> := [
    ExemptionRecord(1, "Caribbean Queen", "9876543", Exemption,
      "Exemption from carriage of fast rescue boat due to limited service area around Jamaica.",
      "2025-01-01", "2026-01-01", Approved, Some("Subject to annual verification.")),
    ExemptionRecord(2, "Kingston Star", "8765432", Extension,
      "Dry dock / load line extension to allow voyage to approved yard.",
      "2024-11-15", "2025-02-15", Approved, Some("PSC to be informed if trading outside Caribbean."))
  ]

  function RecordId(r: ExemptionRecord): int { r.id }

  function TextOf(form: ExemptionForm, field: TextField): string {
    match field
    case VesselName => form.vesselName
    case ImoNumber => form.imoNumber
    case Description => form.description
    case ValidFrom => form.validFrom
    case ValidTo => form.validTo
    case Remarks => form.remarks
  }

  /** `handleChange`: the named field takes the new value and every other field keeps its own. */
  function ApplyEdit(form: ExemptionForm, edit: FormEdit): (r: ExemptionForm)
    ensures edit.SetText? ==>
      && TextOf(r, edit.field) == edit.text
      && (forall f :: f != edit.field ==> TextOf(r, f) == TextOf(form, f))
      && r.kind == form.kind && r.status == form.status
    ensures edit.SetKind? ==>
      r.kind == edit.kind && r.status == form.status && forall f :: TextOf(r, f) == TextOf(form, f)
    ensures edit.SetStatus? ==>
      r.status == edit.status && r.kind == form.kind && forall f :: TextOf(r, f) == TextOf(form, f)
  {
    match edit
    case SetKind(k) => form.(kind := k)
    case SetStatus(s) => form.(status := s)
    case SetText(field, v) =>
      match field
      case VesselName => form.(vesselName := v)
      case ImoNumber => form.(imoNumber := v)
      case Description => form.(description := v)
      case ValidFrom => form.(validFrom := v)
      case ValidTo => form.(validTo := v)
      case Remarks => form.(remarks := v)
  }

  /** The inputs `handleSubmit` insists on. */
  const RequiredFields := {VesselName, ImoNumber, Description}

  const MissingFieldsAlert := "Vessel name, IMO number and description are required."

  /** The required fields are filled in; the blank form never is. */
  predicate IsComplete(form: ExemptionForm)
    ensures IsComplete(form) <==> forall f :: f in RequiredFields ==> TextOf(form, f) != ""
    ensures IsComplete(form) ==> form != EmptyForm
  {
    form.vesselName != "" && form.imoNumber != "" && form.description != ""
  }

  /** `Math.max(...records.map(r => r.id))`. */
  function MaxId(records: seq<ExemptionRecord>): (m: int)
    requires records != []
    ensures forall i :: 0 <= i < |records| ==> records[i].id <= m
    ensures exists i :: 0 <= i < |records| && records[i].id == m
  {
    if |records| == 1 then records[0].id
    else
      var rest := MaxId(records[1..]);
      if records[0].id >= rest then records[0].id else rest
  }

  /** The id a new record gets: 1 in an empty register, else one more than the largest id. */
  function NextId(records: seq<ExemptionRecord>): (r: int)
    ensures records == [] ==> r == 1
    ensures records != [] ==> r - 1 == MaxId(records)
    ensures forall i :: 0 <= i < |records| ==> records[i].id < r
  {
    if records == [] then 1 else MaxId(records) + 1
  }

  /** The new record: the given id and the form's fields, remarks included. */
  function FromForm(id: int, form: ExemptionForm): (r: ExemptionRecord)
    ensures r.id == id && r.remarks.Some? && FormOf(r) == form
  {
    ExemptionRecord(id, form.vesselName, form.imoNumber, form.kind, form.description,
      form.validFrom, form.validTo, form.status, Some(form.remarks))
  }

  /** `{ ...r, ...form }`: the form's fields over the record, which keeps its id. */
  function WithForm(r: ExemptionRecord, form: ExemptionForm): (w: ExemptionRecord)
    ensures w.id == r.id && FormOf(w) == form
  {
    FromForm(r.id, form)
  }

  /** `handleEdit`'s copy of a record into the form; missing remarks become "". */
  function FormOf(r: ExemptionRecord): (f: ExemptionForm)
    ensures f.vesselName == r.vesselName && f.imoNumber == r.imoNumber && f.description == r.description
    ensures f.kind == r.kind && f.status == r.status && f.validFrom == r.validFrom && f.validTo == r.validTo
    ensures r.remarks.Some? ==> f.remarks == r.remarks.value
    ensures r.remarks.None? ==> f.remarks == ""
  {
    ExemptionForm(r.vesselName, r.imoNumber, r.kind, r.description, r.validFrom, r.validTo,
      r.status, if r.remarks.Some? then r.remarks.value else "")
  }

  /** The records after a valid submit: prepend a new record, or update the one being edited. */
  function Submitted(records: seq<ExemptionRecord>, editingId: Option<int>, form: ExemptionForm): (r: seq<ExemptionRecord>)
    ensures |r| == |records| + (if editingId.None? then 1 else 0)
    ensures forall k :: HasKey(r, RecordId, k) <==>
      HasKey(records, RecordId, k) || (editingId.None? && k == NextId(records))
  {
    if editingId.None? then
      HasKeyPrepend(FromForm(NextId(records), form), records, RecordId);
      [FromForm(NextId(records), form)] + records
    else UpdateWhere(records, RecordId, editingId.value, r => WithForm(r, form))
  }

  /** `records.filter(r => r.id !== id)`. */
  function Removed(records: seq<ExemptionRecord>, id: int): (r: seq<ExemptionRecord>)
    ensures |r| <= |records| && !HasKey(r, RecordId, id)
    ensures forall k :: k != id ==> (HasKey(r, RecordId, k) <==> HasKey(records, RecordId, k))
  {
    RemoveWhere(records, RecordId, id)
  }

  /** A new record's id is used by no existing record, so adding keeps ids distinct. */
  lemma AddKeepsIdsDistinct(records: seq<ExemptionRecord>, form: ExemptionForm)
    requires DistinctKeys(records, RecordId)
    ensures !HasKey(records, RecordId, NextId(records))
    ensures DistinctKeys(Submitted(records, None, form), RecordId)
  {
    PrependKeepsDistinct(records, RecordId, FromForm(NextId(records), form));
  }

  /**
   * Adding prepends: one more record, the new one first with the next id and
   * the form's fields, the old ones after it in their order.
   */
  lemma AddPrepends(records: seq<ExemptionRecord>, form: ExemptionForm)
    ensures var r := Submitted(records, None, form);
      && |r| == |records| + 1
      && r[0].id == NextId(records) && FormOf(r[0]) == form
      && r[1..] == records
  {
  }

  /**
   * Updating keeps the length and every id; the record being edited takes
   * the form's fields and every other record is untouched.
   */
  lemma UpdateTouchesOnlyEdited(records: seq<ExemptionRecord>, editingId: int, form: ExemptionForm)
    ensures var r := Submitted(records, Some(editingId), form);
      && |r| == |records|
      && (forall i :: 0 <= i < |r| ==> r[i].id == records[i].id)
      && (forall i :: 0 <= i < |r| && records[i].id == editingId ==> FormOf(r[i]) == form)
      && (forall i :: 0 <= i < |r| && records[i].id != editingId ==> r[i] == records[i])
      && (DistinctKeys(records, RecordId) ==> DistinctKeys(r, RecordId))
  {
    var r := Submitted(records, Some(editingId), form);
    forall i | 0 <= i < |r|
      ensures r[i].id == records[i].id
    {
    }
  }

  /** Deleting removes every record with the id, keeps the others in order, and keeps ids distinct. */
  lemma DeleteRemovesExactly(records: seq<ExemptionRecord>, i: int)
    requires DistinctKeys(records, RecordId) && 0 <= i < |records|
    ensures Removed(records, records[i].id) == records[..i] + records[i + 1..]
    ensures DistinctKeys(Removed(records, records[i].id), RecordId)
  {
    RemoveWhereUnique(records, RecordId, i);
    RemoveWhereKeepsDistinct(records, RecordId, records[i].id, RecordId);
  }

  /** Editing a record and submitting the form untouched gives the register back unchanged. */
  lemma EditThenSubmitUnchanged(records: seq<ExemptionRecord>, i: int)
    requires DistinctKeys(records, RecordId) && 0 <= i < |records|
    requires records[i].remarks.Some?
    ensures Submitted(records, Some(records[i].id), FormOf(records[i])) == records
  {
    var form := FormOf(records[i]);
    var r := Submitted(records, Some(records[i].id), form);
    forall j | 0 <= j < |records|
      ensures r[j] == records[j]
    {
      if records[j].id == records[i].id {
        assert j == i;
      }
    }
  }

  /** What an edit shows in the form is exactly what the last submit of that form wrote. */
  lemma EditShowsSubmittedForm(r: ExemptionRecord, form: ExemptionForm)
    ensures FormOf(WithForm(r, form)) == form && WithForm(r, form).id == r.id
  {
  }

  /** The register's state: the records, the id being edited (if any) and the form. */
  class ExemptionRegister {
    var records: seq<ExemptionRecord>
    var editingId: Option<int>
    var form: ExemptionForm

    /** Record ids are pairwise distinct. */
    ghost predicate Valid()
      reads this
    {
      DistinctKeys(records, RecordId)
    }

    constructor ()
      ensures Valid()
      ensures records == InitialRecords && editingId == None && form == EmptyForm
    {
      records := InitialRecords;
      editingId := None;
      form := EmptyForm;
    }

    /** `resetForm`: blank form, out of edit mode; the records stay. */
    method ResetForm()
      modifies this`form, this`editingId
      ensures form == EmptyForm && editingId == None
    {
      form := EmptyForm;
      editingId := None;
    }

    /** `handleChange`. */
    method HandleChange(edit: FormEdit)
      modifies this`form
      ensures form == ApplyEdit(old(form), edit)
    {
      form := ApplyEdit(form, edit);
    }

    /**
     * `handleSubmit`: an incomplete form raises the alert and
     * changes nothing; otherwise the record is added or updated and the
     * form is reset.
     */
    method HandleSubmit() returns (alert: Option<string>)
      requires Valid()
      modifies this`records, this`form, this`editingId
      ensures Valid()
      ensures alert.Some? <==> !IsComplete(old(form))
      ensures alert.Some? ==> alert.value == MissingFieldsAlert
      ensures alert.Some? ==> records == old(records) && form == old(form) && editingId == old(editingId)
      ensures alert.None? ==> records == Submitted(old(records), old(editingId), old(form))
      ensures alert.None? ==> form == EmptyForm && editingId == None
    {
      if !IsComplete(form) {
        return Some(MissingFieldsAlert);
      }
      if editingId.None? {
        AddKeepsIdsDistinct(records, form);
      } else {
        UpdateTouchesOnlyEdited(records, editingId.value, form);
      }
      records := Submitted(records, editingId, form);
      ResetForm();
      alert := None;
    }

    /** `handleEdit`: enter edit mode for the record and copy it into the form. */
    method HandleEdit(r: ExemptionRecord)
      modifies this`form, this`editingId
      ensures editingId == Some(r.id) && form == FormOf(r)
    {
      editingId := Some(r.id);
      form := FormOf(r);
    }

    /**
     * `handleDelete`: declined, nothing changes; confirmed, the records with
     * the id go, and edit mode ends if that record was being edited.
     */
    method HandleDelete(id: int, confirmed: bool)
      requires Valid()
      modifies this`records, this`form, this`editingId
      ensures Valid()
      ensures !confirmed ==> records == old(records) && form == old(form) && editingId == old(editingId)
      ensures confirmed ==> records == Removed(old(records), id)
      ensures confirmed && old(editingId) == Some(id) ==> form == EmptyForm && editingId == None
      ensures confirmed && old(editingId) != Some(id) ==> form == old(form) && editingId == old(editingId)
    {
      if !confirmed {
        return;
      }
      RemoveWhereKeepsDistinct(records, RecordId, id, RecordId);
      records := Removed(records, id);
      if editingId == Some(id) {
        ResetForm();
      }
    }
  }
}
