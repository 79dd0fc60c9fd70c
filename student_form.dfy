/**
 * The add/edit student dialog (components/admin/StudentModal.tsx): name and
 * registration number are required, empty optional fields are stored as
 * absent.
 */
module StudentForm {
  import opened Types

  /** The dialog's fields; the photo is the preview URL, if any. */
  datatype Fields = Fields(name: string, regNo: string, className: ClassLevel,
                           address: string, parentPhone: string, imagePreview: Option<string>)

  /** `value || ''`. */
  function OrEmpty(v: Option<string>): (s: string)
    ensures v.None? ==> s == ""
    ensures v.Some? ==> s == v.value
  {
    if v.Some? then v.value else ""
  }

  /** `value || undefined`: the empty string is stored as absent. */
  function OrUndefined(s: string): (v: Option<string>)
    ensures v.None? <==> s == ""
    ensures v.Some? ==> v.value == s
  {
    if s == "" then None else Some(s)
  }

  /** An optional field survives the dialog unless it held the empty string. */
  lemma OptionalFieldRoundTrip(v: Option<string>)
    ensures OrUndefined(OrEmpty(v)) == if v == Some("") then None else v
  {
  }

  /** A new dialog starts empty on the first class; an edited record is loaded by the effect. */
  function Prefill(studentToEdit: Option<StudentRecord>): (f: Fields)
    ensures studentToEdit.None? ==> f == Fields("", "", JSS1, "", "", None)
    ensures studentToEdit.Some? ==>
      var s := studentToEdit.value;
      f == Fields(s.name, s.regNo, s.classLevel, OrEmpty(s.address), OrEmpty(s.parentPhone),
                  if s.photo == Some("") then None else s.photo)
  {
    match studentToEdit
    case None => Fields("", "", JSS1, "", "", None)
    case Some(s) =>
      Fields(s.name, s.regNo, s.classLevel, OrEmpty(s.address), OrEmpty(s.parentPhone),
             if s.photo.Some? && s.photo.value != "" then s.photo else None)
  }

  datatype Outcome = Refused | Edited(updated: StudentRecord) | Added(created: StudentRecord)

  /**
   * `handleSubmit`: a missing name or registration number is refused; an
   * edit keeps the record's id; a new record takes `freshId`, which stands
   * for `crypto.randomUUID()`.
   */
  function Submit(studentToEdit: Option<StudentRecord>, f: Fields, freshId: string): (r: Outcome)
    ensures r.Refused? <==> f.name == "" || f.regNo == ""
    ensures r.Edited? <==> f.name != "" && f.regNo != "" && studentToEdit.Some?
    ensures !r.Refused? ==>
      var s := if r.Edited? then r.updated else r.created;
      s.name == f.name && s.regNo == f.regNo && s.classLevel == f.className &&
      s.address == OrUndefined(f.address) && s.parentPhone == OrUndefined(f.parentPhone) &&
      s.photo == (if f.imagePreview.Some? && f.imagePreview.value != "" then f.imagePreview else None)
    ensures r.Edited? ==> r.updated.id == studentToEdit.value.id
    ensures r.Added? ==> r.created.id == freshId
  {
    if f.name == "" || f.regNo == "" then Refused
    else
      var photo := if f.imagePreview.Some? && f.imagePreview.value != "" then f.imagePreview else None;
      var address, phone := OrUndefined(f.address), OrUndefined(f.parentPhone);
      match studentToEdit
      case Some(s) => Edited(s.(name := f.name, regNo := f.regNo, classLevel := f.className,
                                address := address, parentPhone := phone, photo := photo))
      case None => Added(StudentRecord(freshId, f.name, f.regNo, f.className, address, phone, photo))
  }

  /**
   * Opening a record and submitting unchanged hands back that record, up to
   * optional fields that held the empty string, which come back absent.
   */
  lemma EditUnchangedRoundTrip(s: StudentRecord, freshId: string)
    requires s.name != "" && s.regNo != ""
    ensures Submit(Some(s), Prefill(Some(s)), freshId) == Edited(s.(
      address := if s.address == Some("") then None else s.address,
      parentPhone := if s.parentPhone == Some("") then None else s.parentPhone,
      photo := if s.photo == Some("") then None else s.photo))
  {
  }

  class Dialog {
    const studentToEdit: Option<StudentRecord>
    var name: string
    var regNo: string
    var className: ClassLevel
    var address: string
    var parentPhone: string
    var imagePreview: Option<string>
    var notification: Option<Notice>
    var closed: bool

    function Current(): Fields
      reads this
    {
      Fields(name, regNo, className, address, parentPhone, imagePreview)
    }

    constructor (toEdit: Option<StudentRecord>)
      ensures studentToEdit == toEdit && Current() == Prefill(toEdit)
      ensures notification == None && !closed
    {
      studentToEdit := toEdit;
      match toEdit {
        case None =>
          name, regNo, className, address, parentPhone, imagePreview := "", "", JSS1, "", "", None;
        case Some(s) =>
          name, regNo, className := s.name, s.regNo, s.classLevel;
          address := if s.address.Some? then s.address.value else "";
          parentPhone := if s.parentPhone.Some? then s.parentPhone.value else "";
          imagePreview := if s.photo.Some? && s.photo.value != "" then s.photo else None;
      }
      notification := None;
      closed := false;
    }

    /**
     * `handleFileChange`: a chosen file replaces the preview; `previewUrl`
     * stands for `URL.createObjectURL(file)`, and no file changes nothing.
     */
    method FileChange(previewUrl: Option<string>)
      modifies this
      ensures imagePreview == if previewUrl.Some? then previewUrl else old(imagePreview)
      ensures name == old(name) && regNo == old(regNo) && className == old(className)
      ensures address == old(address) && parentPhone == old(parentPhone)
      ensures notification == old(notification) && closed == old(closed)
    {
      if previewUrl.Some? {
        imagePreview := previewUrl;
      }
    }

    /** `handleSubmit`: on success the record goes to `onEditStudent` or `onAddStudent` and the dialog closes. */
    method HandleSubmit(freshId: string) returns (outcome: Outcome)
      modifies this
      ensures outcome == Submit(studentToEdit, old(Current()), freshId)
      ensures outcome.Refused? ==> notification == Some(Notice("Error", Error)) && closed == old(closed)
      ensures !outcome.Refused? ==> notification == old(notification) && closed
      ensures Current() == old(Current())
    {
      if name == "" || regNo == "" {
        notification := Some(Notice("Error", Error));
        return Refused;
      }
      var photo := if imagePreview.Some? && imagePreview.value != "" then imagePreview else None;
      var addressOut := if address == "" then None else Some(address);
      var phoneOut := if parentPhone == "" then None else Some(parentPhone);
      match studentToEdit {
        case Some(s) =>
          outcome := Edited(s.(name := name, regNo := regNo, classLevel := className,
                               address := addressOut, parentPhone := phoneOut, photo := photo));
        case None =>
          outcome := Added(StudentRecord(freshId, name, regNo, className, addressOut, phoneOut, photo));
      }
      closed := true;
    }
  }
}
