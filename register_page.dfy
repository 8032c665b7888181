/** The case registration form: the list of evidence files the user has picked, the
    form's validation schema, and what a submit sends. */
module RegisterPage {
  import opened Common
  import opened Store
  import FrontendUtils

  // ----- handleDocumentChange -----

  /** What the page reads of a picked file: its name, its MIME type and its size. */
  datatype PickedFile = PickedFile(name: string, mimeType: string, size: nat)

  const ValidTypes: seq<string> := [
    "image/jpeg", "image/png", "image/gif", "video/mp4", "video/avi", "video/mov",
    "audio/mp3", "audio/wav", "audio/m4a", "application/pdf"]

  const MaxSize: nat := 10 * 1024 * 1024

  const MaxDocuments: nat := 10

  /** The filter callback: the type is tested before the size, and a refused file gets
      its own message. */
  function FileProblem(f: PickedFile): Option<string> {
    if f.mimeType !in ValidTypes then Some(f.name + ": Invalid file type")
    else if f.size > MaxSize then Some(f.name + ": File too large (max 10MB)")
    else None
  }

  predicate Accepted(f: PickedFile) {
    FileProblem(f).None?
  }

  /** A file is kept exactly when its type is one of the ten and it is at most 10 MB. */
  lemma AcceptedFiles(f: PickedFile)
    ensures Accepted(f) <==> f.mimeType in ValidTypes && f.size <= 10485760
    ensures f.mimeType !in ValidTypes ==> FileProblem(f) == Some(f.name + ": Invalid file type")
  {
  }

  /** `files.filter(...)`: the accepted files of a batch, in the order they were picked. */
  function ValidFiles(files: seq<PickedFile>): (r: seq<PickedFile>)
    ensures |r| <= |files|
    ensures forall k :: 0 <= k < |r| ==> Accepted(r[k]) && r[k] in files
    decreases |files|
  {
    if files == [] then []
    else ValidFiles(files[..|files| - 1]) + (if Accepted(files[|files| - 1]) then [files[|files| - 1]] else [])
  }

  /** The messages the refused files raise, in order. */
  function Rejections(files: seq<PickedFile>): seq<string>
    decreases |files|
  {
    if files == [] then []
    else
      var last := FileProblem(files[|files| - 1]);
      Rejections(files[..|files| - 1]) + (if last.Some? then [last.value] else [])
  }

  /** Filtering a batch filters each part of it, so the kept files stay in the order
      they were picked. */
  lemma {:induction false} ValidFilesKeepOrder(a: seq<PickedFile>, b: seq<PickedFile>)
    ensures ValidFiles(a + b) == ValidFiles(a) + ValidFiles(b)
    decreases |b|
  {
    if b == [] {
      assert a + b == a;
    } else {
      var ab := a + b;
      assert ab[..|ab| - 1] == a + b[..|b| - 1];
      assert ab[|ab| - 1] == b[|b| - 1];
      ValidFilesKeepOrder(a, b[..|b| - 1]);
    }
  }

  /** Every accepted file of the batch is kept. */
  lemma {:induction false} ValidFilesComplete(files: seq<PickedFile>)
    ensures forall f :: f in files && Accepted(f) ==> f in ValidFiles(files)
    decreases |files|
  {
    if files != [] {
      var init := files[..|files| - 1];
      ValidFilesComplete(init);
      assert files == init + [files[|files| - 1]];
    }
  }

  /** The new list after a batch: refused as a whole when it would pass ten files,
      otherwise the accepted ones after the existing ones. */
  function AddBatch(documents: seq<PickedFile>, files: seq<PickedFile>): seq<PickedFile> {
    if |documents| + |ValidFiles(files)| > MaxDocuments then documents else documents + ValidFiles(files)
  }

  /** The batch rule: the existing files always stay first, the batch is taken exactly
      when the total stays within ten, and so a list within ten stays within ten. */
  lemma AddBatchRule(documents: seq<PickedFile>, files: seq<PickedFile>)
    ensures AddBatch(documents, files)[..|documents|] == documents
    ensures AddBatch(documents, files) == documents + ValidFiles(files) <==> |documents| + |ValidFiles(files)| <= 10 || ValidFiles(files) == []
    ensures |documents| <= MaxDocuments ==> |AddBatch(documents, files)| <= MaxDocuments
    ensures forall f :: f in AddBatch(documents, files) ==> f in documents || (f in files && Accepted(f))
  {
    if ValidFiles(files) == [] {
      assert documents + ValidFiles(files) == documents;
    }
  }

  // ----- removeDocument -----

  /** `prev.filter((_, i) => i !== index)` */
  function WithoutIndex(s: seq<PickedFile>, index: int): seq<PickedFile>
    decreases |s|
  {
    if s == [] then []
    else WithoutIndex(s[..|s| - 1], index) + (if |s| - 1 != index then [s[|s| - 1]] else [])
  }

  /** Dropping an index inside the list takes out exactly that entry and keeps the others
      in order; any other index keeps the list. */
  lemma {:induction false} WithoutIndexShape(s: seq<PickedFile>, index: int)
    ensures 0 <= index < |s| ==> WithoutIndex(s, index) == s[..index] + s[index + 1..]
    ensures !(0 <= index < |s|) ==> WithoutIndex(s, index) == s
    decreases |s|
  {
    if s != [] {
      var init := s[..|s| - 1];
      var last := s[|s| - 1];
      WithoutIndexShape(init, index);
      if index == |s| - 1 {
        assert s[..index] == init;
        assert s[index + 1..] == [];
      } else if 0 <= index < |s| - 1 {
        assert init[..index] == s[..index];
        assert init[index + 1..] + [last] == s[index + 1..];
      } else {
        assert init + [last] == s;
      }
    }
  }

  /** The page's `documents` state. */
  class DocumentList {
    var documents: seq<PickedFile>

    /** At most ten files, each of an allowed type and size. */
    predicate Valid()
      reads this
    {
      |documents| <= MaxDocuments && forall k :: 0 <= k < |documents| ==> Accepted(documents[k])
    }

    constructor()
      ensures Valid() && documents == []
    {
      documents := [];
    }

    /** `handleDocumentChange`: `toasts` are the error messages it raises, in order. */
    method AddDocuments(files: seq<PickedFile>) returns (toasts: seq<string>)
      requires Valid()
      modifies this
      ensures Valid()
      ensures documents == AddBatch(old(documents), files)
      ensures toasts == Rejections(files) +
        (if |old(documents)| + |ValidFiles(files)| > MaxDocuments then ["Maximum 10 files allowed"] else [])
    {
      var valid := ValidFiles(files);
      toasts := Rejections(files);
      if |documents| + |valid| > MaxDocuments {
        toasts := toasts + ["Maximum 10 files allowed"];
        return;
      }
      documents := documents + valid;
    }

    /** `removeDocument(index)` */
    method RemoveDocument(index: int)
      requires Valid()
      modifies this
      ensures Valid()
      ensures documents == WithoutIndex(old(documents), index)
    {
      WithoutIndexShape(documents, index);
      documents := WithoutIndex(documents, index);
      if 0 <= index < |old(documents)| {
        assert forall k :: 0 <= k < |documents| ==> documents[k] == old(documents)[if k < index then k else k + 1];
      }
    }
  }

  // ----- the schema -----

  /** The form's values. The always-rendered inputs give a string (empty when left
      blank); the court inputs are rendered only for a case pending in court, so they
      may be missing. */
  datatype CaseForm = CaseForm(
    caseType: string, issueDescription: string,
    oppositeName: string, oppositeEmail: string, oppositePhone: string, oppositeAddress: string,
    isCourtPending: bool,
    caseNumber: Option<string>, firNumber: Option<string>, courtPoliceStation: Option<string>)

  const CaseTypes: seq<string> := ["FAMILY", "BUSINESS", "CRIMINAL", "PROPERTY", "OTHER"]

  /** `string().required()`: present and not empty. */
  predicate Required(v: Option<string>) {
    NonEmpty(v).Some?
  }

  /** The fields whose rule depends on `isCourtPending`. */
  predicate CourtFieldsValid(f: CaseForm) {
    f.isCourtPending ==> Required(f.caseNumber) && Required(f.courtPoliceStation)
  }

  /** The whole schema. `isEmail` is the library's address test, which skips a blank
      value; the phone pattern has no such exemption, so a blank phone is tested too. */
  predicate SchemaValid(f: CaseForm, isEmail: string -> bool) {
    && f.caseType in CaseTypes
    && 50 <= |f.issueDescription| <= 2000
    && |f.oppositeName| >= 2
    && (f.oppositeEmail == [] || isEmail(f.oppositeEmail))
    && FrontendUtils.ValidatePhone(f.oppositePhone)
    && CourtFieldsValid(f)
  }

  /** A valid form has one of the five case types and a description of 50 to 2000
      characters; the case number and the court or police station are demanded exactly
      when the case is pending in court, and otherwise never looked at. */
  lemma SchemaRules(f: CaseForm, isEmail: string -> bool, number: Option<string>, station: Option<string>)
    ensures SchemaValid(f, isEmail) ==> CaseTypeOf(f.caseType).Some? && 50 <= |f.issueDescription| <= 2000
    ensures SchemaValid(f.(isCourtPending := true), isEmail) <==>
      SchemaValid(f.(isCourtPending := false), isEmail) && Required(f.caseNumber) && Required(f.courtPoliceStation)
    ensures !f.isCourtPending ==>
      (SchemaValid(f, isEmail) <==> SchemaValid(f.(caseNumber := number, courtPoliceStation := station), isEmail))
  {
  }

  /** Leaving the phone blank fails the pattern, while a blank email passes. */
  lemma BlankPhoneRefused(f: CaseForm, isEmail: string -> bool)
    ensures f.oppositePhone == [] ==> !SchemaValid(f, isEmail)
    ensures f.oppositeEmail == [] && SchemaValid(f.(oppositeEmail := "x"), isEmail) ==> SchemaValid(f, isEmail)
  {
  }

  // ----- onSubmit -----

  /** The multipart field names the form sends. */
  datatype FieldKey =
    | CaseTypeKey | DescriptionKey | NameKey | EmailKey | PhoneKey | AddressKey
    | CourtPendingKey | CaseNumberKey | FirNumberKey | StationKey

  function KeyName(k: FieldKey): string {
    match k
    case CaseTypeKey => "caseType"
    case DescriptionKey => "issueDescription"
    case NameKey => "oppositeParty[name]"
    case EmailKey => "oppositeParty[email]"
    case PhoneKey => "oppositeParty[phone]"
    case AddressKey => "oppositeParty[address]"
    case CourtPendingKey => "isCourtPending"
    case CaseNumberKey => "caseNumber"
    case FirNumberKey => "firNumber"
    case StationKey => "courtPoliceStation"
  }

  /** The order in which `onSubmit` appends the fields. */
  const AppendOrder: seq<FieldKey> :=
    [CaseTypeKey, DescriptionKey, NameKey, EmailKey, PhoneKey, AddressKey,
     CourtPendingKey, CaseNumberKey, FirNumberKey, StationKey]

  /** What `onSubmit` appends under a name: the required fields always, the optional
      ones, `if (value) formData.append(...)`, only when they are not blank. */
  function FieldValue(f: CaseForm, k: FieldKey): Option<string> {
    match k
    case CaseTypeKey => Some(f.caseType)
    case DescriptionKey => Some(f.issueDescription)
    case NameKey => Some(f.oppositeName)
    case EmailKey => NonEmpty(Some(f.oppositeEmail))
    case PhoneKey => NonEmpty(Some(f.oppositePhone))
    case AddressKey => NonEmpty(Some(f.oppositeAddress))
    case CourtPendingKey => Some(if f.isCourtPending then "true" else "false")
    case CaseNumberKey => NonEmpty(f.caseNumber)
    case FirNumberKey => NonEmpty(f.firNumber)
    case StationKey => NonEmpty(f.courtPoliceStation)
  }

  /** The fields appended for `keys`, in that order. */
  function SentFields(f: CaseForm, keys: seq<FieldKey>): seq<(FieldKey, string)>
    decreases |keys|
  {
    if keys == [] then []
    else (match FieldValue(f, keys[0]) case Some(v) => [(keys[0], v)] case None => []) + SentFields(f, keys[1..])
  }

  /** The multipart fields of the request. */
  function FormFields(f: CaseForm): seq<(FieldKey, string)> {
    SentFields(f, AppendOrder)
  }

  /** A field goes out under one of the names asked for exactly when it has a value, and
      with that value; the fields keep the order of the names. */
  lemma {:induction false} SentFieldsContents(f: CaseForm, keys: seq<FieldKey>, k: FieldKey, v: string)
    ensures (k, v) in SentFields(f, keys) <==> k in keys && FieldValue(f, k) == Some(v)
    ensures forall i :: 0 <= i < |SentFields(f, keys)| ==> SentFields(f, keys)[i].0 in keys
    decreases |keys|
  {
    if keys != [] {
      SentFieldsContents(f, keys[1..], k, v);
    }
  }

  lemma {:induction false} SentFieldsKeepOrder(f: CaseForm, a: seq<FieldKey>, b: seq<FieldKey>)
    ensures SentFields(f, a + b) == SentFields(f, a) + SentFields(f, b)
    decreases |a|
  {
    if a == [] {
      assert a + b == b;
    } else {
      assert (a + b)[1..] == a[1..] + b;
      SentFieldsKeepOrder(f, a[1..], b);
    }
  }

  /** What pressing submit leads to: nothing when the schema refuses the form, a refusal
      for an unverified account, and otherwise one request with the fields and files. */
  datatype Submission = SchemaRefused | NotVerified | Post(fields: seq<(FieldKey, string)>, documents: seq<PickedFile>)

  function Submit(verified: bool, f: CaseForm, documents: seq<PickedFile>, isEmail: string -> bool): Submission {
    if !SchemaValid(f, isEmail) then SchemaRefused
    else if !verified then NotVerified
    else Post(FormFields(f), documents)
  }

  /** A request is made exactly for a verified user with a valid form, and it carries
      every picked file in order. */
  lemma SubmitGate(verified: bool, f: CaseForm, documents: seq<PickedFile>, isEmail: string -> bool)
    ensures Submit(verified, f, documents, isEmail).Post? <==> verified && SchemaValid(f, isEmail)
    ensures !verified ==> !Submit(verified, f, documents, isEmail).Post?
    ensures Submit(verified, f, documents, isEmail).Post? ==> Submit(verified, f, documents, isEmail).documents == documents
  {
  }

  /** Every field the form has is considered: the required ones are always sent as
      typed, and an optional one exactly when it is not blank. */
  lemma FieldsSent(f: CaseForm, k: FieldKey, v: string)
    ensures (k, v) in FormFields(f) <==> FieldValue(f, k) == Some(v)
    ensures k in {CaseTypeKey, DescriptionKey, NameKey, CourtPendingKey} ==> FieldValue(f, k).Some?
    ensures (CaseNumberKey, v) in FormFields(f) <==> f.caseNumber == Some(v) && v != []
    ensures (EmailKey, v) in FormFields(f) <==> f.oppositeEmail == v && v != []
  {
    assert k in AppendOrder;
    SentFieldsContents(f, AppendOrder, k, v);
    SentFieldsContents(f, AppendOrder, CaseNumberKey, v);
    SentFieldsContents(f, AppendOrder, EmailKey, v);
  }

  /** The field names are distinct, so no two fields share a name on the wire. */
  lemma KeyNamesDistinct(a: FieldKey, b: FieldKey)
    ensures a != b ==> KeyName(a) != KeyName(b)
  {
  }
}
