/** The multer configuration for case documents: where an upload is stored and under
    which name, which mimetypes are accepted, the size and count limits, and the
    mimetype-to-document-type classification the case routes store with each file. */
module Upload {
  import opened Common
  import opened Store

  /** A file as multer hands it to a handler. With disk storage there is no in-memory
      buffer, so `buffer` is absent unless a memory storage filled it. */
  datatype UploadedFile = UploadedFile(
    originalname: string, filename: string, mimetype: string, size: nat, buffer: Option<seq<Byte>>)

  // ----- the stored name -----

  /** `path.extname(name)` for a name without '/': from the last '.', except that a name
      with no dot, a name whose only leading dot is its last one (".profile") and ".."
      have no extension. */
  function Extname(name: string): (ext: string)
    ensures ext == [] || (ext[0] == '.' && '.' !in ext[1..])
    ensures ext != [] ==> |ext| < |name| && name[|name| - |ext|..] == ext
  {
    var i := LastIndexOf(name, '.');
    if i <= 0 || name == ".." then []
    else
      var tail := name[i + 1..];
      assert forall k :: 0 <= k < |tail| ==> tail[k] == name[i + 1 + k];
      name[i..]
  }

  /** `${uuidv4()}${path.extname(file.originalname)}`: the generated id is a parameter. */
  function StoredFilename(uuid: string, originalname: string): (r: string)
    requires '/' !in originalname
    ensures |r| >= |uuid| && r[..|uuid|] == uuid
    ensures r[|uuid|..] == Extname(originalname)
  {
    uuid + Extname(originalname)
  }

  /** The extension survives storage: the stored name ends in the original file's
      extension, so a file keeps its type under its new name. */
  lemma StoredNameKeepsExtension(uuid: string, originalname: string)
    requires '/' !in originalname && '.' !in uuid && uuid != []
    ensures Extname(StoredFilename(uuid, originalname)) == Extname(originalname)
  {
    var ext := Extname(originalname);
    var r := StoredFilename(uuid, originalname);
    if ext != [] {
      assert r == uuid + ext;
      assert r[|uuid|] == '.';
      assert forall k :: |uuid| < k < |r| ==> r[k] == ext[1..][k - |uuid| - 1];
      assert forall k :: 0 <= k < |uuid| ==> r[k] == uuid[k];
      var i := LastIndexOf(r, '.');
      assert i == |uuid|;
      assert r != ".." by { assert r[0] == uuid[0]; }
    } else {
      assert r == uuid;
    }
  }

  // ----- the filter -----

  const AllowedTypes: seq<string> := [
    "image/jpeg", "image/png", "image/gif",
    "video/mp4", "video/avi", "video/mov",
    "audio/mp3", "audio/wav", "audio/m4a",
    "application/pdf"]

  datatype FilterDecision = Accept | Reject(message: string)

  /** The multer `fileFilter`: an allowlist test on the mimetype. */
  function FileFilter(mimetype: string): (d: FilterDecision)
    ensures d.Accept? <==> mimetype in AllowedTypes
    ensures d.Reject? ==> d.message == "Invalid file type. Only images, videos, audio files, and PDFs are allowed."
  {
    if mimetype in AllowedTypes then Accept
    else Reject("Invalid file type. Only images, videos, audio files, and PDFs are allowed.")
  }

  // ----- limits -----

  const MaxFiles: nat := 10
  const DefaultMaxFileSize: nat := 10485760

  /** The default written in the source, as text. */
  const DefaultMaxFileSizeText: string := "10485760"

  /** `parseInt(process.env.MAX_FILE_SIZE || '10485760')`; None stands for NaN. */
  function MaxFileSize(env: Option<string>): Option<int> {
    ParseInt(OrDefault(env, DefaultMaxFileSizeText))
  }

  /** `toString` of the default gives the text written in the source. */
  lemma DefaultText()
    ensures NatToString(DefaultMaxFileSize) == DefaultMaxFileSizeText
  {
    assert NatToString(1) == "1";
    assert NatToString(10) == "10";
    assert NatToString(104) == "104";
    assert NatToString(1048) == "1048";
    assert NatToString(10485) == "10485";
    assert NatToString(104857) == "104857";
    assert NatToString(1048576) == "1048576";
  }

  /** Without MAX_FILE_SIZE the limit is 10 MiB. */
  lemma DefaultLimit(env: Option<string>)
    requires env.None? || env == Some("")
    ensures MaxFileSize(env) == Some(DefaultMaxFileSize)
    ensures DefaultMaxFileSize == 10 * 1024 * 1024
  {
    DefaultText();
    ParseIntOfNatToString(DefaultMaxFileSize);
  }

  // ----- what multer answers before a handler runs -----

  /** The limits of one `upload.array(field, maxCount)` or `upload.single(field)`:
      `maxCount` from the route (1 for `single`), the `files` limit of the
      configuration, if any, and its `fileSize` in bytes. */
  datatype MulterLimits = MulterLimits(maxCount: nat, filesLimit: Option<nat>, fileSize: nat)

  const TooManyFiles := "Too many files"
  const UnexpectedField := "Unexpected field"
  const FileTooLarge := "File too large"

  /** The refusal, if any, of the file arriving at position `k`: past the `files` limit
      busboy stops with LIMIT_FILE_COUNT; past the route's count multer's wrapped filter
      answers LIMIT_UNEXPECTED_FILE; then the configured filter runs; a file that
      streams more than `fileSize` bytes is LIMIT_FILE_SIZE. */
  function FileRefusal(k: nat, f: UploadedFile, lim: MulterLimits, accepts: UploadedFile -> bool,
                       filterMessage: string): Option<string> {
    if lim.filesLimit.Some? && k >= lim.filesLimit.value then Some(TooManyFiles)
    else if k >= lim.maxCount then Some(UnexpectedField)
    else if !accepts(f) then Some(filterMessage)
    else if f.size > lim.fileSize then Some(FileTooLarge)
    else None
  }

  /** Files are handled in arrival order and the first refusal aborts the request. */
  function RefusalFrom(files: seq<UploadedFile>, i: nat, lim: MulterLimits, accepts: UploadedFile -> bool,
                       filterMessage: string): (r: Option<string>)
    requires i <= |files|
    ensures r.None? <==> forall k :: i <= k < |files| ==> FileRefusal(k, files[k], lim, accepts, filterMessage).None?
    ensures r.Some? ==> exists k :: i <= k < |files| && FileRefusal(k, files[k], lim, accepts, filterMessage) == r
                                    && forall j :: i <= j < k ==> FileRefusal(j, files[j], lim, accepts, filterMessage).None?
    decreases |files| - i
  {
    if i == |files| then None
    else match FileRefusal(i, files[i], lim, accepts, filterMessage)
      case Some(m) => Some(m)
      case None => RefusalFrom(files, i + 1, lim, accepts, filterMessage)
  }

  /** The error multer hands to the error handler instead of calling the route's
      handler, or None when every file is taken. */
  function MulterRefusal(files: seq<UploadedFile>, lim: MulterLimits, accepts: UploadedFile -> bool,
                         filterMessage: string): Option<string> {
    RefusalFrom(files, 0, lim, accepts, filterMessage)
  }

  /** A request passes multer exactly when it has no more files than the route and the
      configuration allow and every file passes the filter and the size limit. */
  lemma MulterPasses(files: seq<UploadedFile>, lim: MulterLimits, accepts: UploadedFile -> bool, filterMessage: string)
    ensures MulterRefusal(files, lim, accepts, filterMessage).None? <==>
      && |files| <= lim.maxCount
      && (lim.filesLimit.Some? ==> |files| <= lim.filesLimit.value)
      && forall k :: 0 <= k < |files| ==> accepts(files[k]) && files[k].size <= lim.fileSize
  {
    if MulterRefusal(files, lim, accepts, filterMessage).None? && |files| > 0 {
      assert FileRefusal(|files| - 1, files[|files| - 1], lim, accepts, filterMessage).None?;
    }
  }

  /** The document upload of the case routes: `upload.array('documents', 10)` under the
      configuration's `files: 10` and its size limit. */
  function DocumentLimits(maxFileSize: nat): MulterLimits {
    MulterLimits(MaxFiles, Some(MaxFiles), maxFileSize)
  }

  const InvalidTypeMessage := "Invalid file type. Only images, videos, audio files, and PDFs are allowed."

  predicate AcceptsDocument(f: UploadedFile) {
    FileFilter(f.mimetype).Accept?
  }

  /** An eleventh file stops the request with "Too many files" when the ten before it
      are taken. */
  lemma EleventhFileRefused(files: seq<UploadedFile>, maxFileSize: nat)
    requires |files| == 11
    requires forall k :: 0 <= k < 10 ==> AcceptsDocument(files[k]) && files[k].size <= maxFileSize
    ensures MulterRefusal(files, DocumentLimits(maxFileSize), AcceptsDocument, InvalidTypeMessage) == Some(TooManyFiles)
  {
    var r := MulterRefusal(files, DocumentLimits(maxFileSize), AcceptsDocument, InvalidTypeMessage);
    assert FileRefusal(10, files[10], DocumentLimits(maxFileSize), AcceptsDocument, InvalidTypeMessage) == Some(TooManyFiles);
    assert forall j :: 0 <= j < 10 ==> FileRefusal(j, files[j], DocumentLimits(maxFileSize), AcceptsDocument, InvalidTypeMessage).None?;
  }

  // ----- classification -----

  /** `getDocumentType`: the first of the prefixes image/, video/, audio/ that the
      mimetype has, else PDF for exactly application/pdf, else OTHER. */
  function GetDocumentType(mimetype: string): (r: DocumentType)
    ensures r == IMAGE <==> StartsWith(mimetype, "image/")
    ensures r == VIDEO <==> StartsWith(mimetype, "video/")
    ensures r == AUDIO <==> StartsWith(mimetype, "audio/")
    ensures r == PDF <==> mimetype == "application/pdf"
  {
    if StartsWith(mimetype, "image/") then IMAGE
    else if StartsWith(mimetype, "video/") then VIDEO
    else if StartsWith(mimetype, "audio/") then
      assert mimetype[1] == 'u';
      AUDIO
    else if mimetype == "application/pdf" then PDF
    else OTHER
  }

  /** Every mimetype the filter lets through is classified as something other than
      OTHER, so no accepted document is stored untyped. */
  lemma AcceptedIsTyped(mimetype: string)
    requires FileFilter(mimetype).Accept?
    ensures GetDocumentType(mimetype) != OTHER
  {
    var k :| 0 <= k < |AllowedTypes| && AllowedTypes[k] == mimetype;
    if k < 3 {
      assert StartsWith(mimetype, "image/");
    } else if k < 6 {
      assert StartsWith(mimetype, "video/");
    } else if k < 9 {
      assert StartsWith(mimetype, "audio/");
    }
  }

  /** The stored document row of an upload. */
  function DocumentOf(f: UploadedFile): (d: Document)
    ensures d.filename == f.originalname && d.filepath == f.filename && d.fileSize == f.size
    ensures d.fileType == GetDocumentType(f.mimetype)
  {
    Document(f.originalname, f.filename, GetDocumentType(f.mimetype), f.size)
  }
}
