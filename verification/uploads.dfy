/** File uploads: the multer filename generator, the upload routes' type and
    size rules, the public URL of a stored file, and deletion by URL. The
    uploads directory is abstracted as the set of names of the regular files
    directly inside it. */
module FileUploads {
  import opened Wrappers
  import opened Text
  import opened Paths

  /** Public URL prefix under which stored files are served. */
  const FileUrlPrefix: string := "http://localhost:3000/uploads/"

  /** `getFileUrl(filename)`. */
  function GetFileUrl(filename: string): string {
    FileUrlPrefix + filename
  }

  /** A directory listing never holds `""`, `.`, `..` or a name with `/`. */
  predicate WellFormedFiles(files: set<string>) {
    forall f :: f in files ==> f != "" && f != "." && f != ".." && '/' !in f
  }

  /** `deleteFile(url)`: resolves the URL's basename inside the uploads
      directory and unlinks it when it exists. The boolean reports whether a
      file was removed; nothing is thrown. */
  function DeleteFile(files: set<string>, url: string): (r: (set<string>, bool))
    ensures r.1 <==> Basename(url) in files
    ensures r.0 <= files && |files - r.0| <= 1
    ensures forall f :: f != Basename(url) ==> (f in r.0 <==> f in files)
    ensures Basename(url) !in r.0
  {
    var name := Basename(url);
    if name in files then (files - {name}, true) else (files, false)
  }

  /** The URL of a non-empty `/`-free filename resolves back to that filename. */
  lemma FileUrlBasename(f: string)
    requires |f| > 0 && '/' !in f
    ensures Basename(GetFileUrl(f)) == f
  {
    assert GetFileUrl(f) == "http://localhost:3000/uploads" + "/" + f;
    BasenameAfterSlash("http://localhost:3000/uploads", f);
  }

  /** Deleting the URL of a stored file removes exactly that file and reports it. */
  lemma DeleteFileUrlRoundTrip(files: set<string>, f: string)
    requires f in files && |f| > 0 && '/' !in f
    ensures DeleteFile(files, GetFileUrl(f)) == (files - {f}, true)
  {
    FileUrlBasename(f);
  }

  /** A second deletion of the same URL reports false and changes nothing. */
  lemma DeleteFileIdempotent(files: set<string>, url: string)
    ensures var (once, _) := DeleteFile(files, url);
      DeleteFile(once, url) == (once, false)
  {
  }

  /** Deletion keeps the listing well formed. */
  lemma DeleteFileKeepsWellFormed(files: set<string>, url: string)
    requires WellFormedFiles(files)
    ensures WellFormedFiles(DeleteFile(files, url).0)
  {
  }

  /** A UUID as `uuid.v4()` prints it: 36 characters, hexadecimal digits with
      dashes at offsets 8, 13, 18 and 23. */
  predicate IsUuid(u: string) {
    && |u| == 36
    && forall i :: 0 <= i < |u| ==>
         if i == 8 || i == 13 || i == 18 || i == 23 then u[i] == '-'
         else ('0' <= u[i] <= '9' || 'a' <= u[i] <= 'f')
  }

  /** The `diskStorage` filename callback: a fresh UUID followed by the original extension. */
  function StoredFilename(uuid: string, originalname: string): string {
    uuid + ExtName(originalname)
  }

  lemma UuidHasNoDotOrSlash(u: string)
    requires IsUuid(u)
    ensures '.' !in u && '/' !in u && |u| > 0
  {
    forall i | 0 <= i < |u| ensures u[i] != '.' && u[i] != '/' {
    }
  }

  /** The stored file keeps the upload's extension. */
  lemma StoredFilenameKeepsExtension(uuid: string, originalname: string)
    requires IsUuid(uuid)
    ensures ExtName(StoredFilename(uuid, originalname)) == ExtName(originalname)
  {
    UuidHasNoDotOrSlash(uuid);
    ExtNameShape(originalname);
    ExtNameOfPrefixed(uuid, ExtName(originalname));
  }

  /** A stored filename is a valid directory entry free of `/`, so its URL resolves back to it. */
  lemma StoredFilenameShape(uuid: string, originalname: string)
    requires IsUuid(uuid)
    ensures var f := StoredFilename(uuid, originalname);
      |f| > 0 && '/' !in f && f != "." && f != ".." && Basename(GetFileUrl(f)) == f
  {
    var f := StoredFilename(uuid, originalname);
    UuidHasNoDotOrSlash(uuid);
    ExtNameShape(originalname);
    var e := ExtName(originalname);
    assert forall j :: 0 <= j < |f| ==> f[j] != '/' by {
      assert forall j :: 0 <= j < |uuid| ==> f[j] == uuid[j];
      assert forall j :: |uuid| <= j < |f| ==> f[j] == e[j - |uuid|];
    }
    assert |f| >= 36;
    FileUrlBasename(f);
  }

  /** Different UUIDs give different stored filenames, whatever the originals were. */
  lemma StoredFilenamesDistinct(u1: string, o1: string, u2: string, o2: string)
    requires IsUuid(u1) && IsUuid(u2) && u1 != u2
    ensures StoredFilename(u1, o1) != StoredFilename(u2, o2)
  {
    assert StoredFilename(u1, o1)[..36] == u1;
    assert StoredFilename(u2, o2)[..36] == u2;
  }

  /** Which upload route is used. */
  datatype MediaKind = Image | Video

  const ImageMimeTypes: seq<string> := ["image/jpeg", "image/png", "image/gif", "image/webp"]
  const VideoMimeTypes: seq<string> := ["video/mp4", "video/webm", "video/ogg"]

  /** Per-route `limits.fileSize`, in bytes; these replace the module-wide 10 MB default. */
  const ImageMaxBytes: nat := 5 * 1024 * 1024
  const VideoMaxBytes: nat := 20 * 1024 * 1024

  function AllowedMimeTypes(kind: MediaKind): seq<string> {
    match kind
    case Image => ImageMimeTypes
    case Video => VideoMimeTypes
  }

  function MaxBytes(kind: MediaKind): nat {
    match kind
    case Image => ImageMaxBytes
    case Video => VideoMaxBytes
  }

  function InvalidTypeMessage(kind: MediaKind): string {
    match kind
    case Image => "Invalid file type. Only JPEG, PNG, GIF, and WebP are allowed."
    case Video => "Invalid file type. Only MP4, WebM, and OGG are allowed."
  }

  /** The multipart file part as multer sees it. */
  datatype IncomingFile = IncomingFile(originalname: string, mimetype: string, size: nat)

  /** The JSON the upload routes answer with. */
  datatype UploadResponse = UploadResponse(filename: string, url: string, mimetype: string, size: nat)

  datatype UploadError = BadRequest(message: string) | PayloadTooLarge(message: string)

  /** `POST /uploads/image` or `/uploads/video`: the file filter checks the
      MIME type before any byte is stored, the size limit then stops an
      oversized stream, and the handler refuses a request with no file part.
      On success the stored file joins `files`. */
  function Upload(kind: MediaKind, files: set<string>, file: Option<IncomingFile>, uuid: string)
    : (r: Result<(UploadResponse, set<string>), UploadError>)
    ensures r.Success? <==>
      file.Some? && file.value.mimetype in AllowedMimeTypes(kind) && file.value.size <= MaxBytes(kind)
    ensures file.None? ==> r == Failure(BadRequest("No file uploaded"))
    ensures file.Some? && file.value.mimetype !in AllowedMimeTypes(kind) ==>
      r == Failure(BadRequest(InvalidTypeMessage(kind)))
    ensures file.Some? && file.value.mimetype in AllowedMimeTypes(kind) && file.value.size > MaxBytes(kind) ==>
      r.Failure? && r.error.PayloadTooLarge?
    ensures r.Success? ==>
      var (resp, files') := r.value;
      && resp.filename == StoredFilename(uuid, file.value.originalname)
      && resp.url == GetFileUrl(resp.filename)
      && resp.mimetype == file.value.mimetype && resp.size == file.value.size
      && files' == files + {resp.filename}
  {
    match file
    case None => Failure(BadRequest("No file uploaded"))
    case Some(f) =>
      if f.mimetype !in AllowedMimeTypes(kind) then Failure(BadRequest(InvalidTypeMessage(kind)))
      else if f.size > MaxBytes(kind) then Failure(PayloadTooLarge("File too large"))
      else
        var name := StoredFilename(uuid, f.originalname);
        Success((UploadResponse(name, GetFileUrl(name), f.mimetype, f.size), files + {name}))
  }

  /** The file an upload stores can be deleted through the URL it answered with. */
  lemma UploadThenDelete(kind: MediaKind, files: set<string>, file: Option<IncomingFile>, uuid: string)
    requires IsUuid(uuid)
    requires Upload(kind, files, file, uuid).Success?
    ensures var (resp, files') := Upload(kind, files, file, uuid).value;
      DeleteFile(files', resp.url) == (files' - {resp.filename}, true)
  {
    var (resp, files') := Upload(kind, files, file, uuid).value;
    StoredFilenameShape(uuid, file.value.originalname);
    DeleteFileUrlRoundTrip(files', resp.filename);
  }

  /** Uploading keeps the listing well formed. */
  lemma UploadKeepsWellFormed(kind: MediaKind, files: set<string>, file: Option<IncomingFile>, uuid: string)
    requires IsUuid(uuid) && WellFormedFiles(files)
    ensures Upload(kind, files, file, uuid).Success? ==> WellFormedFiles(Upload(kind, files, file, uuid).value.1)
  {
    if file.Some? {
      StoredFilenameShape(uuid, file.value.originalname);
    }
  }

  /** A 6 MB image is refused as too large before anything is stored. */
  lemma SixMegabyteImageRefused(files: set<string>, name: string, uuid: string)
    ensures Upload(Image, files, Some(IncomingFile(name, "image/png", 6 * 1024 * 1024)), uuid).Failure?
  {
  }
}
