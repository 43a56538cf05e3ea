/** PdfController.Generate, the backend's POST api/pdf/generate: check the
    upload, have the AI service make the PDF, keep a copy under
    <content root>/Uploads/<guid>.pdf, record it in the database, and send
    the bytes back as a download.

    The file system and the database are objects whose state the action
    changes; the GUID and the UTC clock reading are parameters. */
module Controller {
  import opened Wrappers
  import opened AspNet
  import opened FastApi

  /** The "D" format of a Guid: 32 hexadecimal digits in groups of 8, 4, 4,
      4 and 12, separated by hyphens. */
  predicate IsGuidText(g: string)
  {
    && |g| == 36
    && forall i :: 0 <= i < 36 ==> if IsHyphenPosition(i) then g[i] == '-' else IsHexDigit(g[i])
  }

  predicate IsHyphenPosition(i: int)
  {
    i == 8 || i == 13 || i == 18 || i == 23
  }

  predicate IsHexDigit(ch: char)
  {
    '0' <= ch <= '9' || 'a' <= ch <= 'f'
  }

  type GuidText = g: string | IsGuidText(g) witness "00000000-0000-0000-0000-000000000000"

  /** A row of the PdfFiles table. */
  datatype PdfFile = PdfFile(originalFileName: string, storedFilePath: string, createdAt: DateTime)

  /** What the action answers. */
  datatype ActionResult =
    | BadRequest(value: string)
    | FileContent(fileContents: seq<byte>, contentType: string, fileDownloadName: string)

  /** The directory the copies go to. */
  function UploadsFolder(contentRootPath: string): string
  {
    Combine(contentRootPath, "Uploads")
  }

  /** Where the copy made for a GUID is stored. */
  function StoredPath(contentRootPath: string, guid: GuidText): string
  {
    Combine(UploadsFolder(contentRootPath), guid + ".pdf")
  }

  /** The copy for a GUID is the file "<guid>.pdf" directly inside the
      Uploads directory of the content root. */
  lemma StoredPathInUploads(contentRootPath: string, guid: GuidText)
    ensures StoredPath(contentRootPath, guid) == AsDirectory(UploadsFolder(contentRootPath)) + guid + ".pdf"
    ensures UploadsFolder(contentRootPath) == AsDirectory(contentRootPath) + "Uploads"
  {
    assert (guid + ".pdf")[0] == guid[0];
  }

  /** Distinct GUIDs give distinct stored paths, so no upload overwrites
      another one's copy. */
  lemma StoredPathInjective(contentRootPath: string, g: GuidText, h: GuidText)
    requires StoredPath(contentRootPath, g) == StoredPath(contentRootPath, h)
    ensures g == h
  {
    var dir := AsDirectory(UploadsFolder(contentRootPath));
    StoredPathInUploads(contentRootPath, g);
    StoredPathInUploads(contentRootPath, h);
    assert dir + (g + ".pdf") == dir + (h + ".pdf");
    Text.CancelPrefix(dir, g + ".pdf", h + ".pdf");
    Text.CancelSuffix(g, h, ".pdf");
  }

  /** The download the action answers with: the service's bytes as they
      came, as application/pdf, named after the requested type. */
  function PdfDownload(bytes: seq<byte>, type_: string): (r: ActionResult)
    ensures r.FileContent? && r.fileContents == bytes && r.contentType == "application/pdf"
    ensures r.fileDownloadName == type_ + ".pdf"
  {
    FileContent(bytes, "application/pdf", type_ + ".pdf")
  }

  /** The upload check: a file must be present and not empty. */
  predicate HasUpload(file: Option<FormFile>)
  {
    file.Some? && file.value.Length() > 0
  }

  /** System.IO as the action uses it: a set of directories and a map from
      path to file contents. Creating or writing a path in `denied` throws. */
  class FileSystem {
    const denied: set<string>
    var directories: set<string>
    var files: map<string, seq<byte>>

    constructor(denied: set<string>)
      ensures this.denied == denied && directories == {} && files == map[]
    {
      this.denied := denied;
      directories := {};
      files := map[];
    }

    /** Directory.CreateDirectory: nothing to do when it exists already. */
    method CreateDirectory(path: string) returns (r: Result<(), Failure>)
      modifies this
      ensures path in denied ==> r == Err(IoError(path)) && unchanged(this)
      ensures path !in denied ==> r == Ok(()) && directories == old(directories) + {path} && files == old(files)
    {
      if path in denied {
        return Err(IoError(path));
      }
      directories := directories + {path};
      return Ok(());
    }

    /** File.WriteAllBytesAsync: creates or overwrites the file. */
    method WriteAllBytes(path: string, bytes: seq<byte>) returns (r: Result<(), Failure>)
      modifies this
      ensures path in denied ==> r == Err(IoError(path)) && unchanged(this)
      ensures path !in denied ==> r == Ok(()) && files == old(files)[path := bytes] && directories == old(directories)
    {
      if path in denied {
        return Err(IoError(path));
      }
      files := files[path := bytes];
      return Ok(());
    }
  }

  /** AppDbContext with its PdfFiles set: rows added since the last save are
      tracked, and SaveChangesAsync stores them all, or fails and keeps them
      tracked when the database is not reachable. */
  class AppDbContext {
    const reachable: bool
    var tracked: seq<PdfFile>
    var pdfFiles: seq<PdfFile>

    constructor(reachable: bool)
      ensures this.reachable == reachable && tracked == [] && pdfFiles == []
    {
      this.reachable := reachable;
      tracked := [];
      pdfFiles := [];
    }

    method Add(pdf: PdfFile)
      modifies this
      ensures tracked == old(tracked) + [pdf] && pdfFiles == old(pdfFiles)
    {
      tracked := tracked + [pdf];
    }

    method SaveChanges() returns (r: Result<(), Failure>)
      modifies this
      ensures reachable ==> r == Ok(()) && pdfFiles == old(pdfFiles) + old(tracked) && tracked == []
      ensures !reachable ==> r == Err(DbUpdateError) && unchanged(this)
    {
      if !reachable {
        return Err(DbUpdateError);
      }
      pdfFiles := pdfFiles + tracked;
      tracked := [];
      return Ok(());
    }
  }

  class PdfController {
    const fastApi: FastApiService
    const db: AppDbContext
    const fs: FileSystem
    const contentRootPath: string

    constructor(fastApi: FastApiService, db: AppDbContext, fs: FileSystem, contentRootPath: string)
      ensures this.fastApi == fastApi && this.db == db && this.fs == fs && this.contentRootPath == contentRootPath
    {
      this.fastApi := fastApi;
      this.db := db;
      this.fs := fs;
      this.contentRootPath := contentRootPath;
    }

    /** The reply of the AI service to this action's request, which is the
        k-th request its HTTP client sends. */
    function ServiceReply(k: nat, dto: GeneratePdfDto): Result<seq<byte>, Failure>
    {
      Outcome(fastApi.httpClient.transport(k, EngineRequest(dto)))
    }

    /** Generate(file, type, questionCount), with Guid.NewGuid() as guid and
        DateTime.UtcNow as utcNow. An exception that escapes is an Err. */
    method Generate(file: Option<FormFile>, type_: string, questionCount: int32, guid: GuidText, utcNow: DateTime)
      returns (r: Result<ActionResult, Failure>)
      modifies fastApi.httpClient, fs, db
      // no upload: a bad request, and nothing else happens
      ensures !HasUpload(file) ==>
        r == Ok(BadRequest("File required")) && unchanged(fastApi.httpClient, fs, db)
      // an upload: exactly one request to the AI service, for this DTO
      ensures HasUpload(file) ==>
        fastApi.httpClient.sent ==
          old(fastApi.httpClient.sent) + [EngineRequest(GeneratePdfDto(file.value, type_, questionCount))]
      // the service fails: its exception, and no file and no row
      ensures HasUpload(file) ==>
        var reply := ServiceReply(|old(fastApi.httpClient.sent)|, GeneratePdfDto(file.value, type_, questionCount));
        reply.Err? ==> r == Err(reply.error) && unchanged(fs, db)
      // the Uploads directory cannot be created: an I/O exception, and no
      // file and no row
      ensures HasUpload(file) ==>
        var reply := ServiceReply(|old(fastApi.httpClient.sent)|, GeneratePdfDto(file.value, type_, questionCount));
        reply.Ok? && UploadsFolder(contentRootPath) in fs.denied ==>
          r == Err(IoError(UploadsFolder(contentRootPath))) && unchanged(fs, db)
      // the copy cannot be written: an I/O exception, the directory is
      // there, and no row
      ensures HasUpload(file) ==>
        var reply := ServiceReply(|old(fastApi.httpClient.sent)|, GeneratePdfDto(file.value, type_, questionCount));
        reply.Ok? && UploadsFolder(contentRootPath) !in fs.denied && StoredPath(contentRootPath, guid) in fs.denied ==>
          && r == Err(IoError(StoredPath(contentRootPath, guid)))
          && fs.directories == old(fs.directories) + {UploadsFolder(contentRootPath)}
          && fs.files == old(fs.files) && unchanged(db)
      // otherwise the bytes are stored under the GUID and one row is added;
      // a failed save leaves the copy written
      ensures HasUpload(file) ==>
        var reply := ServiceReply(|old(fastApi.httpClient.sent)|, GeneratePdfDto(file.value, type_, questionCount));
        reply.Ok? && UploadsFolder(contentRootPath) !in fs.denied && StoredPath(contentRootPath, guid) !in fs.denied ==>
          && fs.directories == old(fs.directories) + {UploadsFolder(contentRootPath)}
          && fs.files == old(fs.files)[StoredPath(contentRootPath, guid) := reply.value]
          && var row := PdfFile(file.value.fileName, StoredPath(contentRootPath, guid), utcNow);
          if db.reachable then
            && db.pdfFiles == old(db.pdfFiles) + old(db.tracked) + [row] && db.tracked == []
            && r == Ok(PdfDownload(reply.value, type_))
          else
            && db.pdfFiles == old(db.pdfFiles) && db.tracked == old(db.tracked) + [row]
            && r == Err(DbUpdateError)
    {
      if file.None? || file.value.Length() == 0 {
        return Ok(BadRequest("File required"));
      }

      var pdfBytes := fastApi.GeneratePdfAsync(GeneratePdfDto(file.value, type_, questionCount));
      if pdfBytes.Err? {
        return Err(pdfBytes.error);
      }

      var folder := Combine(contentRootPath, "Uploads");
      var created := fs.CreateDirectory(folder);
      if created.Err? {
        return Err(created.error);
      }

      var fileName := guid + ".pdf";
      var fullPath := Combine(folder, fileName);
      var written := fs.WriteAllBytes(fullPath, pdfBytes.value);
      if written.Err? {
        return Err(written.error);
      }

      var pdf := PdfFile(file.value.fileName, fullPath, utcNow);
      db.Add(pdf);
      var saved := db.SaveChanges();
      if saved.Err? {
        return Err(saved.error);
      }

      return Ok(FileContent(pdfBytes.value, "application/pdf", type_ + ".pdf"));
    }
  }
}
