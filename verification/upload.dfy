/** The image-upload controller: the form parser's configuration (file
    filter and size limit), the classification of parser errors, and the
    outcomes of the upload handler.
 */
module Upload {
  import opened Wrappers
  import opened Strings
  import opened Js
  import opened Http
  import opened R2

  /** The parser's per-file size limit, 5 MB. */
  const MaxFileSize: nat := 5 * 1024 * 1024

  /** The message of the error the file filter raises. */
  const OnlyImages: string := "Only image files are allowed"

  /** The file filter: accepts a file whose MIME type starts with "image/",
      otherwise fails with an error carrying exactly `OnlyImages`. */
  function FileFilter(mimetype: string): (r: Option<JsError>)
    ensures r.None? <==> |mimetype| >= 6 && mimetype[..6] == "image/"
    ensures r.Some? ==> r.value.message == OnlyImages
    ensures r.Some? ==> r.value == PlainError(OnlyImages)
  {
    if StartsWith(mimetype, "image/") then None else Some(PlainError(OnlyImages))
  }

  /** Every MIME type with a fixed storage extension passes the filter. */
  lemma KnownTypesPassFilter(mimetype: string)
    requires mimetype in MimeExtensions
    ensures FileFilter(mimetype).None?
  {
  }

  /** The error the parser raises for a file over the size limit. */
  const FileTooLargeError: JsError := JsError("MulterError", Some("LIMIT_FILE_SIZE"), "File too large")

  /** What the parser reports for the request's `image` field: an error, or
      the file (None when the request carries no file). The filter runs
      before the file's bytes are read, so a rejected type is reported even
      for an oversized file; a file of exactly the limit is accepted. */
  function ParseImageField(part: Option<File>): (r: Result<Option<File>, JsError>)
    ensures r.Success? <==> part.None? || (FileFilter(part.value.mimetype).None? && part.value.size <= MaxFileSize)
    ensures r.Success? ==> r.value == part
    ensures part.Some? && FileFilter(part.value.mimetype).Some? ==> r == Failure(FileFilter(part.value.mimetype).value)
    ensures part.Some? && FileFilter(part.value.mimetype).None? && part.value.size > MaxFileSize ==>
      r == Failure(FileTooLargeError)
  {
    match part
    case None => Success(None)
    case Some(f) =>
      match FileFilter(f.mimetype)
      case Some(e) => Failure(e)
      case None => if f.size > MaxFileSize then Failure(FileTooLargeError) else Success(part)
  }

  /** The 400 response `uploadMiddleware` sends for a parser error. */
  function ParserErrorResponse(err: JsError): (r: Response)
    ensures r.status == 400 && r.body.ErrorBody?
    ensures r.body.code == Some("FILE_TOO_LARGE") <==> err.code == Some("LIMIT_FILE_SIZE")
    ensures r.body.code == Some("INVALID_FILE_TYPE") <==> err.code != Some("LIMIT_FILE_SIZE") && err.message == OnlyImages
    ensures r.body.code == Some("UPLOAD_ERROR") <==> err.code != Some("LIMIT_FILE_SIZE") && err.message != OnlyImages
    ensures r.body.code == Some("UPLOAD_ERROR") ==> r.body.details == Some(err.message)
    ensures err.code == Some("LIMIT_FILE_SIZE") ==>
      r == Response(400, ErrorBody("File too large", Some("FILE_TOO_LARGE"), Some("Image must be smaller than 5MB")))
    ensures err.code != Some("LIMIT_FILE_SIZE") && err.message == OnlyImages ==>
      r == Response(400, ErrorBody("Invalid file type", Some("INVALID_FILE_TYPE"), Some(OnlyImages)))
    ensures err.code != Some("LIMIT_FILE_SIZE") && err.message != OnlyImages ==>
      r == Response(400, ErrorBody("Upload error", Some("UPLOAD_ERROR"), Some(err.message)))
  {
    if err.code == Some("LIMIT_FILE_SIZE") then
      Response(400, ErrorBody("File too large", Some("FILE_TOO_LARGE"), Some("Image must be smaller than 5MB")))
    else if err.message == OnlyImages then
      Response(400, ErrorBody("Invalid file type", Some("INVALID_FILE_TYPE"), Some(OnlyImages)))
    else
      Response(400, ErrorBody("Upload error", Some("UPLOAD_ERROR"), Some(err.message)))
  }

  /** `uploadMiddleware`: hands the parsed file on, or answers with the
      parser error's classification. */
  function UploadMiddleware(parsed: Result<Option<File>, JsError>): (r: Flow<Option<File>>)
    ensures r.Continue? <==> parsed.Success?
    ensures r.Continue? ==> r.value == parsed.value
    ensures r.Halt? ==> r.response == ParserErrorResponse(parsed.error)
  {
    match parsed
    case Success(file) => Continue(file)
    case Failure(err) => Halt(ParserErrorResponse(err))
  }

  /** The 500 response for an error thrown while uploading:
      `code` is `error.code || 'UPLOAD_ERROR'`. */
  function UploadFailureResponse(e: JsError): (r: Response)
    ensures r.status == 500 && r.body.ErrorBody?
    ensures r.body.details == Some(e.message)
    ensures r.body.code == (if e.code.Some? && e.code.value != "" then e.code else Some("UPLOAD_ERROR"))
    ensures r.body.error == "Failed to upload image"
  {
    var code := if e.code.Some? && e.code.value != "" then e.code.value else "UPLOAD_ERROR";
    Response(500, ErrorBody("Failed to upload image", Some(code), Some(e.message)))
  }

  /** `uploadImage`: stores the file under "products" and answers with its URL. */
  function UploadImage(file: Option<File>, env: Env, id: string, put: PutRequest -> Option<JsError>): (r: Response)
    ensures file.None? ==> r == Coded(400, "No image file provided", "NO_FILE")
    ensures r.status == 200 <==> file.Some? && UploadToR2(file.value, Some("products"), env, id, put).Success?
    ensures r.status == 200 ==>
      r.body == ImageBody("Image uploaded successfully", UploadToR2(file.value, Some("products"), env, id, put).value)
    ensures r.status in {200, 400, 500}
    ensures file.Some? && UploadToR2(file.value, Some("products"), env, id, put).Failure? ==>
      r == UploadFailureResponse(UploadToR2(file.value, Some("products"), env, id, put).error)
  {
    match file
    case None => Coded(400, "No image file provided", "NO_FILE")
    case Some(f) =>
      match UploadToR2(f, Some("products"), env, id, put)
      case Success(url) => Response(200, ImageBody("Image uploaded successfully", url))
      case Failure(e) => UploadFailureResponse(e)
  }

  /** Without a file the storage is never called: the response does not
      depend on the storage or its configuration. */
  lemma NoFileSkipsStorage(env1: Env, env2: Env, id1: string, id2: string,
                           put1: PutRequest -> Option<JsError>, put2: PutRequest -> Option<JsError>)
    ensures UploadImage(None, env1, id1, put1) == UploadImage(None, env2, id2, put2)
  {
  }

  /** Every failed upload answers 500 with code UPLOAD_ERROR, because the
      storage service always rethrows a fresh error without a code; the
      details carry that error's message. */
  lemma StorageFailureCode(f: File, env: Env, id: string, put: PutRequest -> Option<JsError>)
    requires UploadToR2(f, Some("products"), env, id, put).Failure?
    ensures UploadImage(Some(f), env, id, put).status == 500
    ensures UploadImage(Some(f), env, id, put).body.code == Some("UPLOAD_ERROR")
    ensures UploadImage(Some(f), env, id, put).body.details ==
      Some(UploadToR2(f, Some("products"), env, id, put).error.message)
  {
  }

  /** A file the filter rejects is answered INVALID_FILE_TYPE, whatever its size. */
  lemma WrongTypeRejected(f: File)
    requires !StartsWith(f.mimetype, "image/")
    ensures UploadMiddleware(ParseImageField(Some(f))) ==
      Halt(Response(400, ErrorBody("Invalid file type", Some("INVALID_FILE_TYPE"), Some(OnlyImages))))
  {
  }

  /** An image over 5 MB is answered FILE_TOO_LARGE. */
  lemma OversizedImageRejected(f: File)
    requires StartsWith(f.mimetype, "image/") && f.size > MaxFileSize
    ensures UploadMiddleware(ParseImageField(Some(f))) ==
      Halt(Response(400, ErrorBody("File too large", Some("FILE_TOO_LARGE"), Some("Image must be smaller than 5MB"))))
  {
  }
}
