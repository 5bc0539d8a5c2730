/** The image-storage service: the environment preconditions of an upload,
    the object key and public URL of an uploaded image, the messages of a
    failed upload, and the key a later delete derives from the URL. The
    storage SDK's calls are not modelled; their outcomes are inputs.
 */
module R2 {
  import opened Wrappers
  import opened Seqs
  import opened Strings
  import opened Js

  /** The process environment (`process.env`). */
  type Env = map<string, string>

  /** The variables an upload needs, in the order they are checked. */
  const RequiredVars: seq<string> :=
    ["R2_BUCKET_NAME", "R2_ENDPOINT", "R2_ACCESS_KEY_ID", "R2_SECRET_ACCESS_KEY", "R2_PUBLIC_URL"]

  /** `!!process.env[name]`: the variable holds a non-empty string. */
  predicate IsSet(env: Env, name: string) {
    name in env && env[name] != ""
  }

  /** `${process.env[name]}`. */
  function EnvText(env: Env, name: string): string {
    if name in env then env[name] else "undefined"
  }

  /** The first required variable that is not set, if any. */
  function FirstUnset(env: Env): (r: Option<string>)
    ensures r.None? <==> forall k :: 0 <= k < |RequiredVars| ==> IsSet(env, RequiredVars[k])
    ensures r.Some? ==> exists k :: (0 <= k < |RequiredVars| && r.value == RequiredVars[k] &&
      !IsSet(env, RequiredVars[k]) && forall j :: 0 <= j < k ==> IsSet(env, RequiredVars[j]))
  {
    match FirstMatch(RequiredVars, v => !IsSet(env, v))
    case None => None
    case Some(k) => Some(RequiredVars[k])
  }

  /** An uploaded file as the form parser hands it on (its bytes are not modelled). */
  datatype File = File(originalname: string, mimetype: string, size: nat)

  /** The MIME types with a fixed extension. */
  const MimeExtensions: map<string, string> := map[
    "image/jpeg" := "jpg",
    "image/png" := "png",
    "image/gif" := "gif",
    "image/webp" := "webp",
    "image/svg+xml" := "svg"
  ]

  /** The extension of the stored object: fixed for a known MIME type,
      otherwise `originalname.split('.').pop()`. */
  function Extension(file: File): string {
    if file.mimetype in MimeExtensions then MimeExtensions[file.mimetype]
    else Last(Split(file.originalname, '.'))
  }

  const DefaultFolder: string := "products"

  /** The object key `${folder}/${id}.${ext}`, where `id` is the generated
      UUID and an omitted folder defaults to "products". */
  function UploadKey(file: File, folder: Option<string>, id: string): string {
    folder.GetOr(DefaultFolder) + "/" + id + "." + Extension(file)
  }

  /** The public URL prefix `${process.env.R2_PUBLIC_URL}/`. */
  function UrlPrefix(env: Env): string {
    EnvText(env, "R2_PUBLIC_URL") + "/"
  }

  /** The message of the error `uploadToR2` throws for a caught error `e`. */
  function FailureMessage(e: JsError, env: Env): (m: string)
    ensures e.code == Some("NoSuchBucket") ==>
      m == "R2 bucket '" + EnvText(env, "R2_BUCKET_NAME") + "' does not exist"
    ensures e.code == Some("InvalidAccessKeyId") ==> m == "Invalid R2 access key ID"
    ensures e.code == Some("SignatureDoesNotMatch") ==> m == "Invalid R2 secret access key"
    ensures e.code == Some("NetworkingError") ==> m == "Network error connecting to R2 storage"
    ensures e.code !in {Some("NoSuchBucket"), Some("InvalidAccessKeyId"), Some("SignatureDoesNotMatch"), Some("NetworkingError")} ==>
      m == (if Contains(e.message, "getaddrinfo ENOTFOUND") then "Cannot resolve R2 endpoint hostname"
            else "R2 upload failed: " + e.message)
  {
    if e.code == Some("NoSuchBucket") then "R2 bucket '" + EnvText(env, "R2_BUCKET_NAME") + "' does not exist"
    else if e.code == Some("InvalidAccessKeyId") then "Invalid R2 access key ID"
    else if e.code == Some("SignatureDoesNotMatch") then "Invalid R2 secret access key"
    else if e.code == Some("NetworkingError") then "Network error connecting to R2 storage"
    else if Contains(e.message, "getaddrinfo ENOTFOUND") then "Cannot resolve R2 endpoint hostname"
    else "R2 upload failed: " + e.message
  }

  /** The message of the error thrown for a missing variable. */
  function UnsetMessage(name: string): string {
    name + " environment variable is not set"
  }

  /** A pattern cannot occur in a string that lacks one of its characters. */
  lemma MissingCharNoMatch(s: string, pat: string, c: char)
    requires c in pat && c !in s
    ensures !Contains(s, pat)
  {
  }

  /** The message for a missing variable never mentions a failed DNS lookup,
      so the catch block wraps it as a generic upload failure. */
  lemma UnsetMessageIsNotDnsFailure(name: string)
    requires name in RequiredVars
    ensures !Contains(UnsetMessage(name), "getaddrinfo ENOTFOUND")
  {
    var suffix := " environment variable is not set";
    assert 'g' !in suffix;
    assert 'g' !in name;
    assert UnsetMessage(name) == name + suffix;
    MissingCharNoMatch(UnsetMessage(name), "getaddrinfo ENOTFOUND", 'g');
  }

  /** The parameters of the storage upload call. */
  datatype PutRequest = PutRequest(bucket: string, key: string, contentType: string, acl: string)

  /** The upload parameters `uploadToR2` builds once the environment is complete. */
  function PutParams(file: File, folder: Option<string>, env: Env, id: string): PutRequest {
    PutRequest(EnvText(env, "R2_BUCKET_NAME"), UploadKey(file, folder, id), file.mimetype, "public-read")
  }

  /** `uploadToR2(file, folder)`. `id` is the UUID the call generates and
      `put` the storage upload: for the parameters it is given, None when it
      succeeds, otherwise the error it rejects with. */
  function UploadToR2(file: File, folder: Option<string>, env: Env, id: string, put: PutRequest -> Option<JsError>)
    : (r: Result<string, JsError>)
    ensures r.Success? <==> FirstUnset(env).None? && put(PutParams(file, folder, env, id)).None?
    ensures r.Success? ==> r.value == UrlPrefix(env) + PutParams(file, folder, env, id).key
    ensures r.Failure? ==> r.error.code.None? && r.error.name == "Error"
    ensures FirstUnset(env).Some? ==>
      r.Failure? && r.error.message == "R2 upload failed: " + UnsetMessage(FirstUnset(env).value)
    ensures FirstUnset(env).None? && put(PutParams(file, folder, env, id)).Some? ==>
      r.Failure? && r.error.message == FailureMessage(put(PutParams(file, folder, env, id)).value, env)
  {
    match FirstUnset(env)
    case Some(name) =>
      UnsetMessageIsNotDnsFailure(name);
      Failure(PlainError(FailureMessage(PlainError(UnsetMessage(name)), env)))
    case None =>
      var request := PutParams(file, folder, env, id);
      match put(request)
      case Some(e) => Failure(PlainError(FailureMessage(e, env)))
      case None => Success(UrlPrefix(env) + request.key)
  }

  /** A missing variable stops the upload before the storage call: the
      outcome does not depend on what that call would have done. */
  lemma UnsetVariableSkipsUpload(file: File, folder: Option<string>, env: Env, id: string,
                                 a: PutRequest -> Option<JsError>, b: PutRequest -> Option<JsError>)
    requires FirstUnset(env).Some?
    ensures UploadToR2(file, folder, env, id, a) == UploadToR2(file, folder, env, id, b)
  {
  }

  /** The object key `deleteFromR2` derives from an image URL: the URL with
      the first occurrence of the public prefix removed. */
  function KeyFromUrl(url: string, env: Env): string {
    ReplaceFirst(url, UrlPrefix(env), "")
  }

  /** The parameters of the storage delete call; the bucket is missing when
      its variable is not defined. */
  datatype DeleteRequest = DeleteRequest(bucket: Option<string>, key: string)

  /** `deleteFromR2(url)`. `remove` is the storage delete: for the parameters
      it is given, None when it succeeds. The call never rejects; it resolves
      to whether the delete succeeded. */
  function DeleteFromR2(url: string, env: Env, remove: DeleteRequest -> Option<JsError>): (deleted: bool)
    ensures var request := DeleteRequest(if "R2_BUCKET_NAME" in env then Some(env["R2_BUCKET_NAME"]) else None,
                                         KeyFromUrl(url, env));
      deleted <==> remove(request).None?
  {
    var bucket := if "R2_BUCKET_NAME" in env then Some(env["R2_BUCKET_NAME"]) else None;
    match remove(DeleteRequest(bucket, KeyFromUrl(url, env)))
    case None => true
    case Some(_) => false
  }

  /** Deleting by the URL an upload returned addresses exactly the object
      that upload stored. */
  lemma UrlRoundTrip(file: File, folder: Option<string>, env: Env, id: string, put: PutRequest -> Option<JsError>)
    requires UploadToR2(file, folder, env, id, put).Success?
    ensures KeyFromUrl(UploadToR2(file, folder, env, id, put).value, env) == PutParams(file, folder, env, id).key
    ensures PutParams(file, folder, env, id).key == UploadKey(file, folder, id)
  {
    ReplacePrefix(UrlPrefix(env), UploadKey(file, folder, id));
  }

  /** The extension of a stored object: the fixed one for a known MIME type;
      otherwise the part of the file name after its last '.', or the whole
      name when it has no '.'. */
  lemma ExtensionDetection(file: File)
    ensures file.mimetype in MimeExtensions ==> Extension(file) == MimeExtensions[file.mimetype]
    ensures file.mimetype !in MimeExtensions ==> '.' !in Extension(file)
    ensures file.mimetype !in MimeExtensions && '.' !in file.originalname ==>
      Extension(file) == file.originalname
    ensures file.mimetype !in MimeExtensions && '.' in file.originalname ==>
      exists stem :: file.originalname == stem + "." + Extension(file)
  {
    LastPiece(file.originalname, '.');
  }

  /** The object key is made of the folder, a '/', the id, a '.' and the
      extension, in that order and with nothing else. */
  lemma KeyLayout(file: File, folder: Option<string>, id: string)
    ensures StartsWith(UploadKey(file, folder, id), folder.GetOr(DefaultFolder) + "/")
    ensures |UploadKey(file, folder, id)| == |folder.GetOr(DefaultFolder)| + |id| + |Extension(file)| + 2
    ensures folder.None? ==> StartsWith(UploadKey(file, folder, id), "products/")
    ensures var f := folder.GetOr(DefaultFolder); var k := UploadKey(file, folder, id);
      && k[..|f|] == f
      && k[|f|] == '/'
      && k[|f| + 1..|f| + 1 + |id|] == id
      && k[|f| + 1 + |id|] == '.'
      && k[|f| + 2 + |id|..] == Extension(file)
  {
    var key := UploadKey(file, folder, id);
    var f := folder.GetOr(DefaultFolder);
    var prefix := f + "/";
    assert key == f + "/" + id + "." + Extension(file);
    assert key[..|prefix|] == prefix;
    assert key[|f| + 1..] == id + "." + Extension(file);
    assert key[|f| + 2 + |id|..] == (id + "." + Extension(file))[|id| + 1..];
  }

  /** No extension contains a '.'. */
  lemma ExtensionHasNoDot(file: File)
    ensures '.' !in Extension(file)
  {
    if file.mimetype in MimeExtensions {
      assert forall m :: m in MimeExtensions ==> '.' !in MimeExtensions[m];
    } else {
      ExtensionDetection(file);
    }
  }

  /** Within one folder a key determines its upload: for ids without a '.'
      (as the generated UUIDs are), equal keys mean equal ids and equal
      extensions, so distinct ids never overwrite each other's objects. */
  lemma KeysIdentifyIds(file1: File, file2: File, folder: Option<string>, id1: string, id2: string)
    requires '.' !in id1 && '.' !in id2
    requires UploadKey(file1, folder, id1) == UploadKey(file2, folder, id2)
    ensures id1 == id2 && Extension(file1) == Extension(file2)
  {
    KeyLayout(file1, folder, id1);
    KeyLayout(file2, folder, id2);
  }

  /** A URL that does not start with the public prefix, and does not contain
      it anywhere, is used whole as the key of the delete. */
  lemma ForeignUrlIsWholeKey(url: string, env: Env)
    requires !Contains(url, UrlPrefix(env))
    ensures KeyFromUrl(url, env) == url
  {
    ReplaceAbsent(url, UrlPrefix(env), "");
  }
}
