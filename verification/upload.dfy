/** File naming shared by the image-upload edge function and the storage
    helper: the extension rule and the `folder/timestamp-random.ext` scheme. */
module UploadNames {
  import opened Wrappers
  import opened Text

  /** The text after the last `.` of `s` (all of `s` when it has none):
      `s.split('.').pop()`. */
  function LastSegment(s: string): (r: string)
    ensures |r| <= |s| && r == s[|s| - |r|..]
    ensures !Contains(r, '.')
    ensures |r| < |s| ==> s[|s| - |r| - 1] == '.'
    decreases |s|
  {
    if |s| == 0 then ""
    else if s[|s| - 1] == '.' then ""
    else
      var init := s[..|s| - 1];
      var last := LastSegment(init);
      assert s[|s| - |last| - 1..] == init[|init| - |last|..] + [s[|s| - 1]];
      NoDotSnoc(last, s[|s| - 1]);
      last + [s[|s| - 1]]
  }

  /** Appending a character other than `.` keeps a string dot-free. */
  lemma NoDotSnoc(s: string, c: char)
    requires !Contains(s, '.') && c != '.'
    ensures !Contains(s + [c], '.')
  {
    forall i | 0 <= i < |s + [c]|
      ensures (s + [c])[i] != '.'
    {
      if i < |s| {
        assert (s + [c])[i] == s[i];
      }
    }
  }

  const DEFAULT_EXTENSION: string := "jpg"

  /** `file.name.split('.').pop() || 'jpg'`. */
  function Extension(name: string): (r: string)
    ensures |r| > 0 && !Contains(r, '.')
    ensures |LastSegment(name)| > 0 ==> r == LastSegment(name)
    ensures |LastSegment(name)| == 0 ==> r == DEFAULT_EXTENSION
  {
    DefaultExtensionHasNoDot();
    var last := LastSegment(name);
    if |last| > 0 then last else DEFAULT_EXTENSION
  }

  /** A character of a prefix is a character of the whole. */
  lemma ContainsInPrefix(s: string, n: nat, c: char)
    requires n <= |s|
    ensures Contains(s[..n], c) ==> Contains(s, c)
  {
    if Contains(s[..n], c) {
      var i :| 0 <= i < n && s[..n][i] == c;
      assert s[i] == c;
    }
  }

  lemma DefaultExtensionHasNoDot()
    ensures |DEFAULT_EXTENSION| > 0 && !Contains(DEFAULT_EXTENSION, '.')
  {
    assert forall i :: 0 <= i < |DEFAULT_EXTENSION| ==> DEFAULT_EXTENSION[i] in {'j', 'p', 'g'};
  }

  /** The extension is recovered from `base.ext` for any base, and a name
      without a dot is its own extension. */
  lemma {:induction false} LastSegmentAfterDot(base: string, ext: string)
    requires !Contains(ext, '.')
    ensures LastSegment(base + "." + ext) == ext
    decreases |ext|
  {
    var s := base + "." + ext;
    if |ext| == 0 {
      assert s[|s| - 1] == '.';
    } else {
      var init := ext[..|ext| - 1];
      ContainsInPrefix(ext, |ext| - 1, '.');
      LastSegmentAfterDot(base, init);
      assert s[..|s| - 1] == base + "." + init;
      assert s[|s| - 1] == ext[|ext| - 1];
      assert init + [ext[|ext| - 1]] == ext;
    }
  }

  lemma {:induction false} LastSegmentNoDot(s: string)
    requires !Contains(s, '.')
    ensures LastSegment(s) == s
    decreases |s|
  {
    if |s| > 0 {
      var init := s[..|s| - 1];
      ContainsInPrefix(s, |s| - 1, '.');
      assert s[|s| - 1] != '.';
      LastSegmentNoDot(init);
      assert init + [s[|s| - 1]] == s;
    }
  }

  /** The extension of `base.ext` is `ext`, or `jpg` when `ext` is empty. */
  lemma ExtensionOfDottedName(base: string, ext: string)
    requires !Contains(ext, '.')
    ensures Extension(base + "." + ext) == if |ext| > 0 then ext else DEFAULT_EXTENSION
  {
    LastSegmentAfterDot(base, ext);
  }

  const DEFAULT_FOLDER: string := "content"

  /** `formData.get('folder') || 'content'`. */
  function FolderOrDefault(folder: Option<string>): (r: string)
    ensures |r| > 0
    ensures folder.Some? && |folder.value| > 0 ==> r == folder.value
    ensures !(folder.Some? && |folder.value| > 0) ==> r == DEFAULT_FOLDER
  {
    if folder.Some? && |folder.value| > 0 then folder.value else DEFAULT_FOLDER
  }

  /** `${folder}/${timestamp}-${random}.${extension}`; `random` is the base-36
      text the source takes from `Math.random()`. */
  function Filename(folder: string, timestamp: nat, random: string, name: string): string {
    folder + "/" + NatToString(timestamp) + "-" + random + "." + Extension(name)
  }

  /** The stored name keeps the uploaded file's extension, or `jpg` when it has none. */
  lemma FilenameExtension(folder: string, timestamp: nat, random: string, name: string)
    ensures Extension(Filename(folder, timestamp, random, name)) == Extension(name)
  {
    var ext := Extension(name);
    var base := folder + "/" + NatToString(timestamp) + "-" + random;
    assert Filename(folder, timestamp, random, name) == base + "." + ext;
    ExtensionOfDottedName(base, ext);
  }

  /** The stored name sits in the folder and carries the timestamp's decimal digits. */
  lemma FilenamePrefix(folder: string, timestamp: nat, random: string, name: string)
    ensures var f := Filename(folder, timestamp, random, name);
      StartsWith(f, folder + "/")
      && f[|folder| + 1..|folder| + 1 + |NatToString(timestamp)|] == NatToString(timestamp)
  {
    FilenameSplits(folder, timestamp, random, name);
    FieldsOfFilename(folder, NatToString(timestamp), "-" + random + "." + Extension(name));
  }

  lemma FilenameSplits(folder: string, timestamp: nat, random: string, name: string)
    ensures Filename(folder, timestamp, random, name)
         == folder + "/" + NatToString(timestamp) + ("-" + random + "." + Extension(name))
  {
    Regroup(folder + "/", NatToString(timestamp), random, Extension(name));
  }

  lemma Regroup(head: string, ts: string, random: string, ext: string)
    ensures head + ts + "-" + random + "." + ext == head + ts + ("-" + random + "." + ext)
  {
    var tail := "-" + random + "." + ext;
    assert head + ts + "-" + random + "." + ext == (head + ts) + tail;
  }

  /** Slicing `folder/ts…` recovers the folder prefix and the timestamp text. */
  lemma FieldsOfFilename(folder: string, ts: string, rest: string)
    ensures var f := folder + "/" + ts + rest;
      StartsWith(f, folder + "/") && f[|folder| + 1..|folder| + 1 + |ts|] == ts
  {
    var f := folder + "/" + ts + rest;
    assert f[..|folder| + 1] == folder + "/";
    assert f[|folder| + 1..|folder| + 1 + |ts|] == ts;
  }
}

/** The image-upload edge function's `serve` handler. */
module ImageUpload {
  import opened Wrappers
  import opened Text
  import opened UploadNames
  import RateLimit
  import opened Edge

  const ALLOWED_TYPES: seq<string> := ["image/jpeg", "image/jpg", "image/png", "image/webp", "image/gif"]

  /** 5 MB; a file of exactly this size is accepted. */
  const MAX_SIZE: nat := 5 * 1024 * 1024

  datatype FileInfo = FileInfo(name: string, mimeType: string, size: nat)

  /** The parsed form: the `file` entry and the `folder` entry. */
  datatype Form = Form(file: Option<FileInfo>, folder: Option<string>)

  datatype Request = Request(verb: string, forwardedFor: Option<string>,
                             authorization: Option<string>, form: Option<Form>)

  datatype Rejection = NoFile | BadType | TooLarge

  datatype Stored = Stored(path: string, url: string, filename: string, size: nat, mimeType: string)

  datatype Outcome = Outcome(status: int, limiter: RateLimit.Table, rejection: Option<Rejection>,
                             stored: Option<Stored>)

  /** The checks on the form, in order: a file, an allowed type, the size. */
  function CheckFile(form: Form): (r: Option<Rejection>)
    ensures r == Some(NoFile) <==> form.file.None?
    ensures r == Some(BadType) <==> form.file.Some? && form.file.value.mimeType !in ALLOWED_TYPES
    ensures r == Some(TooLarge) <==>
      form.file.Some? && form.file.value.mimeType in ALLOWED_TYPES && form.file.value.size > MAX_SIZE
    ensures r.None? <==>
      form.file.Some? && form.file.value.mimeType in ALLOWED_TYPES && form.file.value.size <= MAX_SIZE
  {
    if form.file.None? then Some(NoFile)
    else if form.file.value.mimeType !in ALLOWED_TYPES then Some(BadType)
    else if form.file.value.size > MAX_SIZE then Some(TooLarge)
    else None
  }

  /** The name a validated upload is stored under. */
  function StoredName(form: Form, now: nat, random: string): string
    requires form.file.Some?
  {
    Filename(FolderOrDefault(form.folder), now, random, form.file.value.name)
  }

  /** The handler. The form parse (`None` when it throws), the storage
      upload (the stored path for a file name, `None` on error), the
      public-URL lookup, the clock and the random text are inputs. */
  function Serve(req: Request, token: Option<string>, now: nat, random: string,
                 limiter: RateLimit.Table, upload: string -> Option<string>, publicUrl: string -> string): (r: Outcome)
    ensures r.status in {200, 201, 400, 401, 405, 429, 500}
    ensures r.status == 200 <==> req.verb == "OPTIONS"
    ensures r.status == 405 <==> req.verb != "OPTIONS" && req.verb != "POST"
    ensures req.verb != "POST" ==> r.limiter == limiter && r.stored.None?
    ensures req.verb == "POST" ==>
      var (allowed, limiter') := RateLimit.Check(limiter, ClientIp(req.forwardedFor), now,
                                                 RateLimit.UPLOAD_MAX_REQUESTS, RateLimit.WINDOW_MS);
      r.limiter == limiter'
      && (r.status == 429 <==> !allowed)
      && (r.status == 401 <==> allowed && !Authorised(req.authorization, token))
      && (r.status == 400 <==>
            allowed && Authorised(req.authorization, token) && req.form.Some? && CheckFile(req.form.value).Some?)
      && (r.status == 400 ==> r.rejection == CheckFile(req.form.value))
      && (r.stored.Some? <==> r.status == 201)
      && (r.status == 201 <==>
            allowed && Authorised(req.authorization, token) && req.form.Some?
            && CheckFile(req.form.value).None? && upload(StoredName(req.form.value, now, random)).Some?)
    ensures r.status == 201 ==>
      var file := req.form.value.file.value;
      var name := StoredName(req.form.value, now, random);
      r.stored.value == Stored(upload(name).value, publicUrl(upload(name).value), name, file.size, file.mimeType)
  {
    if req.verb == "OPTIONS" then Outcome(200, limiter, None, None)
    else if req.verb != "POST" then Outcome(405, limiter, None, None)
    else
      var (allowed, limiter') := RateLimit.Check(limiter, ClientIp(req.forwardedFor), now,
                                                 RateLimit.UPLOAD_MAX_REQUESTS, RateLimit.WINDOW_MS);
      if !allowed then Outcome(429, limiter', None, None)
      else if !Authorised(req.authorization, token) then Outcome(401, limiter', None, None)
      else if req.form.None? then Outcome(500, limiter', None, None)
      else
        var form := req.form.value;
        var rejection := CheckFile(form);
        if rejection.Some? then Outcome(400, limiter', rejection, None)
        else
          var file := form.file.value;
          var filename := StoredName(form, now, random);
          var path := upload(filename);
          if path.None? then Outcome(500, limiter', None, None)
          else Outcome(201, limiter', None,
                       Some(Stored(path.value, publicUrl(path.value), filename, file.size, file.mimeType)))
  }

  /** The size limit is inclusive: exactly 5 MB passes, one byte more fails;
      a disallowed type is reported before an excessive size. */
  lemma SizeBoundary(name: string, mimeType: string, folder: Option<string>)
    requires mimeType in ALLOWED_TYPES
    ensures CheckFile(Form(Some(FileInfo(name, mimeType, 5242880)), folder)).None?
    ensures CheckFile(Form(Some(FileInfo(name, mimeType, 5242881)), folder)) == Some(TooLarge)
    ensures CheckFile(Form(Some(FileInfo(name, "image/svg+xml", 5242881)), folder)) == Some(BadType)
  {
  }

  /** The five accepted types and nothing else. */
  lemma AllowedTypesExactly(t: string)
    ensures t in ALLOWED_TYPES <==>
      t == "image/jpeg" || t == "image/jpg" || t == "image/png" || t == "image/webp" || t == "image/gif"
  {
  }
}

/** `storage.ts`: public URLs and the client-side upload and delete helpers.
    The `blog-images` bucket is the set of paths it stores; `publicUrl`
    answers `getPublicUrl`, and whether the storage client reports an error
    for reasons other than the bucket's contents (network, permissions) is
    a parameter. */
module Storage {
  import opened Wrappers
  import opened Text
  import opened UploadNames

  /** `getBlogImageUrl(path)`: empty stays empty, anything starting with
      `http` is passed through, the rest goes to the bucket's public URL. */
  function BlogImageUrl(path: string, publicUrl: string -> string): (r: string)
    ensures |path| == 0 ==> r == ""
    ensures |path| > 0 && StartsWith(path, "http") ==> r == path
    ensures |path| > 0 && !StartsWith(path, "http") ==> r == publicUrl(path)
  {
    if |path| == 0 then ""
    else if StartsWith(path, "http") then path
    else publicUrl(path)
  }

  /** When the client's public URLs are absolute `http` URLs, resolving a
      resolved URL changes nothing. */
  lemma BlogImageUrlIdempotent(path: string, publicUrl: string -> string)
    requires forall p :: StartsWith(publicUrl(p), "http")
    ensures BlogImageUrl(BlogImageUrl(path, publicUrl), publicUrl) == BlogImageUrl(path, publicUrl)
  {
  }

  /** Any `http`-prefixed text is treated as a URL, including ones that are
      not URLs at all. */
  lemma HttpPrefixPassesThrough()
    ensures BlogImageUrl("httpfoo.png", _ => "https://x") == "httpfoo.png"
  {
  }

  datatype Folder = Featured | Content | Thumbnails

  function FolderName(f: Folder): (r: string)
    ensures f == Content <==> r == DEFAULT_FOLDER
  {
    match f
    case Featured => "featured"
    case Content => "content"
    case Thumbnails => "thumbnails"
  }

  /** `uploadBlogImage(file, folder)` against `bucket`: with `upsert: false`
      an occupied path is an error, like a client error; either gives `None`
      and leaves the bucket alone. Otherwise the file is stored under the
      generated name, which is returned with its resolved URL. */
  function UploadBlogImage(bucket: set<string>, name: string, folder: Folder, now: nat, random: string,
                           clientError: bool, publicUrl: string -> string): (r: (Option<(string, string)>, set<string>))
    ensures var filename := Filename(FolderName(folder), now, random, name);
      (r.0.Some? <==> !clientError && filename !in bucket)
      && (r.0.Some? ==> r.0.value == (filename, BlogImageUrl(filename, publicUrl)) && r.1 == bucket + {filename})
      && (r.0.None? ==> r.1 == bucket)
  {
    var filename := Filename(FolderName(folder), now, random, name);
    if clientError || filename in bucket then (None, bucket)
    else (Some((filename, BlogImageUrl(filename, publicUrl))), bucket + {filename})
  }

  /** The name the helper asks the client to store under: same scheme as the
      edge function, in the chosen folder. */
  lemma UploadNameScheme(name: string, folder: Folder, now: nat, random: string)
    ensures var f := Filename(FolderName(folder), now, random, name);
      StartsWith(f, FolderName(folder) + "/") && Extension(f) == Extension(name)
  {
    FilenamePrefix(FolderName(folder), now, random, name);
    FilenameExtension(FolderName(folder), now, random, name);
  }

  /** `deleteBlogImage(path)` against `bucket`: `remove([path])` takes the
      path out (a path that is not stored is no error), and the helper
      reports true exactly when the client reports no error. */
  function DeleteBlogImage(bucket: set<string>, path: string, clientError: bool): (r: (bool, set<string>))
    ensures r.0 <==> !clientError
    ensures r.0 ==> path !in r.1 && r.1 <= bucket && bucket - r.1 <= {path}
    ensures !r.0 ==> r.1 == bucket
  {
    if clientError then (false, bucket) else (true, bucket - {path})
  }

  /** Uploading and then deleting the returned path restores the bucket. */
  lemma UploadThenDeleteRestores(bucket: set<string>, name: string, folder: Folder, now: nat, random: string,
                                 publicUrl: string -> string)
    ensures var (r, after) := UploadBlogImage(bucket, name, folder, now, random, false, publicUrl);
      r.Some? ==> DeleteBlogImage(after, r.value.0, false) == (true, bucket)
  {
    var (r, after) := UploadBlogImage(bucket, name, folder, now, random, false, publicUrl);
    if r.Some? {
      var f := r.value.0;
      assert f !in bucket;
      assert after - {f} == bucket;
    }
  }

  /** A second delete of the same path still succeeds and changes nothing. */
  lemma DeleteTwiceIsDeleteOnce(bucket: set<string>, path: string)
    ensures var (_, once) := DeleteBlogImage(bucket, path, false);
      DeleteBlogImage(once, path, false) == (true, once)
  {
    var once := bucket - {path};
    assert once - {path} == once;
  }
}
