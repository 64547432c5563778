/** The image service of the product use case: it uploads the files of one
    request to the cloud, one by one, skips the files whose upload fails,
    and stores the images of the files that did upload.

    The request's files are values (name, bytes, and the error opening them
    gives, if any); the cloud's replies, SHA-1 and the Unix clock are the
    Remote parameter; the fresh image ids are newId(i) for the i-th file of
    the request; the time stamp is one reading `now`. */
module ImageService {
  import opened Domain
  import opened Text
  import opened Store
  import Cloudinary

  /** At most this many files per request, and images per product. */
  const MAX_IMAGES: nat := 4

  datatype FileHeader = FileHeader(filename: string, content: seq<bv8>, openError: Option<Error>)

  /** What lies outside the process: the cloud's reply to a posted form,
      SHA-1 in hex, and the Unix time in seconds. */
  datatype Remote = Remote(
    send: Cloudinary.Form -> Result<Cloudinary.UploadReply>,
    digest: string -> string,
    unixSeconds: int)

  // ---------------------------------------------------------------------
  // File names
  // ---------------------------------------------------------------------

  /** safeFilename: the last element of the path, every space replaced by
      an underscore. */
  function SafeFilename(name: string): (r: string)
    ensures r != [] && ' ' !in r
    ensures r == "/" || '/' !in r
  {
    ReplaceChar(Base(name), ' ', '_')
  }

  /** A plain name without slashes or spaces is kept as it is. */
  lemma SafeFilenameKeepsPlainName(name: string)
    requires name != [] && '/' !in name && ' ' !in name
    ensures SafeFilename(name) == name
  {
    BaseOfPlainName(name);
  }

  lemma SafeFilenameIdempotent(name: string)
    ensures SafeFilename(SafeFilename(name)) == SafeFilename(name)
  {
    var r := SafeFilename(name);
    if r != "/" {
      SafeFilenameKeepsPlainName(r);
    }
  }

  // ---------------------------------------------------------------------
  // Wiring of the uploader
  // ---------------------------------------------------------------------

  /** The cloud settings of the configuration. */
  datatype CloudConfig = CloudConfig(cloudName: string, apiKey: string, apiSecret: string, uploadPreset: string, folder: string)

  /** The container builds an uploader only for a named cloud with a preset
      or an API key; otherwise the image service gets none (a nil client). */
  function WireUploader(cfg: CloudConfig): (r: Option<Cloudinary.Client>)
    ensures r.Some? <==> cfg.cloudName != [] && (cfg.uploadPreset != [] || cfg.apiKey != [])
    ensures r.Some? ==> r.value == Cloudinary.Client(cfg.cloudName, cfg.apiKey, cfg.apiSecret, cfg.uploadPreset, cfg.folder)
  {
    if cfg.cloudName != [] && (cfg.uploadPreset != [] || cfg.apiKey != []) then
      Some(Cloudinary.Client(cfg.cloudName, cfg.apiKey, cfg.apiSecret, cfg.uploadPreset, cfg.folder))
    else None
  }

  // ---------------------------------------------------------------------
  // One file's upload
  // ---------------------------------------------------------------------

  /** What one file's upload comes to in the code as written: the signed
      upload when the uploader has a key and a secret, the unsigned upload
      otherwise, and that includes no uploader at all, where reading the
      preset of the nil client stops the request with a run-time panic. */
  datatype Attempt = Sent(result: Result<string>) | NilDereference

  ghost function UploadOneAsWritten(uploader: Option<Cloudinary.Client>, f: FileHeader, remote: Remote): Attempt {
    var filename := SafeFilename(f.filename);
    if uploader.Some? && uploader.value.apiKey != [] && uploader.value.apiSecret != [] then
      Sent(Cloudinary.SignedUpload(uploader.value, f.content, filename, map[], remote.unixSeconds, remote.digest, remote.send))
    else if uploader.None? then NilDereference
    else Sent(Cloudinary.UploadUnsigned(uploader.value, f.content, filename, remote.send))
  }

  /** A service wired without cloud settings panics on the first file that
      opens. */
  lemma UnconfiguredCloudDereferencesNil(cfg: CloudConfig, f: FileHeader, remote: Remote)
    requires cfg.cloudName == []
    ensures UploadOneAsWritten(WireUploader(cfg), f, remote) == NilDereference
  {
  }

  /** One file's upload as corrected: with no uploader the upload fails like
      any other failed upload, and the file is skipped. */
  ghost function UploadOne(uploader: Option<Cloudinary.Client>, f: FileHeader, remote: Remote): Result<string> {
    var filename := SafeFilename(f.filename);
    match uploader
    case None => Err(Invalid(NoUploader))
    case Some(c) =>
      if c.apiKey != [] && c.apiSecret != [] then
        Cloudinary.SignedUpload(c, f.content, filename, map[], remote.unixSeconds, remote.digest, remote.send)
      else Cloudinary.UploadUnsigned(c, f.content, filename, remote.send)
  }

  /** The correction changes nothing for a configured uploader, and without
      one every upload fails instead of panicking. */
  lemma UploadOneCorrectsOnlyNil(uploader: Option<Cloudinary.Client>, f: FileHeader, remote: Remote)
    ensures uploader.Some? ==> UploadOneAsWritten(uploader, f, remote) == Sent(UploadOne(uploader, f, remote))
    ensures uploader.None? ==>
      UploadOneAsWritten(uploader, f, remote) == NilDereference && UploadOne(uploader, f, remote) == Err(Invalid(NoUploader))
  {
  }

  /** An uploaded URL is never empty. */
  lemma UploadOneUrl(uploader: Option<Cloudinary.Client>, f: FileHeader, remote: Remote)
    ensures UploadOne(uploader, f, remote).Ok? ==> UploadOne(uploader, f, remote).value != [] && uploader.Some?
  {
  }

  /** The upload of one file, as a function of the file. */
  ghost function Upload(uploader: Option<Cloudinary.Client>, remote: Remote): FileHeader -> Result<string> {
    f => UploadOne(uploader, f, remote)
  }

  // ---------------------------------------------------------------------
  // The loop over the files
  // ---------------------------------------------------------------------

  /** The images of the files that uploaded, in the order of the files; the
      first file that cannot be opened ends the loop with its error. */
  function Uploads(upload: FileHeader -> Result<string>, productId: Uuid, files: seq<FileHeader>,
                   newId: nat -> Uuid, now: Time): (r: Result<seq<ProductImage>>)
    ensures r.Ok? ==> |r.value| <= |files|
    ensures r.Ok? ==> forall k :: 0 <= k < |r.value| ==> r.value[k].productId == productId && r.value[k].createdAt == now
    decreases |files|
  {
    if files == [] then Ok([])
    else
      var n := |files| - 1;
      match Uploads(upload, productId, files[..n], newId, now)
      case Err(e) => Err(e)
      case Ok(done) =>
        if files[n].openError.Some? then Err(files[n].openError.value)
        else match upload(files[n])
          case Err(_) => Ok(done)
          case Ok(url) => Ok(done + [ProductImage(newId(n), productId, url, now)])
  }

  /** The indices of the files whose upload succeeds, ascending. */
  function Succeeded(upload: FileHeader -> Result<string>, files: seq<FileHeader>): (r: seq<nat>)
    ensures forall i, j :: 0 <= i < j < |r| ==> r[i] < r[j]
    ensures forall k :: 0 <= k < |r| ==> r[k] < |files| && upload(files[r[k]]).Ok?
    decreases |files|
  {
    if files == [] then []
    else
      var n := |files| - 1;
      Succeeded(upload, files[..n]) + (if upload(files[n]).Ok? then [n] else [])
  }

  /** Every file whose upload succeeds is among the succeeded ones. */
  lemma {:induction false} SucceededComplete(upload: FileHeader -> Result<string>, files: seq<FileHeader>, i: nat)
    requires i < |files| && upload(files[i]).Ok?
    ensures i in Succeeded(upload, files)
    decreases |files|
  {
    var n := |files| - 1;
    if i < n {
      assert files[..n][i] == files[i];
      SucceededComplete(upload, files[..n], i);
    }
  }

  /** Failed uploads are skipped: the k-th image comes from the k-th file
      that uploaded, with that file's URL and id. */
  lemma {:induction false} UploadsKeepSuccesses(upload: FileHeader -> Result<string>, productId: Uuid, files: seq<FileHeader>,
                                                newId: nat -> Uuid, now: Time)
    requires Uploads(upload, productId, files, newId, now).Ok?
    ensures var up := Uploads(upload, productId, files, newId, now).value;
      var s := Succeeded(upload, files);
      && |up| == |s|
      && forall k :: 0 <= k < |s| ==> up[k] == ProductImage(newId(s[k]), productId, upload(files[s[k]]).value, now)
    decreases |files|
  {
    if files != [] {
      var n := |files| - 1;
      UploadsKeepSuccesses(upload, productId, files[..n], newId, now);
      var s0 := Succeeded(upload, files[..n]);
      assert forall k :: 0 <= k < |s0| ==> files[..n][s0[k]] == files[s0[k]];
    }
  }

  /** The loop ends with an error exactly when some file cannot be opened,
      and the error is that of the first such file. */
  lemma {:induction false} UploadsOpenErrors(upload: FileHeader -> Result<string>, productId: Uuid, files: seq<FileHeader>,
                                             newId: nat -> Uuid, now: Time)
    ensures Uploads(upload, productId, files, newId, now).Ok? <==> forall i :: 0 <= i < |files| ==> files[i].openError.None?
    ensures Uploads(upload, productId, files, newId, now).Err? ==>
      exists i :: 0 <= i < |files| && files[i].openError == Some(Uploads(upload, productId, files, newId, now).error)
        && forall j :: 0 <= j < i ==> files[j].openError.None?
    decreases |files|
  {
    if files != [] {
      var n := |files| - 1;
      UploadsOpenErrors(upload, productId, files[..n], newId, now);
      assert forall i :: 0 <= i < n ==> files[..n][i] == files[i];
    }
  }

  /** Once the loop has failed on a prefix, it fails with that error. */
  lemma {:induction false} UploadsErrSticks(upload: FileHeader -> Result<string>, productId: Uuid, files: seq<FileHeader>,
                                            newId: nat -> Uuid, now: Time, m: nat, e: Error)
    requires m <= |files|
    requires Uploads(upload, productId, files[..m], newId, now) == Err(e)
    ensures Uploads(upload, productId, files, newId, now) == Err(e)
    decreases |files|
  {
    if m < |files| {
      var n := |files| - 1;
      assert files[..n][..m] == files[..m];
      UploadsErrSticks(upload, productId, files[..n], newId, now, m, e);
    } else {
      assert files[..m] == files;
    }
  }

  /** When no upload can succeed, the loop yields no image. */
  lemma {:induction false} NothingUploads(upload: FileHeader -> Result<string>, productId: Uuid, files: seq<FileHeader>,
                                          newId: nat -> Uuid, now: Time)
    requires forall f :: upload(f).Err?
    ensures Uploads(upload, productId, files, newId, now).Ok? ==> Uploads(upload, productId, files, newId, now).value == []
    decreases |files|
  {
    if files != [] {
      NothingUploads(upload, productId, files[..|files| - 1], newId, now);
    }
  }

  // ---------------------------------------------------------------------
  // UploadImages
  // ---------------------------------------------------------------------

  /** No id of the new images is taken in the image table, and no two of
      them share one: either would violate the primary key. */
  predicate IdsFresh(images: seq<ProductImage>, up: seq<ProductImage>) {
    && (forall im, k :: im in images && 0 <= k < |up| ==> im.id != up[k].id)
    && (forall k, l :: 0 <= k < l < |up| ==> up[k].id != up[l].id)
  }

  /** The end of the request once the loop is done: no image is an error,
      otherwise the images are stored unless an id is taken. */
  function StoreSpec(images: seq<ProductImage>, uploaded: Result<seq<ProductImage>>): (Result<seq<ProductImage>>, seq<ProductImage>) {
    match uploaded
    case Err(e) => (Err(e), images)
    case Ok(up) =>
      if up == [] then (Err(Invalid(NoImageUploaded)), images)
      else if !IdsFresh(images, up) then (Err(DuplicateKey("product_images")), images)
      else (Ok(up), images + up)
  }

  /** What UploadImages returns, and the image table after it. */
  ghost function UploadSpec(images: seq<ProductImage>, uploader: Option<Cloudinary.Client>, productId: Uuid, files: seq<FileHeader>,
                            remote: Remote, newId: nat -> Uuid, now: Time): (Result<seq<ProductImage>>, seq<ProductImage>)
  {
    if |files| == 0 then (Err(Invalid(NoFiles)), images)
    else if |files| > MAX_IMAGES then (Err(Invalid(TooManyFiles)), images)
    else if |ImagesOf(images, productId)| + |files| > MAX_IMAGES then (Err(Invalid(ImageLimit)), images)
    else StoreSpec(images, Uploads(Upload(uploader, remote), productId, files, newId, now))
  }

  lemma {:induction false} ImagesOfAppend(a: seq<ProductImage>, b: seq<ProductImage>, productId: Uuid)
    ensures ImagesOf(a + b, productId) == ImagesOf(a, productId) + ImagesOf(b, productId)
    decreases |b|
  {
    if b != [] {
      var n := |b| - 1;
      assert (a + b)[..|a + b| - 1] == a + b[..n];
      ImagesOfAppend(a, b[..n], productId);
    } else {
      assert a + b == a;
    }
  }

  lemma {:induction false} ImagesOfAllSame(up: seq<ProductImage>, productId: Uuid)
    requires forall k :: 0 <= k < |up| ==> up[k].productId == productId
    ensures ImagesOf(up, productId) == up
    decreases |up|
  {
    if up != [] {
      var n := |up| - 1;
      var prefix := up[..n];
      assert forall k :: 0 <= k < n ==> prefix[k] == up[k];
      ImagesOfAllSame(prefix, productId);
      assert up == prefix + [up[n]];
    }
  }

  /** The request is refused, and nothing stored, for no files, for more
      than four files, for more than four images of the product in all,
      and, with files that all open, when no file uploaded. */
  lemma UploadSpecRefusals(images: seq<ProductImage>, uploader: Option<Cloudinary.Client>, productId: Uuid, files: seq<FileHeader>,
                           remote: Remote, newId: nat -> Uuid, now: Time)
    ensures var (r, images') := UploadSpec(images, uploader, productId, files, remote, newId, now);
      && (r.Err? ==> images' == images)
      && (|files| == 0 ==> r == Err(Invalid(NoFiles)))
      && (|files| > MAX_IMAGES ==> r == Err(Invalid(TooManyFiles)))
      && (0 < |files| <= MAX_IMAGES && |ImagesOf(images, productId)| + |files| > MAX_IMAGES ==> r == Err(Invalid(ImageLimit)))
      && (0 < |files| <= MAX_IMAGES && |ImagesOf(images, productId)| + |files| <= MAX_IMAGES
          && (forall i :: 0 <= i < |files| ==> files[i].openError.None?)
          && Succeeded(Upload(uploader, remote), files) == []
          ==> r == Err(Invalid(NoImageUploaded)))
  {
    var upload := Upload(uploader, remote);
    if 0 < |files| <= MAX_IMAGES && |ImagesOf(images, productId)| + |files| <= MAX_IMAGES
       && (forall i :: 0 <= i < |files| ==> files[i].openError.None?) {
      UploadsOpenErrors(upload, productId, files, newId, now);
      UploadsKeepSuccesses(upload, productId, files, newId, now);
    }
  }

  /** A successful request stores exactly the returned images, one to four
      of them, all of the product, and the product then has at most four. */
  lemma UploadSpecStores(images: seq<ProductImage>, uploader: Option<Cloudinary.Client>, productId: Uuid, files: seq<FileHeader>,
                         remote: Remote, newId: nat -> Uuid, now: Time)
    requires UploadSpec(images, uploader, productId, files, remote, newId, now).0.Ok?
    ensures var (r, images') := UploadSpec(images, uploader, productId, files, remote, newId, now);
      && images' == images + r.value
      && 1 <= |r.value| <= |files| <= MAX_IMAGES
      && (forall k :: 0 <= k < |r.value| ==> r.value[k].productId == productId)
      && |ImagesOf(images', productId)| == |ImagesOf(images, productId)| + |r.value| <= MAX_IMAGES
  {
    var spec := UploadSpec(images, uploader, productId, files, remote, newId, now);
    assert 0 < |files| <= MAX_IMAGES && |ImagesOf(images, productId)| + |files| <= MAX_IMAGES;
    var uploaded := Uploads(Upload(uploader, remote), productId, files, newId, now);
    assert spec == StoreSpec(images, uploaded);
    var up := uploaded.value;
    assert spec == (Ok(up), images + up);
    ImagesOfAppend(images, up, productId);
    ImagesOfAllSame(up, productId);
  }

  /** The corrected service wired without cloud settings refuses every
      request and stores nothing; with openable files inside the limits the
      refusal is "no image uploaded". */
  lemma UnconfiguredCloudStoresNothing(cfg: CloudConfig, images: seq<ProductImage>, productId: Uuid, files: seq<FileHeader>,
                                       remote: Remote, newId: nat -> Uuid, now: Time)
    requires cfg.cloudName == []
    ensures var (r, images') := UploadSpec(images, WireUploader(cfg), productId, files, remote, newId, now);
      && r.Err? && images' == images
      && (0 < |files| <= MAX_IMAGES && |ImagesOf(images, productId)| + |files| <= MAX_IMAGES
          && (forall i :: 0 <= i < |files| ==> files[i].openError.None?)
          ==> r == Err(Invalid(NoImageUploaded)))
  {
    var upload := Upload(None, remote);
    assert forall f :: upload(f).Err?;
    NothingUploads(upload, productId, files, newId, now);
    UploadsOpenErrors(upload, productId, files, newId, now);
  }

  class ImageService {
    const db: Db
    /** The cloud client; None is the nil client. */
    const uploader: Option<Cloudinary.Client>

    constructor (db: Db, uploader: Option<Cloudinary.Client>)
      ensures this.db == db && this.uploader == uploader
    {
      this.db := db;
      this.uploader := uploader;
    }

    /** One file: its name made safe, then the signed upload when the client
        has a key and a secret, else the unsigned one; with no client the
        upload fails. */
    method UploadFile(f: FileHeader, remote: Remote) returns (r: Result<string>)
      ensures r == Upload(uploader, remote)(f)
    {
      var filename := SafeFilename(f.filename);
      if uploader.Some? && uploader.value.apiKey != [] && uploader.value.apiSecret != [] {
        r := Cloudinary.UploadSigned(uploader.value, f.content, filename, map[], remote.unixSeconds, remote.digest, remote.send);
      } else if uploader.None? {
        r := Err(Invalid(NoUploader));
      } else {
        r := Cloudinary.UploadUnsigned(uploader.value, f.content, filename, remote.send);
      }
    }

    /** The loop over the files: an unopened file ends it with its error, a
        failed upload is skipped. */
    method UploadEach(productId: Uuid, files: seq<FileHeader>, remote: Remote, newId: nat -> Uuid, now: Time)
      returns (r: Result<seq<ProductImage>>)
      ensures r == Uploads(Upload(uploader, remote), productId, files, newId, now)
    {
      var uploaded: seq<ProductImage> := [];
      var i := 0;
      while i < |files|
        invariant 0 <= i <= |files|
        invariant Uploads(Upload(uploader, remote), productId, files[..i], newId, now) == Ok(uploaded)
      {
        assert files[..i + 1][..i] == files[..i];
        var f := files[i];
        if f.openError.Some? {
          UploadsErrSticks(Upload(uploader, remote), productId, files, newId, now, i + 1, f.openError.value);
          return Err(f.openError.value);
        }
        var url := UploadFile(f, remote);
        if url.Ok? {
          uploaded := uploaded + [ProductImage(newId(i), productId, url.value, now)];
        }
        i := i + 1;
      }
      assert files[..i] == files;
      r := Ok(uploaded);
    }

    /** After the loop: refuse when nothing uploaded, else store the images,
        stamped with the time they carry already. */
    method Store(uploaded: Result<seq<ProductImage>>, now: Time) returns (r: Result<seq<ProductImage>>)
      requires db.Valid()
      requires uploaded.Ok? ==> forall k :: 0 <= k < |uploaded.value| ==> uploaded.value[k].createdAt == now
      modifies db`images
      ensures db.Valid()
      ensures (r, db.images) == StoreSpec(old(db.images), uploaded)
    {
      if uploaded.Err? {
        return Err(uploaded.error);
      }
      var up := uploaded.value;
      if up == [] {
        return Err(Invalid(NoImageUploaded));
      }
      var stored := db.AddImages(up, now);
      if stored.Fail? {
        return Err(stored.error);
      }
      assert seq(|up|, k requires 0 <= k < |up| => up[k].(createdAt := now)) == up;
      r := Ok(up);
    }

    method UploadImages(productId: Uuid, files: seq<FileHeader>, remote: Remote, newId: nat -> Uuid, now: Time)
      returns (r: Result<seq<ProductImage>>)
      requires db.Valid()
      modifies db`images
      ensures db.Valid()
      ensures (r, db.images) == UploadSpec(old(db.images), uploader, productId, files, remote, newId, now)
    {
      if |files| == 0 {
        return Err(Invalid(NoFiles));
      }
      if |files| > MAX_IMAGES {
        return Err(Invalid(TooManyFiles));
      }
      var current := db.CountImagesByProduct(productId);
      if current + |files| > MAX_IMAGES {
        return Err(Invalid(ImageLimit));
      }
      var uploaded := UploadEach(productId, files, remote, newId, now);
      r := Store(uploaded, now);
    }

    /** ListImages: the images of the product. */
    function ListImages(productId: Uuid): (r: seq<ProductImage>)
      reads db
      ensures |r| == db.CountImagesByProduct(productId)
      ensures forall k :: 0 <= k < |r| ==> r[k].productId == productId && r[k] in db.images
      ensures forall im :: im in db.images && im.productId == productId ==> im in r
    {
      ImagesOfIn(db.images, productId);
      ImagesOf(db.images, productId)
    }
  }

  lemma {:induction false} ImagesOfIn(images: seq<ProductImage>, productId: Uuid)
    ensures forall im :: im in ImagesOf(images, productId) ==> im in images
    decreases |images|
  {
    if images != [] {
      ImagesOfIn(images[..|images| - 1], productId);
    }
  }
}
