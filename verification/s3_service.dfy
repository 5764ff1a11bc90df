/** The object-store client: the service record built from the stored
    credentials, the image-listing pipeline (extension filter, all-or-nothing
    validation, URL signing, newest-first sort) and the upload entry point.

    The remote listing, the URL signer and the uploader belong to the cloud
    SDK; they are parameters here (total functions from a request to its
    outcome), so a call's result is whatever the parameter says.
 */
module S3Service {
  import opened Outcomes
  import opened Records
  import opened Text

  /** Page size of the single listing request; no further pages are read. */
  const MaxKeys: int := 1000
  /** Lifetime in seconds of every signed URL. */
  const SignedUrlExpires: int := 3600
  /** Extensions of the objects the gallery shows, compared lower-case. */
  const ImageExtensions: seq<string> := [".jpg", ".jpeg", ".png", ".gif", ".bmp", ".webp", ".svg"]

  const NotConfiguredMessage: string := "S3 service not configured. Please provide your AWS credentials."
  const UploadNotConfiguredMessage: string := "S3 service not configured"
  const FetchFailedPrefix: string := "Failed to fetch images: "
  const UploadFailedPrefix: string := "Failed to upload image: "
  const InvalidObjectMessage: string := "Invalid object data"
  const UnknownErrorMessage: string := "Unknown error"
  const UploadFolder: string := "uploads/"

  /* ---------------------------------------------------------------- */
  /* Construction                                                      */
  /* ---------------------------------------------------------------- */

  /** The SDK handle: the credentials it was configured with and its
      default bucket. */
  datatype Client = Client(accessKeyId: string, secretAccessKey: string, region: string, bucket: string)

  /** The service object: the loaded credential record and the client
      handle, each possibly null. */
  datatype Service = Service(config: Option<S3Config>, client: Option<Client>)

  /** What `initializeS3` configures the SDK with. */
  function ClientFor(c: S3Config): Client
  {
    Client(c.accessKeyId, c.secretAccessKey, c.region, c.bucketName)
  }

  /** The constructor, which runs `loadConfig`: a stored record that parses
      to a credential record sets both the record and a client built from
      it. A missing entry, text that does not parse, or a parsed `null`
      (which makes `initializeS3` throw, and the throw is swallowed) leaves
      both null. */
  function LoadConfig(store: Store): (svc: Service)
    ensures svc.config.Some? <==> StorageKey in store && store[StorageKey].Record?
    ensures svc.config.Some? ==> svc.config.value == store[StorageKey].config
    ensures svc.client.Some? <==> svc.config.Some?
    ensures svc.client.Some? ==> svc.client.value == ClientFor(svc.config.value)
  {
    if StorageKey in store then
      match store[StorageKey]
      case Record(c) => Service(Some(c), Some(ClientFor(c)))
      case JsonNull => Service(None, None)
      case Unparseable => Service(None, None)
    else Service(None, None)
  }

  predicate IsConfigured(svc: Service)
  {
    svc.config.Some? && svc.client.Some?
  }

  function GetConfig(svc: Service): Option<S3Config>
  {
    svc.config
  }

  /** A freshly constructed service is configured exactly when the store
      holds a credential record, and then it reports that record. */
  lemma ConfiguredIffRecordStored(store: Store)
    ensures IsConfigured(LoadConfig(store)) <==> StorageKey in store && store[StorageKey].Record?
    ensures IsConfigured(LoadConfig(store)) ==> GetConfig(LoadConfig(store)) == Some(store[StorageKey].config)
    ensures !IsConfigured(LoadConfig(store)) ==> GetConfig(LoadConfig(store)).None?
  {
  }

  /* ---------------------------------------------------------------- */
  /* Remote calls                                                      */
  /* ---------------------------------------------------------------- */

  datatype ListRequest = ListRequest(bucket: string, maxKeys: int)

  /** Outcome of the listing call: a rejection, or a response whose
      `Contents` may be absent. */
  datatype Listing = ListingFailed(cause: Thrown) | Listed(contents: Option<seq<S3Object>>)

  datatype SignRequest = SignRequest(operation: string, bucket: string, key: string, expires: int)

  /** Outcome of one signing call. */
  datatype Signing = SignFailed(cause: Thrown) | SignedUrl(url: string)

  /** `"Failed to fetch images: "` followed by the cause's message, or by
      `"Unknown error"` when the cause is not an `Error`. */
  function FetchFailure(cause: Thrown): (msg: string)
    ensures StartsWith(msg, FetchFailedPrefix)
    ensures msg[|FetchFailedPrefix|..] == MessageOr(cause, UnknownErrorMessage)
  {
    FetchFailedPrefix + MessageOr(cause, UnknownErrorMessage)
  }

  /* ---------------------------------------------------------------- */
  /* Extension filter                                                  */
  /* ---------------------------------------------------------------- */

  /** `obj.Key` with an absent key read as the empty string. */
  function KeyText(o: S3Object): string
  {
    match o.key
    case Some(k) => k
    case None => ""
  }

  /** Whether the lower-cased key ends in one of the image extensions. */
  predicate IsImageKey(key: string)
  {
    EndsWithAny(Lower(key), ImageExtensions)
  }

  predicate IsImageObject(o: S3Object)
  {
    IsImageKey(KeyText(o))
  }

  /** `s.filter(keep)`: the elements satisfying `keep`, each as often as
      it occurs, in order. */
  function KeepIf(s: seq<S3Object>, keep: S3Object -> bool): (kept: seq<S3Object>)
    ensures forall x :: multiset(kept)[x] == if keep(x) then multiset(s)[x] else 0
    ensures forall i :: 0 <= i < |kept| ==> keep(kept[i])
    ensures |kept| <= |s|
  {
    if |s| == 0 then []
    else
      var head := s[0];
      var rest := KeepIf(s[1..], keep);
      assert multiset(s) == multiset{head} + multiset(s[1..]) by {
        assert s == [head] + s[1..];
      }
      if keep(head) then [head] + rest else rest
  }

  /** Filtering a two-element listing. */
  lemma KeepIfPair(a: S3Object, b: S3Object, keep: S3Object -> bool)
    ensures KeepIf([a, b], keep) == (if keep(a) then [a] else []) + (if keep(b) then [b] else [])
  {
    assert [a, b][1..] == [b];
    assert [b][1..] == [];
  }

  /** The filter step: keeps exactly the image objects, each as many times
      as it occurs. */
  function FilterImages(contents: seq<S3Object>): (kept: seq<S3Object>)
    ensures forall o :: multiset(kept)[o] == if IsImageObject(o) then multiset(contents)[o] else 0
    ensures forall i :: 0 <= i < |kept| ==> IsImageObject(kept[i])
    ensures |kept| <= |contents|
  {
    KeepIf(contents, IsImageObject)
  }

  /** Only objects with a non-empty key can pass the filter, because every
      extension is non-empty: an absent key reads as `""`. */
  lemma ImageObjectsHaveKeys(o: S3Object)
    requires IsImageObject(o)
    ensures o.key.Some? && o.key.value != ""
  {
  }

  /** The filter ignores letter case. */
  lemma ImageKeyIgnoresCase(key: string)
    ensures IsImageKey(Lower(key)) <==> IsImageKey(key)
  {
  }

  /* ---------------------------------------------------------------- */
  /* Validation and signing                                            */
  /* ---------------------------------------------------------------- */

  /** An object passes the `!obj.Key || !obj.LastModified || !obj.Size`
      guard: a key that is present and non-empty, a modification time, and
      a size that is present and non-zero. */
  predicate WellFormed(o: S3Object)
  {
    && o.key.Some? && o.key.value != ""
    && o.lastModified.Some?
    && o.size.Some? && o.size.value != 0
  }

  function SignRequestFor(bucket: string, o: S3Object): SignRequest
  {
    SignRequest("getObject", bucket, KeyText(o), SignedUrlExpires)
  }

  /** `img` copies the key, modification time and size of `o`, and its URL
      is the one the signer returned for `o`'s key. */
  predicate Describes(img: S3Image, o: S3Object, bucket: string, sign: SignRequest -> Signing)
  {
    && o.key == Some(img.key)
    && o.lastModified == Some(img.lastModified)
    && o.size == Some(img.size)
    && sign(SignRequestFor(bucket, o)) == SignedUrl(img.url)
  }

  /** The `Promise.all` over the per-object signing calls: every object
      becomes an image, or the whole step fails with some signer's cause. */
  function SignAll(kept: seq<S3Object>, bucket: string, sign: SignRequest -> Signing): (r: Result<seq<S3Image>, Thrown>)
    requires forall i :: 0 <= i < |kept| ==> WellFormed(kept[i])
    ensures r.Ok? <==> forall i :: 0 <= i < |kept| ==> sign(SignRequestFor(bucket, kept[i])).SignedUrl?
    ensures r.Ok? ==> |r.value| == |kept|
    ensures r.Ok? ==> forall i :: 0 <= i < |kept| ==> Describes(r.value[i], kept[i], bucket, sign)
    ensures r.Err? ==> exists i :: 0 <= i < |kept| && sign(SignRequestFor(bucket, kept[i])) == SignFailed(r.error)
  {
    if |kept| == 0 then Ok([])
    else
      var o := kept[0];
      assert WellFormed(o);
      match sign(SignRequestFor(bucket, o))
      case SignFailed(cause) => Err(cause)
      case SignedUrl(url) =>
        var img := S3Image(o.key.value, url, o.lastModified.value, o.size.value);
        match SignAll(kept[1..], bucket, sign)
        case Err(cause) => Err(cause)
        case Ok(rest) => Ok([img] + rest)
  }

  /* ---------------------------------------------------------------- */
  /* Newest-first sort                                                 */
  /* ---------------------------------------------------------------- */

  /** Every image is at least as recent as the one after it. */
  predicate NewestFirst(images: seq<S3Image>)
  {
    forall i :: 0 < i < |images| ==> images[i - 1].lastModified >= images[i].lastModified
  }

  /** Inserts `x` before the first image not more recent than it. */
  function Insert(x: S3Image, s: seq<S3Image>): (r: seq<S3Image>)
    requires NewestFirst(s)
    ensures NewestFirst(r)
    ensures multiset(r) == multiset(s) + multiset{x}
    ensures |r| > 0 && (r[0] == x || (|s| > 0 && r[0] == s[0]))
  {
    if |s| == 0 || x.lastModified >= s[0].lastModified then [x] + s
    else
      assert s == [s[0]] + s[1..];
      [s[0]] + Insert(x, s[1..])
  }

  /** `images.sort((a, b) => b.lastModified - a.lastModified)`: a stable
      insertion sort that puts the newest image first. */
  function SortNewestFirst(images: seq<S3Image>): (r: seq<S3Image>)
    ensures NewestFirst(r)
    ensures multiset(r) == multiset(images)
  {
    if |images| == 0 then []
    else
      assert images == [images[0]] + images[1..];
      Insert(images[0], SortNewestFirst(images[1..]))
  }

  /** The adjacent-pair order extends to every pair. */
  lemma {:induction false} NewestFirstPairwise(images: seq<S3Image>, i: int, j: int)
    requires NewestFirst(images)
    requires 0 <= i <= j < |images|
    ensures images[i].lastModified >= images[j].lastModified
    decreases j - i
  {
    if i < j {
      NewestFirstPairwise(images, i, j - 1);
    }
  }

  /* ---------------------------------------------------------------- */
  /* listImages                                                        */
  /* ---------------------------------------------------------------- */

  /** Images in a permutation of the signed entries describe exactly the
      kept objects. */
  lemma PermutationDescribes(kept: seq<S3Object>, signed: seq<S3Image>, out: seq<S3Image>,
                             bucket: string, sign: SignRequest -> Signing)
    requires |signed| == |kept|
    requires forall i :: 0 <= i < |kept| ==> Describes(signed[i], kept[i], bucket, sign)
    requires multiset(out) == multiset(signed)
    ensures forall img :: img in out ==> exists o :: o in kept && Describes(img, o, bucket, sign)
    ensures forall o :: o in kept ==> exists img :: img in out && Describes(img, o, bucket, sign)
  {
    forall img | img in out
      ensures exists o :: o in kept && Describes(img, o, bucket, sign)
    {
      assert img in multiset(signed);
      var i :| 0 <= i < |signed| && signed[i] == img;
      assert kept[i] in kept;
    }
    forall o | o in kept
      ensures exists img :: img in out && Describes(img, o, bucket, sign)
    {
      var i :| 0 <= i < |kept| && kept[i] == o;
      assert signed[i] in multiset(out);
    }
  }

  /** Signing and sorting a validated batch: success exactly when every
      signing call succeeds, yielding, newest first, one entry per object
      copying its fields and carrying its signed URL; otherwise the cause of
      a failed signing call, re-raised with the fetch prefix. */
  function SignAndSort(kept: seq<S3Object>, bucket: string, sign: SignRequest -> Signing)
    : (r: Result<seq<S3Image>, string>)
    requires forall i :: 0 <= i < |kept| ==> WellFormed(kept[i])
    ensures r.Ok? <==> forall i :: 0 <= i < |kept| ==> sign(SignRequestFor(bucket, kept[i])).SignedUrl?
    ensures r.Err? ==>
      exists i :: 0 <= i < |kept| && sign(SignRequestFor(bucket, kept[i])).SignFailed?
        && r.error == FetchFailure(sign(SignRequestFor(bucket, kept[i])).cause)
    ensures r.Ok? ==> NewestFirst(r.value) && |r.value| == |kept|
    ensures r.Ok? ==> forall img :: img in r.value ==> exists o :: o in kept && Describes(img, o, bucket, sign)
    ensures r.Ok? ==> forall o :: o in kept ==> exists img :: img in r.value && Describes(img, o, bucket, sign)
    ensures r.Ok? ==>
      && SignAll(kept, bucket, sign).Ok?
      && multiset(r.value) == multiset(SignAll(kept, bucket, sign).value)
  {
    match SignAll(kept, bucket, sign)
    case Err(cause) => Err(FetchFailure(cause))
    case Ok(signed) =>
      var out := SortNewestFirst(signed);
      PermutationDescribes(kept, signed, out, bucket, sign);
      assert |out| == |signed| by {
        assert |multiset(out)| == |multiset(signed)|;
      }
      Ok(out)
  }

  /** The body of the `try` once `Contents` is present: filter, then reject
      the whole batch if any kept object is malformed, else sign and sort. */
  function ProcessContents(contents: seq<S3Object>, bucket: string, sign: SignRequest -> Signing)
    : (r: Result<seq<S3Image>, string>)
    ensures r.Err? ==> StartsWith(r.error, FetchFailedPrefix)
    ensures (exists i :: 0 <= i < |FilterImages(contents)| && !WellFormed(FilterImages(contents)[i])) ==>
      r == Err(FetchFailure(ErrorObject(InvalidObjectMessage)))
    ensures (forall i :: 0 <= i < |FilterImages(contents)| ==> WellFormed(FilterImages(contents)[i])) ==>
      r == SignAndSort(FilterImages(contents), bucket, sign)
  {
    var kept := FilterImages(contents);
    if exists i :: 0 <= i < |kept| && !WellFormed(kept[i]) then
      Err(FetchFailure(ErrorObject(InvalidObjectMessage)))
    else
      SignAndSort(kept, bucket, sign)
  }

  /** Every object is well formed and its signing call succeeds. */
  predicate BatchSucceeds(kept: seq<S3Object>, bucket: string, sign: SignRequest -> Signing)
  {
    forall i :: 0 <= i < |kept| ==> WellFormed(kept[i]) && sign(SignRequestFor(bucket, kept[i])).SignedUrl?
  }

  /** All or nothing: the batch succeeds exactly when every kept object is
      well formed and every signing call succeeds. Malformed objects the
      filter drops play no part. */
  lemma ProcessContentsAllOrNothing(contents: seq<S3Object>, bucket: string, sign: SignRequest -> Signing)
    ensures ProcessContents(contents, bucket, sign).Ok? <==> BatchSucceeds(FilterImages(contents), bucket, sign)
  {
    var kept := FilterImages(contents);
    var r := ProcessContents(contents, bucket, sign);
    if exists i :: 0 <= i < |kept| && !WellFormed(kept[i]) {
      var i :| 0 <= i < |kept| && !WellFormed(kept[i]);
      assert r.Err?;
    } else {
      assert forall i :: 0 <= i < |kept| ==> WellFormed(kept[i]);
      var s := SignAndSort(kept, bucket, sign);
      assert r == s;
      assert s.Ok? <==> forall i :: 0 <= i < |kept| ==> sign(SignRequestFor(bucket, kept[i])).SignedUrl?;
    }
  }

  /** Every image described from a kept object has an image key. */
  lemma DescribedImagesAreImages(kept: seq<S3Object>, out: seq<S3Image>, bucket: string, sign: SignRequest -> Signing)
    requires forall i :: 0 <= i < |kept| ==> IsImageObject(kept[i])
    requires forall img :: img in out ==> exists o :: o in kept && Describes(img, o, bucket, sign)
    ensures forall k :: 0 <= k < |out| ==> IsImageKey(out[k].key)
  {
    forall k | 0 <= k < |out|
      ensures IsImageKey(out[k].key)
    {
      assert out[k] in out;
      var o :| o in kept && Describes(out[k], o, bucket, sign);
      var i :| 0 <= i < |kept| && kept[i] == o;
    }
  }

  /** `listImages`. An unconfigured service fails before any remote call,
      with a message that is not prefixed. Otherwise the listing request
      names the configured bucket and the page size; a rejected listing is
      re-raised with the `"Failed to fetch images: "` prefix; an absent
      `Contents` gives no images; and present contents go through
      `ProcessContents`. Every image returned has an image key and the list
      is newest first. */
  function ListImages(svc: Service, list: ListRequest -> Listing, sign: SignRequest -> Signing)
    : (r: Result<seq<S3Image>, string>)
    ensures !IsConfigured(svc) ==> r == Err(NotConfiguredMessage)
    ensures IsConfigured(svc) && r.Err? ==> StartsWith(r.error, FetchFailedPrefix)
    ensures r.Ok? ==> NewestFirst(r.value)
    ensures r.Ok? ==> forall k :: 0 <= k < |r.value| ==> IsImageKey(r.value[k].key)
    ensures IsConfigured(svc) ==>
      var bucket := svc.config.value.bucketName;
      match list(ListRequest(bucket, MaxKeys))
      case ListingFailed(cause) => r == Err(FetchFailure(cause))
      case Listed(None) => r == Ok([])
      case Listed(Some(contents)) => r == ProcessContents(contents, bucket, sign)
  {
    if !IsConfigured(svc) then Err(NotConfiguredMessage)
    else
      var bucket := svc.config.value.bucketName;
      match list(ListRequest(bucket, MaxKeys))
      case ListingFailed(cause) => Err(FetchFailure(cause))
      case Listed(None) => Ok([])
      case Listed(Some(contents)) =>
        var r := ProcessContents(contents, bucket, sign);
        if r.Ok? then
          DescribedImagesAreImages(FilterImages(contents), r.value, bucket, sign);
          r
        else r
  }

  /** An unconfigured service never consults the SDK: its answer is the
      same whatever the listing and the signer would have returned. */
  lemma UnconfiguredMakesNoRemoteCall(svc: Service, list1: ListRequest -> Listing, sign1: SignRequest -> Signing,
                                      list2: ListRequest -> Listing, sign2: SignRequest -> Signing)
    requires !IsConfigured(svc)
    ensures ListImages(svc, list1, sign1) == ListImages(svc, list2, sign2) == Err(NotConfiguredMessage)
  {
  }

  /** Every image extension ends in `g`, `f` or `p`, so a key whose
      lower-cased form ends in any other character is not an image key. */
  lemma NotImageByLastChar(key: string)
    requires |key| > 0
    requires Lower(key)[|key| - 1] !in {'g', 'f', 'p'}
    ensures !IsImageKey(key)
  {
  }

  lemma PictureIsImage(png: S3Object)
    requires png.key == Some("photos/a.png")
    ensures IsImageObject(png)
  {
    LowerCaseImageKey("photos/a.png", 2);
  }

  lemma TextIsNotImage(txt: S3Object)
    requires txt.key == Some("docs/readme.txt")
    ensures !IsImageObject(txt)
  {
    assert Lower("docs/readme.txt") == "docs/readme.txt";
    NotImageByLastChar("docs/readme.txt");
  }

  /** The filter keeps the picture and drops the text file. */
  lemma PictureAndTextFiltered(png: S3Object, txt: S3Object)
    requires png.key == Some("photos/a.png") && txt.key == Some("docs/readme.txt")
    ensures FilterImages([png, txt]) == [png]
  {
    PictureIsImage(png);
    TextIsNotImage(txt);
    calc {
      FilterImages([png, txt]);
      KeepIf([png, txt], IsImageObject);
    == { KeepIfPair(png, txt, IsImageObject); }
      [png];
    }
  }

  /** A batch of one well-formed object whose signing succeeds yields the
      one entry built from it. */
  lemma SignSingle(o: S3Object, bucket: string, sign: SignRequest -> Signing, url: string)
    requires WellFormed(o)
    requires sign(SignRequestFor(bucket, o)) == SignedUrl(url)
    ensures SignAndSort([o], bucket, sign) == Ok([S3Image(o.key.value, url, o.lastModified.value, o.size.value)])
  {
    var img := S3Image(o.key.value, url, o.lastModified.value, o.size.value);
    var r := SignAll([o], bucket, sign);
    assert sign(SignRequestFor(bucket, [o][0])).SignedUrl?;
    assert Describes(r.value[0], o, bucket, sign);
    assert r.value == [img];
    assert SortNewestFirst([img]) == [img] by {
      assert [img][1..] == [];
    }
  }

  /** A bucket holding one picture and one text file lists exactly the
      picture, with its signed URL. */
  lemma OnlyThePictureIsListed(svc: Service, list: ListRequest -> Listing, sign: SignRequest -> Signing,
                               t1: int, t2: int, readmeSize: int, url: string)
    requires IsConfigured(svc)
    requires list(ListRequest(svc.config.value.bucketName, MaxKeys)) ==
      Listed(Some([S3Object(Some("photos/a.png"), Some(t1), Some(100)),
                   S3Object(Some("docs/readme.txt"), Some(t2), Some(readmeSize))]))
    requires sign(SignRequest("getObject", svc.config.value.bucketName, "photos/a.png", SignedUrlExpires)) == SignedUrl(url)
    ensures ListImages(svc, list, sign) == Ok([S3Image("photos/a.png", url, t1, 100)])
  {
    var png := S3Object(Some("photos/a.png"), Some(t1), Some(100));
    var txt := S3Object(Some("docs/readme.txt"), Some(t2), Some(readmeSize));
    PictureAndTextProcessed(png, txt, svc.config.value.bucketName, sign, url);
  }

  /** The `try` body on that listing: only the picture is signed and kept. */
  lemma PictureAndTextProcessed(png: S3Object, txt: S3Object, bucket: string,
                                sign: SignRequest -> Signing, url: string)
    requires png.key == Some("photos/a.png") && txt.key == Some("docs/readme.txt")
    requires png.lastModified.Some? && png.size == Some(100)
    requires sign(SignRequest("getObject", bucket, "photos/a.png", SignedUrlExpires)) == SignedUrl(url)
    ensures ProcessContents([png, txt], bucket, sign) == Ok([S3Image("photos/a.png", url, png.lastModified.value, 100)])
  {
    PictureAndTextFiltered(png, txt);
    assert WellFormed([png][0]);
    assert SignRequestFor(bucket, png) == SignRequest("getObject", bucket, "photos/a.png", SignedUrlExpires);
    SignSingle(png, bucket, sign, url);
  }

  /** Upper-case extensions count: `A.PNG` is an image key. */
  lemma UpperCaseExtensionKept()
    ensures IsImageKey("A.PNG")
  {
  }

  /** An all-lower-case key ending in an image extension is an image key. */
  lemma LowerCaseImageKey(key: string, i: nat)
    requires forall j :: 0 <= j < |key| ==> !IsUpper(key[j])
    requires i < |ImageExtensions| && EndsWith(key, ImageExtensions[i])
    ensures IsImageKey(key)
  {
    assert Lower(key) == key;
  }

  /** An image object of size 0 anywhere in the listing fails the whole
      call, whatever the signer would say about the other objects. */
  lemma ZeroByteImageFailsListing(svc: Service, list: ListRequest -> Listing, sign: SignRequest -> Signing,
                                  contents: seq<S3Object>, o: S3Object)
    requires IsConfigured(svc)
    requires list(ListRequest(svc.config.value.bucketName, MaxKeys)) == Listed(Some(contents))
    requires o in contents && IsImageObject(o) && o.size == Some(0)
    ensures ListImages(svc, list, sign) == Err(FetchFailure(ErrorObject(InvalidObjectMessage)))
  {
    var kept := FilterImages(contents);
    assert o in multiset(kept);
    var i :| 0 <= i < |kept| && kept[i] == o;
    assert !WellFormed(kept[i]);
  }

  /* ---------------------------------------------------------------- */
  /* uploadImage                                                       */
  /* ---------------------------------------------------------------- */

  datatype LocalFile = LocalFile(name: string, contentType: string)

  datatype UploadRequest = UploadRequest(bucket: string, key: string, body: LocalFile, contentType: string, acl: string)

  datatype Uploading = UploadFailed(cause: Thrown) | UploadedTo(location: string)

  /** `key || \`uploads/${Date.now()}-${file.name}\``: the caller's key
      unless it is absent or empty, else a key in the uploads folder naming
      the time `now` (milliseconds) and the file. */
  function UploadKey(key: Option<string>, now: nat, fileName: string): (k: string)
    ensures key.Some? && key.value != "" ==> k == key.value
    ensures key.None? || key.value == "" ==>
      && StartsWith(k, UploadFolder)
      && EndsWith(k, "-" + fileName)
      && |k| == |UploadFolder| + |DecimalString(now)| + 1 + |fileName|
    ensures k != ""
  {
    if key.Some? && key.value != "" then key.value
    else
      var k := UploadFolder + DecimalString(now) + "-" + fileName;
      assert k[|k| - |fileName| - 1..] == "-" + fileName;
      k
  }

  /** The generated key records the upload time: the digits between the
      folder and the dash read back as `now`. */
  lemma DefaultUploadKeyTime(now: nat, fileName: string)
    ensures var k := UploadKey(None, now, fileName);
      var stamp := k[|UploadFolder|..|k| - |fileName| - 1];
      (forall i :: 0 <= i < |stamp| ==> IsDigit(stamp[i])) && ParseDecimal(stamp) == now
  {
    var k := UploadKey(None, now, fileName);
    var digits := DecimalString(now);
    assert k == UploadFolder + digits + "-" + fileName;
    assert k[|UploadFolder|..|k| - |fileName| - 1] == digits by {
      assert |k| - |fileName| - 1 == |UploadFolder| + |digits|;
      assert forall j :: 0 <= j < |digits| ==> k[|UploadFolder| + j] == digits[j];
    }
    ParseDecimalString(now);
  }

  /** A file uploaded under the generated key shows up in the gallery
      titled `<time>-<file name>`, provided the file name has no `/`. */
  lemma DefaultUploadKeyTitle(now: nat, fileName: string)
    requires '/' !in fileName
    ensures DisplayName(UploadKey(None, now, fileName)) == DecimalString(now) + "-" + fileName
  {
    var k := UploadKey(None, now, fileName);
    var t := DecimalString(now) + "-" + fileName;
    assert k == UploadFolder + t;
    assert '/' !in t by {
      forall i | 0 <= i < |t|
        ensures t[i] != '/'
      {
        if i < |DecimalString(now)| {
          assert IsDigit(t[i]);
        } else if i > |DecimalString(now)| {
          assert t[i] == fileName[i - |DecimalString(now)| - 1];
        }
      }
    }
    assert k[|k| - |t|..] == t;
    assert k[|k| - |t| - 1] == '/';
    LastSegmentUnique(k, t);
  }

  /** `uploadImage`: unconfigured services fail before the upload with an
      unprefixed message; otherwise one private upload of the file under
      `UploadKey` is issued to the configured bucket and its outcome is
      returned, failures carrying the `"Failed to upload image: "` prefix. */
  function UploadImage(svc: Service, file: LocalFile, key: Option<string>, now: nat,
                       upload: UploadRequest -> Uploading): (r: Result<string, string>)
    ensures !IsConfigured(svc) ==> r == Err(UploadNotConfiguredMessage)
    ensures IsConfigured(svc) ==>
      var req := upload(UploadRequest(svc.config.value.bucketName, UploadKey(key, now, file.name),
                                      file, file.contentType, "private"));
      && (r.Ok? <==> req.UploadedTo?)
      && (r.Ok? ==> r.value == req.location)
      && (r.Err? ==> StartsWith(r.error, UploadFailedPrefix)
                     && r.error[|UploadFailedPrefix|..] == MessageOr(req.cause, UnknownErrorMessage))
  {
    if !IsConfigured(svc) then Err(UploadNotConfiguredMessage)
    else
      var req := UploadRequest(svc.config.value.bucketName, UploadKey(key, now, file.name),
                               file, file.contentType, "private");
      match upload(req)
      case UploadFailed(cause) => Err(UploadFailedPrefix + MessageOr(cause, UnknownErrorMessage))
      case UploadedTo(location) => Ok(location)
  }
}
