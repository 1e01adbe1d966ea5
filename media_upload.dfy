/** The media uploader (src/components/admin/MediaUpload.tsx): file checks,
    the list of uploads in progress, the gallery of uploaded media and the
    table of abort controllers keyed by upload. The upload service, the clock
    and the progress events are inputs; uploads are started and finished one
    after another. */
module MediaUpload {
  import opened Str

  /** 50 MiB. */
  const MaxFileSize: nat := 50 * 1024 * 1024

  const ImageTypes: seq<string> :=
    ["image/jpeg", "image/jpg", "image/png", "image/gif", "image/webp", "image/svg+xml"]
  const VideoTypes: seq<string> :=
    ["video/mp4", "video/webm", "video/mov", "video/avi", "video/quicktime"]

  function SupportedTypes(): seq<string> {
    ImageTypes + VideoTypes
  }

  /** The accepted types are eleven distinct MIME types, and none is both an
      image and a video type. */
  lemma SupportedTypesDistinct()
    ensures |SupportedTypes()| == 11
    ensures forall i, j :: 0 <= i < j < |SupportedTypes()| ==> SupportedTypes()[i] != SupportedTypes()[j]
    ensures forall t :: t in ImageTypes ==> t !in VideoTypes
  {
    forall t | t in ImageTypes
      ensures t !in VideoTypes
    {
      assert t[..6] == "image/";
      forall v | v in VideoTypes ensures v[..6] == "video/" { }
    }
  }

  datatype File = File(name: string, fileType: string, size: nat)

  datatype Problem = UnsupportedType(fileType: string) | TooLarge(size: nat)

  /** `validateFile` (MediaUpload.tsx:51-66); `None` is `isValid: true`. */
  function ValidateFile(f: File): Option<Problem> {
    if f.fileType !in SupportedTypes() then Some(UnsupportedType(f.fileType))
    else if f.size > MaxFileSize then Some(TooLarge(f.size))
    else None
  }

  /** A file passes exactly when its type is listed and it is at most 50 MiB;
      the type is checked first, so an unlisted type is reported whatever the size. */
  lemma ValidateFileSpec(f: File)
    ensures ValidateFile(f).None? <==> f.fileType in SupportedTypes() && f.size <= MaxFileSize
    ensures ValidateFile(f) == Some(UnsupportedType(f.fileType)) <==> f.fileType !in SupportedTypes()
    ensures ValidateFile(f) == Some(TooLarge(f.size)) <==> f.fileType in SupportedTypes() && f.size > MaxFileSize
  {
  }

  /** Exactly 50 MiB is accepted and one byte more is not. */
  lemma ValidateFileBoundary(name: string, t: string)
    requires t in SupportedTypes()
    ensures ValidateFile(File(name, t, 52428800)).None?
    ensures ValidateFile(File(name, t, 52428801)) == Some(TooLarge(52428801))
  {
  }

  datatype Category = Image | Video

  /** `getFileCategory` (MediaUpload.tsx:75-76). */
  function GetFileCategory(fileType: string): Category {
    if fileType in ImageTypes then Image else Video
  }

  /** Image types are shown as images; every other type, including the
      video types and anything unlisted, is shown as a video. */
  lemma GetFileCategorySpec(fileType: string)
    ensures GetFileCategory(fileType) == Image <==> fileType in ImageTypes
    ensures fileType in VideoTypes ==> GetFileCategory(fileType) == Video
    ensures fileType in SupportedTypes() && GetFileCategory(fileType) == Video ==> fileType in VideoTypes
  {
    SupportedTypesDistinct();
  }

  /** The pre-validation loop of `handleFileUpload` (MediaUpload.tsx:157-160):
      the first invalid file and its problem, or `None` when all pass. */
  method FirstInvalid(files: seq<File>) returns (r: Option<(nat, Problem)>)
    ensures r.None? <==> forall i :: 0 <= i < |files| ==> ValidateFile(files[i]).None?
    ensures r.Some? ==> r.value.0 < |files| && ValidateFile(files[r.value.0]) == Some(r.value.1)
    ensures r.Some? ==> forall i :: 0 <= i < r.value.0 ==> ValidateFile(files[i]).None?
  {
    var i := 0;
    while i < |files|
      invariant i <= |files|
      invariant forall j :: 0 <= j < i ==> ValidateFile(files[j]).None?
    {
      var v := ValidateFile(files[i]);
      if v.Some? {
        return Some((i, v.value));
      }
      i := i + 1;
    }
    return None;
  }

  /** The key under which an upload's abort controller is kept:
      `${file.name}-${Date.now()}`. */
  function UploadKey(fileName: string, now: nat): string {
    fileName + "-" + NatToString(now)
  }

  /** `key.includes(fileName)`: the test `cancelUpload` applies to each key
      (MediaUpload.tsx:176). */
  predicate CancelMatchAsWritten(key: string, fileName: string) {
    Contains(key, fileName)
  }

  /** The as-written test also aborts uploads of other files whose name has
      the cancelled name inside it: cancelling `a.png` aborts the upload of
      `ba.png`. */
  lemma CancelMatchAsWrittenOvermatches()
    ensures CancelMatchAsWritten(UploadKey("ba.png", 5), "a.png")
    ensures "ba.png" != "a.png"
  {
    assert UploadKey("ba.png", 5) == "ba.png-5";
    assert HasAt("ba.png-5", 1, "a.png");
  }

  predicate AllDigits(s: string) {
    forall i :: 0 <= i < |s| ==> '0' <= s[i] <= '9'
  }

  /** The corrected test: the key is the file's name, a dash and a time stamp. */
  predicate KeyFor(key: string, fileName: string) {
    |fileName| + 1 < |key| && key[..|fileName|] == fileName && key[|fileName|] == '-'
    && AllDigits(key[|fileName| + 1..])
  }

  /** With the corrected test an upload's key is matched by its own file's
      name and by no other name, whatever the time stamps. */
  lemma KeyForExact(fileName: string, now: nat, other: string)
    ensures KeyFor(UploadKey(fileName, now), other) <==> other == fileName
  {
    var key := UploadKey(fileName, now);
    var d := NatToString(now);
    assert key[..|fileName|] == fileName;
    assert key[|fileName|] == '-';
    assert key[|fileName| + 1..] == d;
  }

  datatype Status = Uploading | Completed | Failed | Cancelled

  /** An entry of the progress list; `progress` is a percentage. */
  datatype UploadProgress = UploadProgress(fileName: string, progress: real, status: Status, error: Option<string>)

  datatype Media = Media(id: string, url: string, fileName: string, fileType: string, fileSize: nat,
                         uploadedAt: string, thumbnailUrl: Option<string>)

  /** What the upload service answered: a response, whose id and url may be
      missing, or an exception, whose message is present when it is an `Error`. */
  datatype Outcome =
    | Response(fileId: Option<string>, url: Option<string>, thumbnailUrl: Option<string>)
    | Thrown(message: Option<string>)

  /** The entries of `fileName` with their progress set (MediaUpload.tsx:112-116). */
  function SetProgress(ups: seq<UploadProgress>, fileName: string, p: real): (r: seq<UploadProgress>)
    ensures |r| == |ups|
    ensures forall i :: 0 <= i < |ups| ==>
      r[i] == if ups[i].fileName == fileName then ups[i].(progress := p) else ups[i]
  {
    if ups == [] then []
    else [if ups[0].fileName == fileName then ups[0].(progress := p) else ups[0]]
         + SetProgress(ups[1..], fileName, p)
  }

  /** The entries of `fileName` marked completed at 100% (MediaUpload.tsx:136-142). */
  function MarkCompleted(ups: seq<UploadProgress>, fileName: string): (r: seq<UploadProgress>)
    ensures |r| == |ups|
    ensures forall i :: 0 <= i < |ups| ==>
      r[i] == if ups[i].fileName == fileName then ups[i].(progress := 100.0, status := Completed) else ups[i]
  {
    if ups == [] then []
    else [if ups[0].fileName == fileName then ups[0].(progress := 100.0, status := Completed) else ups[0]]
         + MarkCompleted(ups[1..], fileName)
  }

  /** The entries of `fileName` marked failed with a message (MediaUpload.tsx:145-149). */
  function MarkFailed(ups: seq<UploadProgress>, fileName: string, msg: string): (r: seq<UploadProgress>)
    ensures |r| == |ups|
    ensures forall i :: 0 <= i < |ups| ==>
      r[i] == if ups[i].fileName == fileName then ups[i].(status := Failed, error := Some(msg)) else ups[i]
  {
    if ups == [] then []
    else [if ups[0].fileName == fileName then ups[0].(status := Failed, error := Some(msg)) else ups[0]]
         + MarkFailed(ups[1..], fileName, msg)
  }

  predicate Active(u: UploadProgress) {
    u.status == Uploading || u.status == Failed
  }

  /** "Clear Completed" (MediaUpload.tsx:232-235). */
  function KeepActive(ups: seq<UploadProgress>): (r: seq<UploadProgress>)
    ensures |r| <= |ups|
  {
    if ups == [] then []
    else if Active(ups[0]) then [ups[0]] + KeepActive(ups[1..])
    else KeepActive(ups[1..])
  }

  /** Clearing keeps exactly the entries still uploading or failed, in their
      order: it distributes over concatenation, and an entry is kept iff it is active. */
  lemma {:induction false} KeepActiveSpec(a: seq<UploadProgress>, b: seq<UploadProgress>)
    ensures KeepActive(a + b) == KeepActive(a) + KeepActive(b)
    ensures forall u :: u in KeepActive(a) <==> u in a && Active(u)
    decreases |a|
  {
    if a == [] {
      assert a + b == b;
    } else {
      assert (a + b)[1..] == a[1..] + b;
      KeepActiveSpec(a[1..], b);
    }
  }

  /** Clearing twice is clearing once. */
  lemma {:induction false} KeepActiveIdempotent(ups: seq<UploadProgress>)
    ensures KeepActive(KeepActive(ups)) == KeepActive(ups)
    decreases |ups|
  {
    if ups != [] {
      KeepActiveIdempotent(ups[1..]);
    }
  }

  /** "Remove" on a gallery card (MediaUpload.tsx:290). */
  function WithoutMedia(ms: seq<Media>, id: string): (r: seq<Media>)
    ensures |r| <= |ms|
  {
    if ms == [] then []
    else if ms[0].id == id then WithoutMedia(ms[1..], id)
    else [ms[0]] + WithoutMedia(ms[1..], id)
  }

  /** Removing deletes every card with that id and keeps the others in order. */
  lemma {:induction false} WithoutMediaSpec(a: seq<Media>, b: seq<Media>, id: string)
    ensures WithoutMedia(a + b, id) == WithoutMedia(a, id) + WithoutMedia(b, id)
    ensures forall m :: m in WithoutMedia(a, id) <==> m in a && m.id != id
    decreases |a|
  {
    if a == [] {
      assert a + b == b;
    } else {
      assert (a + b)[1..] == a[1..] + b;
      WithoutMediaSpec(a[1..], b, id);
    }
  }

  /** The progress entries a batch of new uploads appends, one per file. */
  function Started(files: seq<File>): (r: seq<UploadProgress>)
    ensures |r| == |files|
    ensures forall i :: 0 <= i < |files| ==> r[i] == UploadProgress(files[i].name, 0.0, Uploading, None)
  {
    if files == [] then [] else [UploadProgress(files[0].name, 0.0, Uploading, None)] + Started(files[1..])
  }

  /** The keys a batch of uploads started at `now` registers. */
  function NewKeys(files: seq<File>, now: nat): set<string> {
    set i | 0 <= i < |files| :: UploadKey(files[i].name, now)
  }

  /** The controller table after a batch of uploads is started: one fresh,
      unaborted controller per new key, and the others untouched. */
  function Registered(controllers: map<string, bool>, files: seq<File>, now: nat): (r: map<string, bool>)
    ensures r.Keys == controllers.Keys + NewKeys(files, now)
    ensures forall k :: k in r ==> r[k] == if k in NewKeys(files, now) then false else controllers[k]
    decreases |files|
  {
    if files == [] then controllers
    else Registered(controllers[UploadKey(files[0].name, now) := false], files[1..], now)
  }

  /** Starting one more file appends its one entry. */
  lemma StartedStep(files: seq<File>, i: nat)
    requires i < |files|
    ensures Started(files[..i + 1]) == Started(files[..i]) + [UploadProgress(files[i].name, 0.0, Uploading, None)]
  {
    assert files[..i + 1] == files[..i] + [files[i]];
    StartedSplit(files[..i], [files[i]]);
  }

  /** Registering the rest of a batch is registering its first file, then the others. */
  lemma RegisteredStep(controllers: map<string, bool>, files: seq<File>, i: nat, now: nat)
    requires i < |files|
    ensures Registered(controllers, files[i..], now)
      == Registered(controllers[UploadKey(files[i].name, now) := false], files[i + 1..], now)
  {
    assert files[i..][0] == files[i];
    assert files[i..][1..] == files[i + 1..];
  }

  /** The component's state. `controllers` maps an upload's key to whether
      its controller was aborted. */
  class Uploader {
    var uploads: seq<UploadProgress>
    var media: seq<Media>
    var controllers: map<string, bool>

    constructor ()
      ensures uploads == [] && media == [] && controllers == map[]
    {
      uploads, media, controllers := [], [], map[];
    }

    /** The first, synchronous part of `uploadSingleFile` (MediaUpload.tsx:92-96). */
    method StartUpload(file: File, now: nat) returns (uploadId: string)
      modifies this
      ensures uploadId == UploadKey(file.name, now)
      ensures controllers == old(controllers)[uploadId := false]
      ensures uploads == old(uploads) + [UploadProgress(file.name, 0.0, Uploading, None)]
      ensures media == old(media)
    {
      uploadId := file.name + "-" + NatToString(now);
      controllers := controllers[uploadId := false];
      uploads := uploads + [UploadProgress(file.name, 0.0, Uploading, None)];
    }

    /** `onProgress` (MediaUpload.tsx:110-117); `p` is `loaded / total * 100`. */
    method OnProgress(file: File, p: real)
      modifies this
      ensures uploads == SetProgress(old(uploads), file.name, p)
      ensures media == old(media) && controllers == old(controllers)
    {
      uploads := SetProgress(uploads, file.name, p);
    }

    /** The rest of `uploadSingleFile` once the service has answered
        (MediaUpload.tsx:121-152). */
    method FinishUpload(file: File, uploadId: string, outcome: Outcome, uploadedAt: string)
      modifies this
      ensures outcome.Response? && Truthy(outcome.fileId) && Truthy(outcome.url) ==>
        && media == old(media) + [Media(outcome.fileId.value, outcome.url.value, file.name, file.fileType,
                                        file.size, uploadedAt, outcome.thumbnailUrl)]
        && uploads == MarkCompleted(old(uploads), file.name)
      ensures outcome.Response? && !(Truthy(outcome.fileId) && Truthy(outcome.url)) ==>
        && media == old(media)
        && uploads == MarkFailed(old(uploads), file.name, "Upload response missing fileId or url")
      ensures outcome.Thrown? ==>
        && media == old(media)
        && uploads == MarkFailed(old(uploads), file.name,
                                 if outcome.message.Some? then outcome.message.value else "Upload failed")
      ensures controllers == old(controllers) - {uploadId}
    {
      match outcome {
        case Response(fileId, url, thumb) =>
          if !Truthy(fileId) || !Truthy(url) {
            uploads := MarkFailed(uploads, file.name, "Upload response missing fileId or url");
          } else {
            var uploaded := Media(fileId.value, url.value, file.name, file.fileType, file.size, uploadedAt, thumb);
            media := media + [uploaded];
            uploads := MarkCompleted(uploads, file.name);
          }
        case Thrown(message) =>
          var errorMsg := if message.Some? then message.value else "Upload failed";
          uploads := MarkFailed(uploads, file.name, errorMsg);
      }
      controllers := controllers - {uploadId};
    }

    /** `handleFileUpload` up to the point where every upload has been
        started (MediaUpload.tsx:155-161). If some file is invalid, the first
        one is reported and nothing starts. */
    method HandleFileUpload(files: seq<File>, now: nat) returns (alert: Option<(File, Problem)>)
      modifies this
      ensures alert.Some? ==>
        && (exists i :: 0 <= i < |files| && files[i] == alert.value.0
                        && forall j :: 0 <= j < i ==> ValidateFile(files[j]).None?)
        && ValidateFile(alert.value.0) == Some(alert.value.1)
        && uploads == old(uploads) && controllers == old(controllers)
      ensures alert.None? ==>
        && (forall i :: 0 <= i < |files| ==> ValidateFile(files[i]).None?)
        && uploads == old(uploads) + Started(files)
        && controllers == Registered(old(controllers), files, now)
      ensures media == old(media)
    {
      var bad := FirstInvalid(files);
      if bad.Some? {
        assert files[bad.value.0] == files[bad.value.0];
        return Some((files[bad.value.0], bad.value.1));
      }
      alert := None;
      var i := 0;
      while i < |files|
        invariant i <= |files|
        invariant uploads == old(uploads) + Started(files[..i])
        invariant Registered(old(controllers), files, now) == Registered(controllers, files[i..], now)
        invariant media == old(media)
      {
        StartedStep(files, i);
        RegisteredStep(controllers, files, i, now);
        var _ := StartUpload(files[i], now);
        i := i + 1;
      }
      assert files[..i] == files;
    }

    /** "Clear Completed". */
    method ClearCompleted()
      modifies this
      ensures uploads == KeepActive(old(uploads))
      ensures media == old(media) && controllers == old(controllers)
    {
      uploads := KeepActive(uploads);
    }

    /** "Remove" on a gallery card. */
    method RemoveMedia(id: string)
      modifies this
      ensures media == WithoutMedia(old(media), id)
      ensures uploads == old(uploads) && controllers == old(controllers)
    {
      media := WithoutMedia(media, id);
    }

    /** `cancelUpload` (MediaUpload.tsx:174-178) with the corrected key test:
        the controllers of the uploads of this file are aborted, and no
        other. Aborting twice is harmless. */
    method CancelUpload(fileName: string)
      modifies this
      ensures controllers.Keys == old(controllers).Keys
      ensures forall k :: k in controllers ==> controllers[k] == (old(controllers)[k] || KeyFor(k, fileName))
      ensures uploads == old(uploads) && media == old(media)
    {
      var remaining := controllers.Keys;
      while remaining != {}
        invariant remaining <= controllers.Keys == old(controllers).Keys
        invariant forall k :: k in controllers ==>
          controllers[k] == (old(controllers)[k] || (k !in remaining && KeyFor(k, fileName)))
        invariant uploads == old(uploads) && media == old(media)
        decreases remaining
      {
        var key :| key in remaining;
        if KeyFor(key, fileName) {
          controllers := controllers[key := true];
        }
        remaining := remaining - {key};
      }
    }
  }

  lemma {:induction false} StartedSplit(a: seq<File>, b: seq<File>)
    ensures Started(a + b) == Started(a) + Started(b)
    decreases |a|
  {
    if a == [] {
      assert a + b == b;
    } else {
      assert (a + b)[1..] == a[1..] + b;
      StartedSplit(a[1..], b);
    }
  }
}
