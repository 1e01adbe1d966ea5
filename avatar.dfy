/** The avatar checks that the profile box (src/components/admin/AdminDashbox.tsx)
    and the settings panel (src/components/admin/AdminSettings.tsx) both run,
    in the same order, before uploading a picked image. Each component words
    the failures its own way; the decision itself is shared. */
module Avatar {
  import opened Str

  /** 5 MiB. */
  const MaxAvatarSize: nat := 5 * 1024 * 1024
  const MinSide: nat := 300

  datatype Picked = Picked(name: string, fileType: string, size: nat)

  /** The first check that failed, or `Passed`. `Unreadable` is the image's
      `onerror`. */
  datatype Verdict = TooLarge | NotImage | Unreadable | TooSmall | NotSquare | Passed

  /** The two checks made at once on the file, then, once the browser has
      decoded the image (`dims`, `None` when it could not), the two on its size. */
  function Check(f: Picked, dims: Option<(nat, nat)>): Verdict {
    if f.size > MaxAvatarSize then TooLarge
    else if !StartsWith(f.fileType, "image/") then NotImage
    else if dims.None? then Unreadable
    else if dims.value.0 < MinSide || dims.value.1 < MinSide then TooSmall
    else if dims.value.0 != dims.value.1 then NotSquare
    else Passed
  }

  /** An avatar is uploaded exactly when it is at most 5 MiB, has an image
      type, and is a square of at least 300 pixels a side. */
  lemma CheckPassed(f: Picked, dims: Option<(nat, nat)>)
    ensures Check(f, dims) == Passed <==>
      && f.size <= MaxAvatarSize && StartsWith(f.fileType, "image/")
      && dims.Some? && dims.value.0 == dims.value.1 >= MinSide
  {
  }

  /** The checks run in order, the first failure deciding the verdict: a
      file too large is refused whatever its type, a non-image whatever its
      dimensions, and a too small image even when it is square. */
  lemma CheckOrder(f: Picked, dims: Option<(nat, nat)>)
    ensures Check(f, dims) == TooLarge <==> f.size > MaxAvatarSize
    ensures Check(f, dims) == NotImage <==> f.size <= MaxAvatarSize && !StartsWith(f.fileType, "image/")
    ensures Check(f, dims) == Unreadable <==>
      f.size <= MaxAvatarSize && StartsWith(f.fileType, "image/") && dims.None?
    ensures Check(f, dims) == TooSmall <==>
      f.size <= MaxAvatarSize && StartsWith(f.fileType, "image/") && dims.Some?
      && (dims.value.0 < MinSide || dims.value.1 < MinSide)
    ensures Check(f, dims) == NotSquare <==>
      f.size <= MaxAvatarSize && StartsWith(f.fileType, "image/") && dims.Some?
      && dims.value.0 >= MinSide && dims.value.1 >= MinSide && dims.value.0 != dims.value.1
  {
  }

  /** Exactly 5 MiB still passes the size check. */
  lemma SizeBoundary(name: string, t: string, dims: Option<(nat, nat)>)
    ensures Check(Picked(name, t, 5242880), dims) != TooLarge
    ensures Check(Picked(name, t, 5242881), dims) == TooLarge
  {
  }

  /** What the storage upload answered: the public URL, or the error. */
  datatype Upload = Uploaded(url: string) | UploadFailed(detail: string)
}
