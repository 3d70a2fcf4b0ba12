/** Evidence attachments: the image check the moderation commands apply to
    an optional attachment before acting, and the `IsValidAttachment`
    validator the moderation-log service declares. */
module Evidence {
  import opened Common

  /** Largest accepted attachment, in bytes (512 kB). */
  const MaxImageBytes: int := 512_000

  const ImageMediaPrefix: string := "image/"

  /** The error reply for a rejected attachment. */
  const BadImageText: string := "The attachement you provided is either not a valid image is greater then 512kB."

  /** The metadata of a `DiscordAttachment`; `mediaType` may be missing. */
  datatype Attachment = Attachment(mediaType: Option<string>, fileSize: int)

  predicate IsImage(a: Attachment) {
    a.mediaType.Some? && StartsWith(a.mediaType.value, ImageMediaPrefix)
  }

  predicate WithinSizeLimit(a: Attachment) {
    a.fileSize <= MaxImageBytes
  }

  /** `IsValidAttachment`: no error exactly when the attachment is an image
      within the size limit. An attachment without a media type is not an
      image. */
  function AttachmentError(a: Attachment): (r: Option<string>)
    ensures r.None? <==> IsImage(a) && WithinSizeLimit(a)
    ensures r.Some? ==> r.value == BadImageText
  {
    if IsImage(a) && WithinSizeLimit(a) then None else Some(BadImageText)
  }

  /** The verdict of the inline check in the kick command. */
  datatype ImageCheck = Accepted | Rejected | Throws

  /** `image is not null && !image.MediaType!.StartsWith("image/") ||
      image is not null && image.FileSize > 512_000`, evaluated left to right:
      no attachment passes; a missing media type dereferences null and throws;
      otherwise a non-image or an oversized file is rejected. */
  function CheckImage(image: Option<Attachment>): (r: ImageCheck)
    ensures image.None? ==> r == Accepted
    ensures r == Throws <==> image.Some? && image.value.mediaType.None?
    ensures image.Some? && image.value.mediaType.Some? ==>
              (r == Accepted <==> AttachmentError(image.value).None?)
  {
    match image
    case None => Accepted
    case Some(a) =>
      match a.mediaType
      case None => Throws
      case Some(t) =>
        if !StartsWith(t, ImageMediaPrefix) then Rejected
        else if a.fileSize > MaxImageBytes then Rejected
        else Accepted
  }

  /** The size boundary and the media-type rule on concrete attachments. */
  lemma ValidationExamples()
    ensures AttachmentError(Attachment(Some("image/png"), 512_000)).None?
    ensures AttachmentError(Attachment(Some("image/png"), 512_001)).Some?
    ensures AttachmentError(Attachment(Some("text/plain"), 600_000)).Some?
    ensures AttachmentError(Attachment(Some("text/plain"), 10)).Some?
    ensures CheckImage(Some(Attachment(Some("image/jpeg"), 512_000))) == Accepted
    ensures CheckImage(Some(Attachment(Some("image/jpeg"), 512_001))) == Rejected
  {
    assert StartsWith("image/png", ImageMediaPrefix) by {
      assert "image/png"[..6] == "image/";
    }
    assert !StartsWith("text/plain", ImageMediaPrefix) by {
      assert "text/plain"[0] != 'i';
    }
    assert StartsWith("image/jpeg", ImageMediaPrefix) by {
      assert "image/jpeg"[..6] == "image/";
    }
  }
}
