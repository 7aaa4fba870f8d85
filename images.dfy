/**
 * Uploaded image files and the limits both image validators of the project
 * apply: at most 5 MiB, and one of four content types when the upload
 * carries a content type at all.
 */
module Images {
  import opened Wrappers

  /** 5 * 1024 * 1024 bytes. */
  const MaxImageBytes: nat := 5 * 1024 * 1024

  const AllowedContentTypes: set<string> := {"image/jpeg", "image/png", "image/gif", "image/webp"}

  /** The most images a listing may carry. */
  const MaxListingImages: nat := 5

  /** An uploaded file: its name, its size in bytes, and its content type when the upload object has one. */
  datatype Upload = Upload(name: string, size: nat, contentType: Option<string>)

  /** The size rule: strictly larger than 5 MiB is too large, exactly 5 MiB passes. */
  predicate TooLarge(image: Upload)
  {
    image.size > MaxImageBytes
  }

  /** The format rule: a content type, when there is one, must be allowed; no content type is not checked. */
  predicate BadFormat(image: Upload)
  {
    image.contentType.Some? && image.contentType.value !in AllowedContentTypes
  }
}
