/** The upload validator (`processFile` in index.js): a file is accepted when its
    MIME type starts with "image/" and it is at most 5 MiB long. */
module Upload {
  import opened Base

  /** The two properties of a browser `File` that the validator reads. */
  datatype File = File(mime: string, size: nat)

  const MaxBytes: nat := 5 * 1024 * 1024

  const InvalidImageMessage: string := "Invalid image (must be JPG/PNG, <=5MB)."

  datatype Verdict = Accept | Reject(message: string)

  function Validate(f: File): (r: Verdict)
    ensures r.Accept? <==> |f.mime| >= 6 && f.mime[..6] == "image/" && f.size <= 5242880
    ensures r.Reject? ==> r.message == "Invalid image (must be JPG/PNG, <=5MB)."
  {
    if StartsWith(f.mime, "image/") && f.size <= MaxBytes then Accept
    else Reject(InvalidImageMessage)
  }

  /** The size bound is inclusive: exactly 5 MiB passes, one byte more does not. */
  lemma SizeBoundaryIsInclusive(mime: string)
    requires StartsWith(mime, "image/")
    ensures Validate(File(mime, 5242880)) == Accept
    ensures Validate(File(mime, 5242881)) == Reject(InvalidImageMessage)
  {
  }

  /** The type test is a case-sensitive prefix test: any "image/" subtype passes,
      an upper-case or non-image type does not. */
  lemma TypeTestIsCaseSensitivePrefix()
    ensures Validate(File("image/png", 0)) == Accept
    ensures Validate(File("image/svg+xml", 1)) == Accept
    ensures Validate(File("Image/png", 0)).Reject?
    ensures Validate(File("application/pdf", 0)).Reject?
    ensures Validate(File("image", 0)).Reject?
  {
    assert "image/png"[..6] == "image/";
    assert "image/svg+xml"[..6] == "image/";
    assert "Image/png"[..6] != "image/" by { assert "Image/png"[0] != "image/"[0]; }
    assert "application/pdf"[..6] != "image/" by { assert "application/pdf"[0] != "image/"[0]; }
  }
}
