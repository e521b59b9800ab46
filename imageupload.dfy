/** The upload middleware for a post's featured image. */
module ImageUpload {

  /** `limits.fileSize`: five mebibytes. */
  const MaxFileSize := 5 * 1024 * 1024

  const AcceptedImageTypes: seq<string> := ["image/png", "image/jpeg"]

  /** What `fileFilter` passes to its callback: accept the file, or an error. */
  datatype FilterDecision = Accept | Reject(message: string)

  /** `fileFilter`: exact membership of the MIME type in the accepted list. */
  function FileFilter(mimetype: string): (d: FilterDecision)
    ensures d == Accept <==> mimetype == "image/png" || mimetype == "image/jpeg"
    ensures d != Accept ==> d == Reject("Unaccepted file type")
  {
    if mimetype in AcceptedImageTypes then Accept else Reject("Unaccepted file type")
  }

  /** The limit in bytes, and the matching being exact: near misses in spelling or case are refused. */
  lemma UploadLimits()
    ensures MaxFileSize == 5242880
    ensures FileFilter("image/jpg") == Reject("Unaccepted file type")
    ensures FileFilter("IMAGE/PNG") == Reject("Unaccepted file type")
    ensures FileFilter("image/png") == Accept && FileFilter("image/jpeg") == Accept
  {
    assert "image/jpg" != "image/png" && "image/jpg" != "image/jpeg" by {
      assert |"image/jpg"| == 9;
    }
    assert "IMAGE/PNG"[0] != "image/png"[0];
    assert "IMAGE/PNG" != "image/jpeg" by {
      assert |"IMAGE/PNG"| == 9;
    }
  }
}
