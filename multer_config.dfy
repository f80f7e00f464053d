/** src/configs/multerConfig.ts: in-memory uploads limited to 10 MiB per
    file, with a filter that lets through only files whose mimetype starts
    with "image/". */
module MulterConfig {
  import opened Common
  import opened AppErrors

  /** `limits.fileSize`: 10 * 1024 * 1024 bytes. */
  const MaxFileSize: nat := 10 * 1024 * 1024

  const InvalidImageMessage := "Invalid image format"

  /** What multer knows of an incoming file. */
  datatype UploadedFile = UploadedFile(fieldname: string, mimetype: string, size: nat)

  /** The callback's arguments: cb(null, true) or cb(err). */
  datatype FilterVerdict = Accept | Refuse(error: Error)

  function FileFilter(file: UploadedFile): (v: FilterVerdict)
    ensures v.Accept? <==> StartsWith(file.mimetype, "image/")
    ensures v.Refuse? ==>
              && v.error.ValidationError? && v.error.detail == InvalidImageMessage
              && v.error.fields.Keys == {file.fieldname}
              && v.error.fields[file.fieldname] == InvalidImageMessage
  {
    if StartsWith(file.mimetype, "image/") then Accept
    else Refuse(ValidationError(InvalidImageMessage, map[file.fieldname := InvalidImageMessage]))
  }

  /** What the upload middleware makes of one file: refused by the filter,
      refused by the size limit (multer's LIMIT_FILE_SIZE error), or kept. */
  function Upload(file: UploadedFile): (r: Result<UploadedFile>)
    ensures r.Ok? <==> StartsWith(file.mimetype, "image/") && file.size <= 10485760
    ensures r.Ok? ==> r.value == file
    ensures !StartsWith(file.mimetype, "image/") ==> r == Err(FileFilter(file).error)
  {
    match FileFilter(file)
    case Refuse(e) => Err(e)
    case Accept => if file.size > MaxFileSize then Err(UploadError("LIMIT_FILE_SIZE")) else Ok(file)
  }

  /** The prefix test is case-sensitive and anchored at the start. */
  lemma FilterExamples(name: string, size: nat)
    ensures FileFilter(UploadedFile(name, "image/png", size)).Accept?
    ensures FileFilter(UploadedFile(name, "Image/png", size)).Refuse?
    ensures FileFilter(UploadedFile(name, "application/image/png", size)).Refuse?
  {
    assert "image/png"[..6] == "image/";
    assert "Image/png"[..6] != "image/" by { assert "Image/png"[0] != "image/"[0]; }
    assert "application/image/png"[..6] != "image/" by { assert "application/image/png"[0] != "image/"[0]; }
  }
}
