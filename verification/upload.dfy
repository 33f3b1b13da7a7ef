/** The server-side upload policy for product images: a MIME whitelist, a
    5 MiB size limit and the stored file name. The multipart parser and the
    disk are not part of this model; a file is its declared name, MIME type
    and size. */
module Upload {
  import opened Wrappers
  import opened Text

  datatype IncomingFile = IncomingFile(originalName: string, mimeType: string, size: nat)

  const AllowedMimes: seq<string> := ["image/jpeg", "image/jpg", "image/png", "image/gif", "image/webp"]

  const InvalidTypeMessage := "Tipo de arquivo inválido. Use apenas imagens (JPEG, PNG, WEBP, GIF)."

  const Destination := "./uploads/products"

  const MaxFileSize: nat := 5 * 1024 * 1024

  /** What the filter passes to its callback: an error or none, and whether
      the file is accepted. */
  datatype FilterVerdict = FilterVerdict(error: Option<Error>, acceptFile: bool)

  /** `fileFilter`. */
  function FileFilter(file: IncomingFile): (r: FilterVerdict)
    ensures r.acceptFile <==> file.mimeType in AllowedMimes
    ensures r.acceptFile <==> r.error.None?
    ensures r.error.Some? ==> r.error.value == BadRequest(InvalidTypeMessage)
  {
    if file.mimeType in AllowedMimes then FilterVerdict(None, true)
    else FilterVerdict(Some(BadRequest(InvalidTypeMessage)), false)
  }

  lemma MaxFileSizeValue()
    ensures MaxFileSize == 5242880
  {
  }

  /** The lower-case hexadecimal digits and dashes a version-4 UUID is
      written with. */
  predicate UuidText(u: string) {
    |u| > 0 && forall i :: 0 <= i < |u| ==> u[i] == '-' || '0' <= u[i] <= '9' || 'a' <= u[i] <= 'f'
  }

  /** `filename`: the fresh UUID followed by the original extension. */
  function StoredName(uuid: string, originalName: string): string {
    uuid + ExtName(originalName)
  }

  /** The stored name starts with the UUID and carries the original
      extension, with its case, as its own extension. */
  lemma StoredNameExtension(uuid: string, originalName: string)
    requires UuidText(uuid)
    ensures StoredName(uuid, originalName)[..|uuid|] == uuid
    ensures ExtName(StoredName(uuid, originalName)) == ExtName(originalName)
  {
    assert '/' !in uuid && '.' !in uuid;
    ExtNameOfStemAndExt(uuid, ExtName(originalName));
  }

  /** Two uploads with different UUIDs never share a stored name when the
      UUIDs have the same length. */
  lemma StoredNamesDistinct(u: string, v: string, a: string, b: string)
    requires |u| == |v| && u != v
    ensures StoredName(u, a) != StoredName(v, b)
  {
    assert StoredName(u, a)[..|u|] == u;
    assert StoredName(v, b)[..|v|] == v;
  }

  datatype StoredFile = StoredFile(destination: string, filename: string, size: nat)

  /** The whole interceptor: the filter runs first, then the size limit
      stops a file larger than 5 MiB with 413; otherwise the file is stored
      under the new name. */
  function Accept(file: IncomingFile, uuid: string): (r: Result<StoredFile>)
    ensures r.Ok? <==> file.mimeType in AllowedMimes && file.size <= MaxFileSize
    ensures file.mimeType !in AllowedMimes ==> r == Err(BadRequest(InvalidTypeMessage))
    ensures file.mimeType in AllowedMimes && file.size > MaxFileSize ==> r.Err? && r.error.PayloadTooLarge?
    ensures r.Ok? ==> r.value.destination == Destination && r.value.size == file.size
    ensures r.Ok? ==> r.value.filename == StoredName(uuid, file.originalName)
  {
    var verdict := FileFilter(file);
    if !verdict.acceptFile then Err(verdict.error.value)
    else if file.size > MaxFileSize then Err(PayloadTooLarge("File too large"))
    else Ok(StoredFile(Destination, StoredName(uuid, file.originalName), file.size))
  }

  /** A file of exactly 5 MiB passes; one byte more does not. */
  lemma SizeLimitBoundary(name: string, mime: string, uuid: string)
    requires mime in AllowedMimes
    ensures Accept(IncomingFile(name, mime, 5242880), uuid).Ok?
    ensures Accept(IncomingFile(name, mime, 5242881), uuid).Err?
  {
  }
}
