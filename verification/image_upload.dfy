/** The client-side image picker: its checks on a chosen file, the state it
    keeps (preview and error message) and the image it displays. Reading the
    file as a data URL is a parameter; when it never completes, the picker
    neither sets a preview nor reports the file. */
module ImageUploadWidget {
  import opened Wrappers
  import opened Text
  import Upload

  datatype ClientFile = ClientFile(name: string, mimeType: string, size: nat)

  const ValidTypes: seq<string> := ["image/jpeg", "image/jpg", "image/png", "image/webp", "image/gif"]

  const DefaultMaxSizeMB := 5

  const InvalidFormatMessage := "Formato inválido. Use: JPG, PNG, WEBP ou GIF"

  const Mebibyte := 1048576

  function TooLargeMessage(maxSizeMB: nat): string {
    "Arquivo muito grande. Máximo: " + DecimalString(maxSizeMB) + "MB"
  }

  datatype PickerState = PickerState(preview: Option<string>, error: Option<string>)

  /** What the parent's `onImageSelect` receives: nothing (not called),
      null, or the file. */
  datatype Notification = NotCalled | Cleared | Selected(file: ClientFile)

  datatype Outcome = Outcome(state: PickerState, notified: Notification)

  /** The file's size in MiB, as the division computes it, exceeds the
      limit; dividing by a power of two is exact, so reals model it. */
  predicate TooLarge(size: nat, maxSizeMB: nat) {
    (size as real) / 1024.0 / 1024.0 > maxSizeMB as real
  }

  /** The division-based check is the integer comparison against the limit
      in bytes. */
  lemma TooLargeInBytes(size: nat, maxSizeMB: nat)
    ensures TooLarge(size, maxSizeMB) <==> size > maxSizeMB * Mebibyte
  {
    var x := (size as real) / 1024.0 / 1024.0;
    assert x == (size as real) / (Mebibyte as real);
    assert x * (Mebibyte as real) == size as real;
  }

  /** `handleFileChange`: every selection first clears the error; a null
      selection clears the preview and notifies null; a wrong type or an
      oversized file sets an error and leaves the preview as it was; a good
      file becomes the preview and is passed on once it has been read. */
  function HandleFileChange(s: PickerState, file: Option<ClientFile>, maxSizeMB: nat,
                            readDataUrl: ClientFile -> Option<string>): (r: Outcome)
    ensures file.None? ==> r == Outcome(PickerState(None, None), Cleared)
    ensures file.Some? && file.value.mimeType !in ValidTypes
        ==> r == Outcome(PickerState(s.preview, Some(InvalidFormatMessage)), NotCalled)
    ensures file.Some? && file.value.mimeType in ValidTypes && file.value.size > maxSizeMB * Mebibyte
        ==> r == Outcome(PickerState(s.preview, Some(TooLargeMessage(maxSizeMB))), NotCalled)
    ensures r.notified.Selected?
        <==> (file.Some? && file.value.mimeType in ValidTypes
              && file.value.size <= maxSizeMB * Mebibyte && readDataUrl(file.value).Some?)
    ensures r.notified.Selected?
        ==> (r.notified.file == file.value && r.state.error.None?
             && r.state.preview == readDataUrl(file.value))
  {
    var cleared := s.(error := None);
    match file
    case None => Outcome(PickerState(None, None), Cleared)
    case Some(f) =>
      TooLargeInBytes(f.size, maxSizeMB);
      if f.mimeType !in ValidTypes then
        Outcome(cleared.(error := Some(InvalidFormatMessage)), NotCalled)
      else if TooLarge(f.size, maxSizeMB) then
        Outcome(cleared.(error := Some(TooLargeMessage(maxSizeMB))), NotCalled)
      else
        match readDataUrl(f)
        case None => Outcome(cleared, NotCalled)
        case Some(url) => Outcome(PickerState(Some(url), None), Selected(f))
  }

  /** The picker as the product edit form mounts it, without `maxSizeMB`:
      the 5 MB default, which is the server's 5 MiB limit in bytes. */
  function HandleFileChangeDefault(s: PickerState, file: Option<ClientFile>,
                                   readDataUrl: ClientFile -> Option<string>): (r: Outcome)
    ensures file.Some? && file.value.mimeType in ValidTypes
        ==> (r.state.error == Some(TooLargeMessage(DefaultMaxSizeMB)) <==> file.value.size > Upload.MaxFileSize)
    ensures r.notified.Selected?
        <==> (file.Some? && file.value.mimeType in ValidTypes
              && file.value.size <= Upload.MaxFileSize && readDataUrl(file.value).Some?)
  {
    HandleFileChange(s, file, DefaultMaxSizeMB, readDataUrl)
  }

  /** Under the default limit the picker passes a readable file on exactly
      when the server's upload policy would accept it. */
  lemma DefaultPickerAgreesWithServer(s: PickerState, f: ClientFile,
                                      readDataUrl: ClientFile -> Option<string>, uuid: string)
    requires readDataUrl(f).Some?
    ensures HandleFileChangeDefault(s, Some(f), readDataUrl).notified.Selected?
        <==> Upload.Accept(Upload.IncomingFile(f.name, f.mimeType, f.size), uuid).Ok?
  {
    assert f.mimeType in ValidTypes <==> f.mimeType in Upload.AllowedMimes;
  }

  /** A file of exactly the limit passes the size check. */
  lemma LimitIsInclusive(s: PickerState, f: ClientFile, maxSizeMB: nat, readDataUrl: ClientFile -> Option<string>)
    requires f.mimeType in ValidTypes && f.size == maxSizeMB * Mebibyte
    ensures HandleFileChange(s, Some(f), maxSizeMB, readDataUrl).state.error.None?
  {
  }

  /** `handleClear`: preview and error reset, the parent gets null. */
  function HandleClear(s: PickerState): (r: Outcome)
    ensures r.state.preview.None? && r.state.error.None? && r.notified == Cleared
  {
    Outcome(PickerState(None, None), Cleared)
  }

  /** Clearing is what selecting nothing does. */
  lemma ClearIsEmptySelection(s: PickerState, maxSizeMB: nat, readDataUrl: ClientFile -> Option<string>)
    ensures HandleClear(s) == HandleFileChange(s, None, maxSizeMB, readDataUrl)
  {
  }

  /** `preview || currentImageUrl`, where an empty string counts as
      nothing: the image shown, if any. */
  function DisplayImage(preview: Option<string>, currentImageUrl: Option<string>): (r: Option<string>)
    ensures r.Some? ==> r.value != ""
    ensures r.Some? ==> r == preview || r == currentImageUrl
  {
    if preview.Some? && preview.value != "" then preview
    else if currentImageUrl.Some? && currentImageUrl.value != "" then currentImageUrl
    else None
  }

  /** A new preview takes precedence over the stored image; without one the
      stored image is shown. */
  lemma DisplayPrefersPreview(preview: Option<string>, current: Option<string>)
    ensures preview.Some? && preview.value != "" ==> DisplayImage(preview, current) == preview
    ensures preview.None? && current.Some? && current.value != "" ==> DisplayImage(preview, current) == current
    ensures DisplayImage(preview, current).None?
        <==> (preview.None? || preview.value == "") && (current.None? || current.value == "")
  {
  }

  /** After a rejected file the previously displayed image is still shown. */
  lemma RejectionKeepsDisplay(s: PickerState, f: ClientFile, maxSizeMB: nat,
                              readDataUrl: ClientFile -> Option<string>, current: Option<string>)
    requires f.mimeType !in ValidTypes || f.size > maxSizeMB * Mebibyte
    ensures var r := HandleFileChange(s, Some(f), maxSizeMB, readDataUrl);
      r.notified == NotCalled && r.state.error.Some?
      && DisplayImage(r.state.preview, current) == DisplayImage(s.preview, current)
  {
  }
}
