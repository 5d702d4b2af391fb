/** File previews (pkgs/repo/read_preview.go, read_preview_io.go). */
module FilePreviews {
  import opened GoText
  import opened LineCounts
  import opened Utf8
  import opened Wrappers

  datatype FilePreview = FilePreview(content: Bytes, binary: bool, truncated: bool, sizeBytes: nat, lineCount: nat)

  const BINARY_SNIFF_BYTES := 512

  predicate IsBinaryData(data: Bytes) {
    0 in data[..if |data| < BINARY_SNIFF_BYTES then |data| else BINARY_SNIFF_BYTES]
  }

  /** A regular file that opens and reads to its end. */
  predicate Readable(e: Entry) {
    e.Regular? && e.openError.None? && e.readError.None?
  }

  /** The content, or the front of it when it is longer than a preview may be. */
  function Capped(content: Bytes): Bytes {
    if |content| > MAX_FILE_READ_BYTES then content[..MAX_FILE_READ_BYTES] else content
  }

  /** ReadCappedUTF8Content: at most the limit, mended at the seam when something was cut off. */
  method ReadCappedUTF8Content(e: Entry) returns (r: Result<(Bytes, bool), string>)
    requires e.Regular?
    ensures r.Err? <==> |e.content| <= MAX_FILE_READ_BYTES && e.readError.Some?
    ensures r.Err? ==> r.error == e.readError.value
    ensures r.Ok? ==> r.value.1 == (|e.content| > MAX_FILE_READ_BYTES) && Delivered(e.content, r.value.0)
  {
    if |e.content| <= MAX_FILE_READ_BYTES {
      if e.readError.Some? {
        return Err(e.readError.value);
      }
      return Ok((e.content, false));
    }
    var data := e.content[..MAX_FILE_READ_BYTES];
    data := TrimTrailingPartialRune(data);
    return Ok((data, true));
  }

  /** The preview of a readable file: binary when a NUL stands early or what was read is no valid
      text, and otherwise what was read. */
  ghost predicate Previews(e: Entry, p: FilePreview)
    requires e.Regular?
  {
    && p.sizeBytes == e.size
    && (if p.binary then p.content == [] && p.lineCount == 0
        else Valid(p.content) && p.lineCount == LineCountFromBytes(p.content))
    && if IsBinaryData(e.content) then p.binary
       else
         && p.truncated == (e.size > MAX_FILE_READ_BYTES || |e.content| > MAX_FILE_READ_BYTES)
         && exists data :: Delivered(e.content, data) && p.binary == (IsBinaryData(data) || !Valid(data))
              && (!p.binary ==> p.content == data)
  }

  /** What the reading of `content` hands over. */
  ghost predicate Delivered(content: Bytes, data: Bytes) {
    if |content| > MAX_FILE_READ_BYTES then SeamTrimmed(Capped(content), data) else data == content
  }

  method ReadFilePreview(e: Entry) returns (r: Result<FilePreview, string>)
    ensures e.Directory? || e.StatFails? || e.Missing? ==> r.Err?
    ensures e.Regular? && e.size == 0 ==> r == Ok(FilePreview([], false, false, 0, 0))
    ensures e.Regular? && e.size > 0 && e.openError.Some? ==> r == Err(e.openError.value)
    ensures Readable(e) && e.size > 0 ==> r.Ok? && Previews(e, r.value)
    ensures e.Regular? && e.size > 0 && e.openError.None? && e.readError.Some? ==>
              if |e.content| < BINARY_SNIFF_BYTES || (!IsBinaryData(e.content) && |e.content| <= MAX_FILE_READ_BYTES)
              then r == Err(e.readError.value)
              else r.Ok? && Previews(e, r.value)
  {
    match e
    case Missing => return Err("file does not exist");
    case StatFails(reason) => return Err(reason);
    case Directory => return Err("path is a directory");
    case Regular(size, openError, content, readError) =>
      var out := FilePreview([], false, size > MAX_FILE_READ_BYTES, size, 0);
      if size == 0 {
        return Ok(out);
      }
      if openError.Some? {
        return Err(openError.value);
      }
      if |content| < BINARY_SNIFF_BYTES && readError.Some? {
        return Err(readError.value);
      }
      var sniff := content[..if |content| < BINARY_SNIFF_BYTES then |content| else BINARY_SNIFF_BYTES];
      if IsBinaryData(sniff) {
        return Ok(out.(binary := true));
      }
      var read := ReadCappedUTF8Content(e);
      if read.Err? {
        return Err(read.error);
      }
      var data, cappedTrunc := read.value.0, read.value.1;
      if cappedTrunc {
        out := out.(truncated := true);
      }
      if IsBinaryData(data) || !Valid(data) {
        return Ok(out.(binary := true));
      }
      return Ok(out.(content := data, lineCount := LineCountFromBytes(data)));
  }

  /** A text file is never taken for a binary one because the cap splits a character: valid UTF-8
      without an early NUL is shown, up to the longest valid front of it that fits. */
  lemma TextIsShown(e: Entry, p: FilePreview)
    requires Readable(e) && Previews(e, p)
    requires e.size == |e.content| > 0 && Valid(e.content) && !IsBinaryData(e.content)
    ensures !p.binary && p.content <= e.content && Valid(p.content) && |p.content| <= MAX_FILE_READ_BYTES
    ensures forall m :: |p.content| < m <= |e.content| && m <= MAX_FILE_READ_BYTES ==> !Valid(e.content[..m])
    ensures p.truncated <==> |e.content| > MAX_FILE_READ_BYTES
    ensures !p.truncated ==> p.content == e.content && WholeLineCount(e) == Ok(p.lineCount)
    ensures p.lineCount == |Lines(p.content)|
  {
    var data :| Delivered(e.content, data) && p.binary == (IsBinaryData(data) || !Valid(data))
      && (!p.binary ==> p.content == data);
    if |e.content| > MAX_FILE_READ_BYTES {
      TrimMendsTheSeam(e.content, MAX_FILE_READ_BYTES, data);
    }
    CountsLines(p.content);
  }
}
