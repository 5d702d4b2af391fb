/** Line counting of files (pkgs/repo/root_linecount.go, read_preview.go). */
module LineCounts {
  import opened GoText
  import opened Wrappers

  const MAX_FILE_READ_BYTES := 32 * 1024 * 1024
  const READ_BUFFER_BYTES := 32 * 1024

  /** What stands at a path. A regular file reports a size, opens or fails to, and when it is read
      delivers `content`, then the end of the file or a read error. */
  datatype Entry =
    | Missing
    | StatFails(reason: string)
    | Directory
    | Regular(size: nat, openError: Option<string>, content: Bytes, readError: Option<string>)

  /** lineCountFromBytes: the newlines, and one more for a last line without one. */
  function LineCountFromBytes(data: Bytes): nat {
    CountByte(data, NEWLINE) + if data != [] && data[|data| - 1] != NEWLINE then 1 else 0
  }

  /** The lines of a text, each with its newline. */
  function Lines(s: Bytes): (ls: seq<Bytes>) {
    match IndexFrom(s, NEWLINE, 0)
    case None => if s == [] then [] else [s]
    case Some(k) => [s[..k + 1]] + Lines(s[k + 1..])
  }

  lemma FirstLineCounts(s: Bytes, k: nat)
    requires k < |s| && s[k] == NEWLINE && forall j :: 0 <= j < k ==> s[j] != NEWLINE
    ensures LineCountFromBytes(s) == 1 + LineCountFromBytes(s[k + 1..])
  {
    hide CountByte;
    var line, rest := s[..k + 1], s[k + 1..];
    assert s == line + rest && line == s[..k] + [NEWLINE];
    CountOfConcat(line, rest, NEWLINE);
    CountOfConcat(s[..k], [NEWLINE], NEWLINE);
    NoneCounted(s[..k], NEWLINE);
    OneCounted(NEWLINE);
    if rest == [] {
      NoneCounted(rest, NEWLINE);
    }
  }

  /** The count is the number of lines that the text splits into. */
  lemma {:induction false} CountsLines(s: Bytes)
    ensures LineCountFromBytes(s) == |Lines(s)|
  {
    hide LineCountFromBytes;
    match IndexFrom(s, NEWLINE, 0)
    case None => UnendedLine(s);
    case Some(k) =>
      FirstLineCounts(s, k);
      CountsLines(s[k + 1..]);
  }

  lemma UnendedLine(s: Bytes)
    requires NEWLINE !in s
    ensures LineCountFromBytes(s) == if s == [] then 0 else 1
  {
    NoneCounted(s, NEWLINE);
  }

  const TOO_LARGE := "file too large"
  const IS_A_DIRECTORY := "is a directory"

  /** The count of a file as a whole. */
  function WholeLineCount(e: Entry): Result<nat, string> {
    match e
    case Missing => Err("file does not exist")
    case StatFails(reason) => Err(reason)
    case Directory => Err(IS_A_DIRECTORY)
    case Regular(size, openError, content, readError) =>
      if size > MAX_FILE_READ_BYTES then Err(TOO_LARGE)
      else if openError.Some? then Err(openError.value)
      else if |content| > MAX_FILE_READ_BYTES then Err(TOO_LARGE)
      else if readError.Some? then Err(readError.value)
      else Ok(LineCountFromBytes(content))
  }

  /** The chunked count; every read delivers as many bytes as it likes, up to the buffer's size and
      the limit of one byte more than a file may have. */
  method LineCount(e: Entry) returns (r: Result<nat, string>)
    ensures r == WholeLineCount(e)
  {
    hide CountByte;
    NoneCounted([], NEWLINE);
    if e.Missing? {
      return Err("file does not exist");
    }
    if e.StatFails? {
      return Err(e.reason);
    }
    if e.Directory? {
      return Err(IS_A_DIRECTORY);
    }
    if e.size > MAX_FILE_READ_BYTES {
      return Err(TOO_LARGE);
    }
    if e.openError.Some? {
      return Err(e.openError.value);
    }
    var content := e.content;
    var n := 0;
    var total := 0;
    var last: byte := 0;
    var hasData := false;
    while true
      invariant total <= |content| && total <= MAX_FILE_READ_BYTES + 1
      invariant n == CountByte(content[..total], NEWLINE)
      invariant hasData <==> total > 0
      invariant hasData ==> last == content[total - 1]
      decreases |content| - total
    {
      if total == MAX_FILE_READ_BYTES + 1 {
        break;
      }
      if total == |content| {
        if e.readError.None? {
          break;
        }
        return Err(e.readError.value);
      }
      var readN :| 0 < readN <= READ_BUFFER_BYTES
                   && total + readN <= |content| && total + readN <= MAX_FILE_READ_BYTES + 1;
      var chunk := content[total..total + readN];
      CountOfConcat(content[..total], chunk, NEWLINE);
      assert content[..total + readN] == content[..total] + chunk;
      total := total + readN;
      n := n + CountByte(chunk, NEWLINE);
      last := chunk[readN - 1];
      hasData := true;
    }
    if total > MAX_FILE_READ_BYTES {
      return Err(TOO_LARGE);
    }
    assert content[..total] == content;
    if !hasData {
      return Ok(0);
    }
    if last != NEWLINE {
      n := n + 1;
    }
    return Ok(n);
  }
}
