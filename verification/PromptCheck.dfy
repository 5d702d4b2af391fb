/** The check of all mentions of a prompt, with its three caches (pkgs/repo/root.go), on a file
    system that does not change meanwhile. */
module PromptCheck {
  import opened GoText
  import opened LineCounts
  import opened Mentions
  import opened Wrappers

  /** How paths resolve below the root, and what stands at the resolved ones. */
  datatype FileSystem = FileSystem(resolve: Bytes -> Result<Bytes, string>, entry: Bytes -> Entry)

  datatype Reason =
    | ResolveFailed(reason: string)
    | DoesNotExist
    | StatFailed(reason: string)
    | IsDirectory
    | LinesBelowOne
    | StartAfterEnd
    | CountFailed(reason: string)
    | PastEnd(end: int, lines: nat)

  /** The error names the mention by its label. */
  datatype Problem = Problem(mention: Ref, reason: Reason)

  function ValidateRangeBounds(start: int, end: int): Option<Reason> {
    if start < 1 || end < 1 then Some(LinesBelowOne)
    else if start > end then Some(StartAfterEnd)
    else None
  }

  function ValidateRangeWithLineCount(start: int, end: int, n: nat): Option<Reason> {
    if ValidateRangeBounds(start, end).Some? then ValidateRangeBounds(start, end)
    else if end > n then Some(PastEnd(end, n))
    else None
  }

  /** One mention on its own, without any cache. */
  function CheckMention(fs: FileSystem, m: Mention): Option<Reason> {
    match fs.resolve(m.path)
    case Err(reason) => Some(ResolveFailed(reason))
    case Ok(abs) =>
      match fs.entry(abs)
      case Missing => Some(DoesNotExist)
      case StatFails(reason) => Some(StatFailed(reason))
      case Directory => Some(IsDirectory)
      case Regular(_, _, _, _) => if m.hasRange then CheckRange(fs.entry(abs), m.startLine, m.endLine) else None
  }

  function CheckRange(e: Entry, start: int, end: int): Option<Reason> {
    if ValidateRangeBounds(start, end).Some? then ValidateRangeBounds(start, end)
    else
      match WholeLineCount(e)
      case Err(reason) => Some(CountFailed(reason))
      case Ok(n) => ValidateRangeWithLineCount(start, end, n)
  }

  function FirstProblem(fs: FileSystem, ms: seq<Mention>): Option<Problem> {
    if ms == [] then None
    else
      match CheckMention(fs, ms[0])
      case Some(reason) => Some(Problem(RefOf(ms[0]), reason))
      case None => FirstProblem(fs, ms[1..])
  }

  method ValidatePromptMentions(fs: FileSystem, prompt: Bytes) returns (problem: Option<Problem>)
    ensures problem == FirstProblem(fs, MentionsFrom(prompt, 0))
  {
    var resolvedPaths: map<Bytes, Bytes> := map[];
    var seenFiles: set<Bytes> := {};
    var lineCounts: map<Bytes, nat> := map[];
    var mentions := ParseFileMentions(prompt);
    assert mentions[0..] == mentions;
    for i := 0 to |mentions|
      invariant FirstProblem(fs, mentions) == FirstProblem(fs, mentions[i..])
      invariant forall p :: p in resolvedPaths ==> fs.resolve(p) == Ok(resolvedPaths[p])
      invariant forall f :: f in seenFiles ==> fs.entry(f).Regular?
      invariant forall f :: f in lineCounts ==> WholeLineCount(fs.entry(f)) == Ok(lineCounts[f])
    {
      var m := mentions[i];
      assert mentions[i..][1..] == mentions[i + 1..];
      if m.path !in resolvedPaths {
        var resolved := fs.resolve(m.path);
        if resolved.Err? {
          return Some(Problem(RefOf(m), ResolveFailed(resolved.error)));
        }
        resolvedPaths := resolvedPaths[m.path := resolved.value];
      }
      var abs := resolvedPaths[m.path];
      if abs !in seenFiles {
        var e := fs.entry(abs);
        if e.Missing? {
          return Some(Problem(RefOf(m), DoesNotExist));
        }
        if e.StatFails? {
          return Some(Problem(RefOf(m), StatFailed(e.reason)));
        }
        if e.Directory? {
          return Some(Problem(RefOf(m), IsDirectory));
        }
        seenFiles := seenFiles + {abs};
      }
      if m.hasRange {
        var bounds := ValidateRangeBounds(m.startLine, m.endLine);
        if bounds.Some? {
          return Some(Problem(RefOf(m), bounds.value));
        }
        if abs !in lineCounts {
          var counted := LineCount(fs.entry(abs));
          if counted.Err? {
            return Some(Problem(RefOf(m), CountFailed(counted.error)));
          }
          lineCounts := lineCounts[abs := counted.value];
        }
        var past := ValidateRangeWithLineCount(m.startLine, m.endLine, lineCounts[abs]);
        if past.Some? {
          return Some(Problem(RefOf(m), past.value));
        }
      }
    }
    return None;
  }

  /** The mention names a file, and its range, if any, stays within the lines of a readable one. */
  ghost predicate Refers(fs: FileSystem, m: Mention) {
    exists abs :: fs.resolve(m.path) == Ok(abs) && fs.entry(abs).Regular? &&
      (m.hasRange ==> exists n :: WholeLineCount(fs.entry(abs)) == Ok(n) && 1 <= m.startLine <= m.endLine <= n)
  }

  /** A prompt passes exactly if each of its mentions does, and a problem is that of the first
      mention that does not. */
  lemma {:induction false} FirstProblemIsFirst(fs: FileSystem, ms: seq<Mention>)
    ensures FirstProblem(fs, ms).None? <==> forall k :: 0 <= k < |ms| ==> Refers(fs, ms[k])
    ensures FirstProblem(fs, ms).Some? ==>
              exists k :: 0 <= k < |ms| && !Refers(fs, ms[k]) && FirstProblem(fs, ms).value.mention == RefOf(ms[k])
                && forall j :: 0 <= j < k ==> Refers(fs, ms[j])
  {
    if ms != [] {
      CheckedRefers(fs, ms[0]);
      var rest := ms[1..];
      FirstProblemIsFirst(fs, rest);
      if CheckMention(fs, ms[0]).None? {
        if FirstProblem(fs, rest).Some? {
          var k :| 0 <= k < |rest| && !Refers(fs, rest[k]) && FirstProblem(fs, rest).value.mention == RefOf(rest[k])
            && forall j :: 0 <= j < k ==> Refers(fs, rest[j]);
          assert ms[k + 1] == rest[k];
          assert forall j :: 0 < j < k + 1 ==> ms[j] == rest[j - 1];
        } else {
          assert forall k :: 0 < k < |ms| ==> ms[k] == rest[k - 1];
        }
      }
    }
  }

  lemma CheckedRefers(fs: FileSystem, m: Mention)
    ensures CheckMention(fs, m).None? <==> Refers(fs, m)
  {
    if CheckMention(fs, m).None? {
      var abs := fs.resolve(m.path).value;
      if m.hasRange {
        assert WholeLineCount(fs.entry(abs)) == Ok(WholeLineCount(fs.entry(abs)).value);
      }
    }
  }
}
