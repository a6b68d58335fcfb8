/**
 Resolving a magnet link against a provider that may answer anything (internal/ingest/service.go).
 A method of the World is one call to the provider, the repository or the STRM store: its answer is
 arbitrary and what it did is appended to the trace. The context ends when patience runs out.
 */
module ResolveProtocol {
  import opened Wrappers
  import opened Texts
  import Catalogue

  datatype Task = Task(infoHash: string, name: string, status: int, progress: int, done: bool, failed: bool,
                       resultId: string, wpPathId: string, category: string, jobGid: string)

  function Blank(infoHash: string, category: string, jobGid: string): Task {
    Task(infoHash, "", 0, 0, false, false, "", "", category, jobGid)
  }

  datatype File = File(path: string, sha1: string, needsStrm: bool)

  /** Hashes are compared without regard to case. */
  predicate SameHash(a: string, b: string) {
    Lower(a) == Lower(b)
  }

  datatype Node = Node(id: string, parents: seq<string>)

  datatype CleanupInfo = CleanupInfo(artifact: nat, deleteFileId: string, wpPathId: string)

  datatype Effect =
    | Submit
    | SaveTask(task: Task)
    | DropRecord(task: Task, withFiles: bool)
    | DeleteSource(info: CleanupInfo, node: Node)
    | ForgetArtifact(id: nat)
    | SaveScan(files: seq<File>)
    | WriteNfo(path: string)
    | WriteStrm(path: string)
    | Mark(paths: seq<string>)
    | SetState(state: Catalogue.JobState)

  datatype Added = AddFailed | Created | Conflict | Rejected

  datatype Lookup = LookupFailed(contextOver: bool) | Missing | Found(task: Task)

  datatype Scanned = Files(files: seq<File>) | ResultMissing | ScanFailed

  /** How a search for one file ends: found while the scan goes on, scan over, or context over. */
  datatype Raced = TargetFirst(target: File) | ScanOver(scanned: Scanned) | ContextOver

  datatype Error = Failure | ContextEnded

  /** Early: the target has been found and the rest of the scan goes on in the background. */
  datatype Resolved =
    | Complete(task: Task, files: seq<File>, reused: bool)
    | Early(task: Task, target: File, reused: bool)

  class World {
    var trace: seq<Effect>
    var patience: nat

    constructor (patience: nat)
      ensures trace == [] && this.patience == patience
    {
      trace, this.patience := [], patience;
    }

    /** Every wait may be the one during which the context ends. */
    method Wait() returns (go: bool)
      modifies this`patience
      ensures patience <= old(patience) && (go ==> patience < old(patience))
    {
      if patience == 0 {
        return false;
      }
      patience := patience - 1;
      go := true;
    }

    method Add() returns (answer: Added)
      modifies this`trace
      ensures trace == old(trace) + [Submit]
    {
      trace := trace + [Submit];
      answer := *;
    }

    method Query() returns (answer: Lookup) {
      answer := *;
    }

    /** Deletions are traced when they are asked for, whether or not they succeed. */
    method Attempt(e: Effect) returns (ok: bool)
      modifies this`trace
      ensures trace == old(trace) + [e]
    {
      trace := trace + [e];
      ok := *;
    }

    method Record(e: Effect) returns (ok: bool)
      modifies this`trace
      ensures trace == old(trace) + if ok then [e] else []
    {
      ok := *;
      if ok {
        trace := trace + [e];
      }
    }

    method Scan() returns (answer: Scanned) {
      answer := *;
    }

    method Race(target: string) returns (answer: Raced)
      ensures answer.TargetFirst? ==> SameHash(answer.target.sha1, target)
    {
      answer := *;
      if answer.TargetFirst? && !SameHash(answer.target.sha1, target) {
        answer := ContextOver;
      }
    }

    /** One request for several links; the answers are by info hash, and some may be missing. */
    method AddMany(hashes: seq<string>) returns (answers: Option<map<string, Added>>)
      modifies this`trace
      ensures trace == old(trace) + [Submit]
    {
      trace := trace + [Submit];
      answers := *;
    }

    method QueryMany() returns (answers: Option<map<string, Task>>) {
      answers := *;
    }

    method CleanupFor(gid: string) returns (info: Option<CleanupInfo>) {
      info := *;
    }

    method FolderInfo(id: string) returns (answer: Result<Node, bool>) {
      answer := *;
    }

    /** SaveScan decides for every file whether it needs its STRM. */
    method SaveFiles(files: seq<File>) returns (saved: Option<seq<File>>)
      modifies this`trace
      ensures saved.None? ==> trace == old(trace)
      ensures saved.Some? ==>
                && trace == old(trace) + [SaveScan(files)]
                && |saved.value| == |files|
                && forall i | 0 <= i < |files| :: saved.value[i] == files[i].(needsStrm := saved.value[i].needsStrm)
    {
      var ok: bool := *;
      if !ok {
        return None;
      }
      trace := trace + [SaveScan(files)];
      var flags: seq<bool> := *;
      saved := Some(seq(|files|, i requires 0 <= i < |files| => files[i].(needsStrm := i < |flags| && flags[i])));
    }
  }

  /** Unicode's White_Space, as Go's strings.TrimSpace has it. */
  predicate IsSpace(c: char) {
    || '\U{09}' <= c <= '\U{0D}' || '\U{2000}' <= c <= '\U{200A}'
    || c in {' ', '\U{85}', '\U{A0}', '\U{1680}', '\U{2028}', '\U{2029}', '\U{202F}', '\U{205F}', '\U{3000}'}
  }

  function TrimLeft(s: string): string {
    if s != "" && IsSpace(s[0]) then TrimLeft(s[1..]) else s
  }

  function TrimRight(s: string): string {
    if s != "" && IsSpace(s[|s| - 1]) then TrimRight(s[..|s| - 1]) else s
  }

  function Trim(s: string): string {
    TrimRight(TrimLeft(s))
  }

  predicate AllSpace(s: string) {
    forall i | 0 <= i < |s| :: IsSpace(s[i])
  }

  lemma {:induction false} TrimLeftMeans(s: string) returns (n: nat)
    ensures n <= |s| && AllSpace(s[..n]) && TrimLeft(s) == s[n..] && (n < |s| ==> !IsSpace(s[n]))
  {
    n := 0;
    if s != "" && IsSpace(s[0]) {
      n := TrimLeftMeans(s[1..]);
      n := n + 1;
      forall i | 0 <= i < n ensures IsSpace(s[i]) {
        assert i > 0 ==> s[i] == s[1..][..n - 1][i - 1];
      }
    }
  }

  lemma {:induction false} TrimRightMeans(s: string) returns (n: nat)
    ensures n <= |s| && AllSpace(s[n..]) && TrimRight(s) == s[..n] && (n > 0 ==> !IsSpace(s[n - 1]))
  {
    n := |s|;
    if s != "" && IsSpace(s[|s| - 1]) {
      var shorter := s[..|s| - 1];
      n := TrimRightMeans(shorter);
      assert s[..n] == shorter[..n];
      forall i | 0 <= i < |s| - n ensures IsSpace(s[n..][i]) {
        assert i < |s| - n - 1 ==> s[n..][i] == shorter[n..][i];
      }
    }
  }

  /** Trimming takes spaces from both ends, as many as there are. */
  lemma TrimMeans(s: string) returns (from: nat, to: nat)
    ensures from <= to <= |s| && Trim(s) == s[from..to]
    ensures AllSpace(s[..from]) && AllSpace(s[to..])
    ensures from < to ==> !IsSpace(s[from]) && !IsSpace(s[to - 1])
  {
    from := TrimLeftMeans(s);
    var n := TrimRightMeans(s[from..]);
    to := from + n;
    assert s[from..][..n] == s[from..to] && s[from..][n..] == s[to..];
    assert n > 0 ==> s[from..][n - 1] == s[to - 1];
  }

  // ----- What a trace may look like -----

  function Count(trace: seq<Effect>): nat {
    if trace == [] then 0 else Count(trace[..|trace| - 1]) + if trace[|trace| - 1] == Submit then 1 else 0
  }

  lemma {:induction false} CountAppend(a: seq<Effect>, b: seq<Effect>)
    ensures Count(a + b) == Count(a) + Count(b)
  {
    if b == [] {
      assert a + b == a;
    } else {
      assert (a + b)[..|a + b| - 1] == a + b[..|b| - 1];
      CountAppend(a, b[..|b| - 1]);
    }
  }

  lemma {:induction false} NoSubmits(trace: seq<Effect>)
    requires Submit !in trace
    ensures Count(trace) == 0
  {
    if trace != [] {
      NoSubmits(trace[..|trace| - 1]);
    }
  }

  /** The stored work directory agrees with the service's and the file lies in it. */
  predicate Lies(workDir: string, info: CleanupInfo, node: Node) {
    && Trim(info.wpPathId) == Trim(workDir) && Trim(info.deleteFileId) != ""
    && (node.id == workDir || workDir in node.parents)
  }

  /** Files are deleted only for a task whose wp_path_id is the non-empty work directory. */
  predicate Safe(workDir: string, e: Effect) {
    match e
    case DropRecord(task, withFiles) => withFiles ==> task.wpPathId == workDir && workDir != ""
    case DeleteSource(info, node) => workDir != "" && Lies(workDir, info, node)
    case _ => true
  }

  /** Deleting the files of a completed task, and then forgetting the artifact that held them. */
  ghost predicate Discards(workDir: string, trace: seq<Effect>) {
    && |trace| <= 2
    && (forall k | 0 <= k < |trace| ::
          trace[k].ForgetArtifact? || (trace[k].DeleteSource? && Lies(workDir, trace[k].info, trace[k].node)))
    && (|trace| == 2 ==> trace[0].DeleteSource? && trace[1] == ForgetArtifact(trace[0].info.artifact))
  }

  /** Nothing that belongs to a finished result. */
  predicate Preliminary(e: Effect) {
    !e.SaveScan? && !e.WriteNfo? && !e.WriteStrm? && !e.Mark? && !e.SetState?
  }

  /** The record of a task whose files lie in the work directory goes. */
  predicate DropsOwn(workDir: string, e: Effect) {
    e.DropRecord? && workDir != "" && e.task.wpPathId == workDir
  }

  /** The deletion at i is for a task of the work directory, whose record goes next but for the artifact. */
  ghost predicate HasReason(workDir: string, trace: seq<Effect>, i: nat) {
    exists j | i < j < |trace| ::
      && DropsOwn(workDir, trace[j])
      && j <= i + 2 && forall k | i < k < j :: trace[k].ForgetArtifact?
  }

  /** What may happen before the result is saved. */
  ghost predicate Cautious(workDir: string, trace: seq<Effect>) {
    && (forall e | e in trace :: Safe(workDir, e) && Preliminary(e))
    && (forall i | 0 <= i < |trace| && trace[i].DeleteSource? :: HasReason(workDir, trace, i))
  }

  lemma CautiousAppend(workDir: string, a: seq<Effect>, b: seq<Effect>)
    requires Cautious(workDir, a) && Cautious(workDir, b)
    ensures Cautious(workDir, a + b) && Count(a + b) == Count(a) + Count(b)
  {
    CountAppend(a, b);
    forall i | 0 <= i < |a + b| && (a + b)[i].DeleteSource? ensures HasReason(workDir, a + b, i) {
      if i < |a| {
        ReasonStays(workDir, a, b, i);
      } else {
        ReasonMoves(workDir, a, b, i - |a|);
      }
    }
  }

  lemma ReasonStays(workDir: string, a: seq<Effect>, b: seq<Effect>, i: nat)
    requires HasReason(workDir, a, i)
    ensures HasReason(workDir, a + b, i)
  {
    var j :| i < j < |a| && DropsOwn(workDir, a[j]) && j <= i + 2 && forall k | i < k < j :: a[k].ForgetArtifact?;
    assert (a + b)[j] == a[j];
  }

  lemma ReasonMoves(workDir: string, a: seq<Effect>, b: seq<Effect>, i: nat)
    requires HasReason(workDir, b, i)
    ensures HasReason(workDir, a + b, |a| + i)
  {
    var j :| i < j < |b| && DropsOwn(workDir, b[j]) && j <= i + 2 && forall k | i < k < j :: b[k].ForgetArtifact?;
    assert (a + b)[|a| + j] == b[j];
    forall k | |a| + i < k < |a| + j ensures (a + b)[k].ForgetArtifact? {
      assert (a + b)[k] == b[k - |a|];
    }
  }

  ghost predicate Harmless(workDir: string, trace: seq<Effect>) {
    Count(trace) == 0 && forall e | e in trace :: Safe(workDir, e) && !e.DeleteSource?
  }

  lemma HarmlessAppend(workDir: string, a: seq<Effect>, b: seq<Effect>)
    requires Harmless(workDir, a) && |b| <= 2
    requires Submit !in b && forall e | e in b :: Safe(workDir, e) && !e.DeleteSource?
    ensures Harmless(workDir, a + b) && Harmless(workDir, b)
  {
    NoSubmits(b);
    CountAppend(a, b);
  }

  lemma HarmlessPair(workDir: string, a: seq<Effect>, b: seq<Effect>)
    requires Harmless(workDir, a) && Harmless(workDir, b)
    ensures Harmless(workDir, a + b)
  {
    CountAppend(a, b);
  }

  lemma DiscardsThenDrop(workDir: string, trace: seq<Effect>, task: Task, withFiles: bool)
    requires Discards(workDir, trace) && workDir != "" && task.wpPathId == workDir
    ensures var all := trace + [DropRecord(task, withFiles)]; Cautious(workDir, all) && Count(all) == 0
  {
    hide Lies;
    var all := trace + [DropRecord(task, withFiles)];
    NoSubmits(all);
    assert forall k | 0 <= k < |trace| :: all[k] == trace[k];
    forall i | 0 <= i < |all| && all[i].DeleteSource? ensures HasReason(workDir, all, i) {
      assert DropsOwn(workDir, all[|trace|]);
    }
  }

  lemma DropIsCautious(workDir: string, task: Task, withFiles: bool)
    requires withFiles ==> task.wpPathId == workDir && workDir != ""
    ensures Cautious(workDir, [DropRecord(task, withFiles)]) && Count([DropRecord(task, withFiles)]) == 0
  {
    NoSubmits([DropRecord(task, withFiles)]);
  }

  /** A blank task has nothing but a hash, a category and a job. */
  lemma BlankIsNew(infoHash: string, category: string, jobGid: string)
    ensures Blank(infoHash, category, jobGid) ==
            Task(infoHash, "", 0, 0, false, false, "", "", category, jobGid)
  {
  }

  lemma PlainIsCautious(workDir: string, e: Effect)
    requires e == Submit || e.SaveTask?
    ensures Cautious(workDir, [e]) && Count([e]) == if e == Submit then 1 else 0
  {
    assert [e][..0] == [];
  }

  lemma Regroup(x: seq<Effect>, a: seq<Effect>, b: seq<Effect>, c: seq<Effect>)
    ensures x + a + b + c == x + (a + b) + c
    ensures x + a + [] == x + a
  {
  }

  // ----- Publishing -----

  function Settled(files: seq<File>, isVideo: string -> bool): seq<File> {
    seq(|files|, i requires 0 <= i < |files| =>
      if isVideo(files[i].path) then files[i].(needsStrm := false) else files[i])
  }

  /** What publishing one file writes: an NFO always, a video's STRM if it needs one. */
  function Writing(file: File, isVideo: string -> bool, isNfo: string -> bool): seq<Effect> {
    if isNfo(file.path) then [WriteNfo(file.path)]
    else if isVideo(file.path) && file.needsStrm then [WriteStrm(file.path)]
    else []
  }

  function Writings(files: seq<File>, isVideo: string -> bool, isNfo: string -> bool): seq<Effect> {
    if files == [] then []
    else Writings(files[..|files| - 1], isVideo, isNfo) + Writing(files[|files| - 1], isVideo, isNfo)
  }

  function Wanting(files: seq<File>, isVideo: string -> bool, isNfo: string -> bool): seq<string> {
    if files == [] then []
    else
      var file := files[|files| - 1];
      Wanting(files[..|files| - 1], isVideo, isNfo) +
      if !isNfo(file.path) && isVideo(file.path) && file.needsStrm then [file.path] else []
  }

  /** Exactly the STRMs that are written are marked. */
  lemma {:induction false} WrittenIffMarked(files: seq<File>, isVideo: string -> bool, isNfo: string -> bool,
                                            path: string)
    ensures WriteStrm(path) in Writings(files, isVideo, isNfo) <==> path in Wanting(files, isVideo, isNfo)
  {
    if files != [] {
      WrittenIffMarked(files[..|files| - 1], isVideo, isNfo, path);
    }
  }

  // ----- What publishing means -----

  /** A video that is no NFO and has no STRM yet. */
  predicate NeedsStrm(file: File, isVideo: string -> bool, isNfo: string -> bool) {
    file.needsStrm && isVideo(file.path) && !isNfo(file.path)
  }

  /** The positions, in order and without a gap, of the files that need an STRM. */
  ghost predicate AreNeedy(files: seq<File>, at: seq<nat>, isVideo: string -> bool, isNfo: string -> bool) {
    && (forall k | 0 <= k < |at| :: at[k] < |files|)
    && (forall k, l | 0 <= k < l < |at| :: at[k] < at[l])
    && (forall i: nat :: i in at <==> i < |files| && NeedsStrm(files[i], isVideo, isNfo))
  }

  function PathsAt(files: seq<File>, at: seq<nat>): seq<string>
    requires forall k | 0 <= k < |at| :: at[k] < |files|
  {
    seq(|at|, k requires 0 <= k < |at| => files[at[k]].path)
  }

  /** Every STRM that is needed is written and every NFO, and nothing else but a mark. */
  ghost predicate WritesNeeded(files: seq<File>, trace: seq<Effect>, isVideo: string -> bool, isNfo: string -> bool) {
    && (forall p :: WriteStrm(p) in trace <==>
          exists i | 0 <= i < |files| :: files[i].path == p && NeedsStrm(files[i], isVideo, isNfo))
    && (forall p :: WriteNfo(p) in trace <==> exists i | 0 <= i < |files| :: files[i].path == p && isNfo(p))
    && (forall e | e in trace :: e.WriteStrm? || e.WriteNfo? || e.Mark?)
  }

  /** The only mark, if there are any paths, comes last and has exactly these. */
  predicate MarksLast(trace: seq<Effect>, paths: seq<string>) {
    && (forall k | 0 <= k < |trace| && trace[k].Mark? :: paths != [] && k == |trace| - 1)
    && (paths != [] ==> trace != [] && trace[|trace| - 1] == Mark(paths))
  }

  /** One mark follows the writes, with the paths of the STRMs written, in the order of the list. */
  ghost predicate Published(files: seq<File>, trace: seq<Effect>, isVideo: string -> bool, isNfo: string -> bool) {
    && WritesNeeded(files, trace, isVideo, isNfo)
    && exists at :: AreNeedy(files, at, isVideo, isNfo) && MarksLast(trace, PathsAt(files, at))
  }

  lemma {:induction false} WritingsMean(files: seq<File>, isVideo: string -> bool, isNfo: string -> bool, p: string)
    ensures WriteStrm(p) in Writings(files, isVideo, isNfo) <==>
            exists i | 0 <= i < |files| :: files[i].path == p && NeedsStrm(files[i], isVideo, isNfo)
    ensures WriteNfo(p) in Writings(files, isVideo, isNfo) <==>
            exists i | 0 <= i < |files| :: files[i].path == p && isNfo(p)
    ensures forall e | e in Writings(files, isVideo, isNfo) :: e.WriteStrm? || e.WriteNfo?
  {
    if files != [] {
      var n := |files| - 1;
      WritingsMean(files[..n], isVideo, isNfo, p);
      assert forall i | 0 <= i < n :: files[..n][i] == files[i];
      if i :| 0 <= i < n && files[i].path == p && NeedsStrm(files[i], isVideo, isNfo) {
        assert files[..n][i].path == p;
      }
      if i :| 0 <= i < n && files[i].path == p && isNfo(p) {
        assert files[..n][i].path == p;
      }
    }
  }

  lemma {:induction false} WantingMeans(files: seq<File>, isVideo: string -> bool, isNfo: string -> bool)
    returns (at: seq<nat>)
    ensures AreNeedy(files, at, isVideo, isNfo) && Wanting(files, isVideo, isNfo) == PathsAt(files, at)
  {
    at := [];
    if files != [] {
      var n := |files| - 1;
      at := WantingMeans(files[..n], isVideo, isNfo);
      NeedyNext(files, at, isVideo, isNfo);
      PathsNext(files, at);
      WantingNext(files, isVideo, isNfo);
      hide AreNeedy, Wanting, PathsAt;
      if NeedsStrm(files[n], isVideo, isNfo) {
        at := at + [n];
      }
    }
  }

  lemma WantingNext(files: seq<File>, isVideo: string -> bool, isNfo: string -> bool)
    requires files != []
    ensures var last := files[|files| - 1];
            Wanting(files, isVideo, isNfo) ==
            Wanting(files[..|files| - 1], isVideo, isNfo) +
            if NeedsStrm(last, isVideo, isNfo) then [last.path] else []
  {
  }

  lemma NeedyNext(files: seq<File>, at: seq<nat>, isVideo: string -> bool, isNfo: string -> bool)
    requires files != [] && AreNeedy(files[..|files| - 1], at, isVideo, isNfo)
    ensures var n := |files| - 1;
            AreNeedy(files, if NeedsStrm(files[n], isVideo, isNfo) then at + [n] else at, isVideo, isNfo)
  {
    var n := |files| - 1;
    hide NeedsStrm;
    forall i: nat
      ensures i in at <==> i < n && NeedsStrm(files[i], isVideo, isNfo)
      ensures i in at + [n] <==> i in at || i == n
    {
      assert i < n ==> files[..n][i] == files[i];
    }
  }

  lemma PathsNext(files: seq<File>, at: seq<nat>)
    requires files != [] && forall k | 0 <= k < |at| :: at[k] < |files| - 1
    ensures var n := |files| - 1;
            && PathsAt(files[..n], at) == PathsAt(files, at)
            && PathsAt(files, at + [n]) == PathsAt(files, at) + [files[n].path]
  {
  }

  /** No file needs an STRM any more. */
  predicate AllHave(files: seq<File>, isVideo: string -> bool, isNfo: string -> bool) {
    forall i | 0 <= i < |files| :: !NeedsStrm(files[i], isVideo, isNfo)
  }

  lemma SettledMeans(files: seq<File>, isVideo: string -> bool, isNfo: string -> bool)
    ensures SameFiles(files, Settled(files, isVideo)) && AllHave(Settled(files, isVideo), isVideo, isNfo)
    ensures SameFiles(files, files) && (Wanting(files, isVideo, isNfo) == [] ==> AllHave(files, isVideo, isNfo))
  {
    var at := WantingMeans(files, isVideo, isNfo);
    if Wanting(files, isVideo, isNfo) == [] {
      assert at == [];
    }
  }

  lemma PublishingMeans(files: seq<File>, isVideo: string -> bool, isNfo: string -> bool)
    ensures Published(files, Publishing(files, isVideo, isNfo), isVideo, isNfo)
  {
    var at := WantingMeans(files, isVideo, isNfo);
    var written, paths := Writings(files, isVideo, isNfo), Wanting(files, isVideo, isNfo);
    var trace := written + if paths == [] then [] else [Mark(paths)];
    assert trace == Publishing(files, isVideo, isNfo);
    WritingsMean(files, isVideo, isNfo, "");
    hide Writings, Wanting, NeedsStrm, Publishing, AreNeedy, PathsAt;
    assert WritesNeeded(files, trace, isVideo, isNfo) by {
      forall p
        ensures WriteStrm(p) in trace <==>
                exists i | 0 <= i < |files| :: files[i].path == p && NeedsStrm(files[i], isVideo, isNfo)
        ensures WriteNfo(p) in trace <==> exists i | 0 <= i < |files| :: files[i].path == p && isNfo(p)
      {
        WritingsMean(files, isVideo, isNfo, p);
        assert WriteStrm(p) in trace <==> WriteStrm(p) in written;
        assert WriteNfo(p) in trace <==> WriteNfo(p) in written;
      }
    }
    hide WritesNeeded;
    MarkAfter(written, paths);
  }

  lemma MarkAfter(written: seq<Effect>, paths: seq<string>)
    requires forall e | e in written :: !e.Mark?
    ensures MarksLast(written + if paths == [] then [] else [Mark(paths)], paths)
  {
    var trace := written + if paths == [] then [] else [Mark(paths)];
    forall k | 0 <= k < |written| ensures !trace[k].Mark? {
      assert trace[k] == written[k] && written[k] in written;
    }
  }

  function Publishing(files: seq<File>, isVideo: string -> bool, isNfo: string -> bool): seq<Effect> {
    var wanting := Wanting(files, isVideo, isNfo);
    Writings(files, isVideo, isNfo) + if wanting == [] then [] else [Mark(wanting)]
  }

  /** The trace from the moment a scan is saved until its result is returned. */
  function Finishing(task: Task, raw: seq<File>, saved: seq<File>, publish: bool,
                     isVideo: string -> bool, isNfo: string -> bool): seq<Effect> {
    [SaveScan(raw), DropRecord(task, false)] + if publish then Publishing(saved, isVideo, isNfo) else []
  }

  lemma {:induction false} PublishingIsSafe(workDir: string, files: seq<File>, isVideo: string -> bool,
                                            isNfo: string -> bool)
    ensures Harmless(workDir, Writings(files, isVideo, isNfo)) && Markless(Writings(files, isVideo, isNfo))
  {
    if files != [] {
      PublishingIsSafe(workDir, files[..|files| - 1], isVideo, isNfo);
      HarmlessAppend(workDir, Writings(files[..|files| - 1], isVideo, isNfo),
                     Writing(files[|files| - 1], isVideo, isNfo));
    }
  }

  lemma PublishingMarks(workDir: string, files: seq<File>, isVideo: string -> bool, isNfo: string -> bool)
    ensures var wanting, written := Wanting(files, isVideo, isNfo), Writings(files, isVideo, isNfo);
            && Publishing(files, isVideo, isNfo) == (if wanting == [] then written else written + [Mark(wanting)])
            && (Harmless(workDir, written) ==> Harmless(workDir, written + [Mark(wanting)]))
  {
    var wanting, written := Wanting(files, isVideo, isNfo), Writings(files, isVideo, isNfo);
    assert written + [] == written;
    if Harmless(workDir, written) {
      HarmlessAppend(workDir, written, [Mark(wanting)]);
    }
  }

  // ----- The service -----

  class Service {
    const world: World
    const workDir: string
    const isVideo: string -> bool
    const isNfo: string -> bool

    constructor (world: World, workDir: string, isVideo: string -> bool, isNfo: string -> bool)
      ensures this.world == world && this.workDir == workDir
      ensures this.isVideo == isVideo && this.isNfo == isNfo
    {
      this.world, this.workDir, this.isVideo, this.isNfo := world, workDir, isVideo, isNfo;
    }

    method DeleteCompletedTaskFiles(gid: string) returns (ok: bool, ghost added: seq<Effect>)
      modifies world`trace
      ensures world.trace == old(world.trace) + added
      ensures Discards(workDir, added)
      ensures forall e | e in added && e.DeleteSource? ::
                && Trim(e.info.wpPathId) == Trim(workDir) && Trim(e.info.deleteFileId) != ""
                && (e.node.id == workDir || workDir in e.node.parents)
      ensures ok ==> added != [] && added[|added| - 1].ForgetArtifact?
    {
      added := [];
      var stored := world.CleanupFor(gid);
      if stored.None? {
        return false, added;
      }
      var info := stored.value;
      var fileId := Trim(info.deleteFileId);
      if fileId == "" || Trim(info.wpPathId) != Trim(workDir) {
        return false, added;
      }
      var answer := world.FolderInfo(fileId);
      if answer.Err? {
        if answer.error {
          ok := world.Attempt(ForgetArtifact(info.artifact));
          added := [ForgetArtifact(info.artifact)];
          return;
        }
        return false, added;
      }
      var node := answer.value;
      if node.id != workDir && workDir !in node.parents {
        return false, added;
      }
      ok := world.Attempt(DeleteSource(info, node));
      added := [DeleteSource(info, node)];
      if !ok {
        return;
      }
      ok := world.Attempt(ForgetArtifact(info.artifact));
      added := [DeleteSource(info, node), ForgetArtifact(info.artifact)];
    }

    method DeleteOfflineTaskForRebuild(task: Task) returns (ok: bool, ghost added: seq<Effect>)
      modifies world`trace
      ensures world.trace == old(world.trace) + added
      ensures Cautious(workDir, added) && Count(added) == 0
      ensures added != [] && added[|added| - 1].DropRecord? && added[|added| - 1].task == task
      ensures !(task.wpPathId == workDir && workDir != "") ==> added == [DropRecord(task, false)]
      ensures task.wpPathId == workDir && workDir != "" && !added[|added| - 1].withFiles ==>
                task.jobGid != "" && |added| >= 2 && added[|added| - 2].ForgetArtifact?
    {
      hide Cautious, Count, Discards;
      var deleteSource := task.wpPathId != "" && task.wpPathId == workDir;
      added := [];
      if deleteSource && task.jobGid != "" {
        ok, added := DeleteCompletedTaskFiles(task.jobGid);
        if ok {
          deleteSource := false;
        }
      }
      ok := world.Attempt(DropRecord(task, deleteSource));
      if added == [] {
        assert [] + [DropRecord(task, deleteSource)] == [DropRecord(task, deleteSource)];
        DropIsCautious(workDir, task, deleteSource);
      } else {
        DiscardsThenDrop(workDir, added, task, deleteSource);
      }
      added := added + [DropRecord(task, deleteSource)];
    }

    method ReplaceConflictingOfflineTask(infoHash: string) returns (ok: bool, ghost added: seq<Effect>)
      modifies world
      ensures world.trace == old(world.trace) + added && world.patience == old(world.patience)
      ensures Cautious(workDir, added) && Count(added) <= 1
      ensures ok ==> |added| >= 2 && added[|added| - 2].DropRecord? && added[|added| - 1] == Submit
    {
      added := [];
      var lookup := world.Query();
      if lookup.LookupFailed? && lookup.contextOver {
        return false, added;
      }
      var task := if lookup.Found? then lookup.task else Blank(infoHash, "", "");
      ok, added := DeleteOfflineTaskForRebuild(task);
      if !ok {
        return;
      }
      var answer := world.Add();
      CautiousAppend(workDir, added, [Submit]);
      added := added + [Submit];
      ok := answer.Created?;
    }

    method FindTaskWithRetry() returns (found: Result<Option<Task>, Error>)
      modifies world`patience
      ensures world.patience <= old(world.patience)
    {
      while true
        invariant world.patience <= old(world.patience)
        decreases world.patience
      {
        var lookup := world.Query();
        if lookup.Found? {
          return Ok(Some(lookup.task));
        }
        if lookup.Missing? {
          return Ok(None);
        }
        var go := world.Wait();
        if !go {
          return Err(ContextEnded);
        }
      }
    }

    /** Waits until the task is done and has a result; every change it sees is saved. */
    method WaitForTask(start: Task) returns (r: Result<Task, Error>, ghost added: seq<Effect>)
      modifies world
      ensures world.trace == old(world.trace) + added && world.patience <= old(world.patience)
      ensures forall e | e in added :: e.SaveTask?
      ensures r.Ok? ==> r.value.done && !r.value.failed && r.value.resultId != ""
      ensures r.Ok? ==> r.value.category == start.category && r.value.jobGid == start.jobGid
      ensures r.Ok? && (r.value.status, r.value.progress, r.value.name) != (-999, -1, "") ==>
                && added != []
                && var saved := added[|added| - 1].task;
                   && saved.status == r.value.status && saved.progress == r.value.progress
                   && saved.name == r.value.name
    {
      var current := start;
      var lastStatus, lastProgress, lastName := -999, -1, "";
      added := [];
      while true
        invariant world.trace == old(world.trace) + added && world.patience <= old(world.patience)
        invariant forall e | e in added :: e.SaveTask?
        invariant current.category == start.category && current.jobGid == start.jobGid
        invariant (lastStatus, lastProgress, lastName) ==
                  if added == [] then (-999, -1, "")
                  else (added[|added| - 1].task.status, added[|added| - 1].task.progress, added[|added| - 1].task.name)
        decreases world.patience
      {
        if current.status != lastStatus || current.progress != lastProgress || current.name != lastName {
          lastStatus := current.status;
          var ok := world.Record(SaveTask(current));
          if !ok {
            return Err(Failure), added;
          }
          added := added + [SaveTask(current)];
        }
        lastProgress, lastName := current.progress, current.name;
        if current.failed {
          return Err(Failure), added;
        }
        if current.done && current.resultId != "" {
          return Ok(current), added;
        }
        var go := world.Wait();
        if !go {
          return Err(ContextEnded), added;
        }
        var next := world.Query();
        if next.Found? && next.task.infoHash != "" {
          current := next.task.(category := current.category, jobGid := current.jobGid);
        }
      }
    }

    method WriteFiles(files: seq<File>) returns (ok: bool, seeded: seq<string>, ghost added: seq<Effect>)
      modifies world`trace
      ensures world.trace == old(world.trace) + added
      ensures exists n :: 0 <= n <= |files| && (ok ==> n == |files|) && added == Writings(files[..n], isVideo, isNfo)
      ensures ok ==> seeded == Wanting(files, isVideo, isNfo)
    {
      added, seeded, ok := [], [], true;
      var index := 0;
      while index < |files|
        invariant 0 <= index <= |files|
        invariant world.trace == old(world.trace) + added
        invariant added == Writings(files[..index], isVideo, isNfo)
        invariant seeded == Wanting(files[..index], isVideo, isNfo)
      {
        assert files[..index + 1][..index] == files[..index];
        var file := files[index];
        if isNfo(file.path) {
          ok := world.Record(WriteNfo(file.path));
          if !ok {
            return;
          }
          added := added + [WriteNfo(file.path)];
        } else if isVideo(file.path) && file.needsStrm {
          ok := world.Record(WriteStrm(file.path));
          if !ok {
            return;
          }
          added := added + [WriteStrm(file.path)];
          seeded := seeded + [file.path];
        }
        index := index + 1;
      }
      assert files[..index] == files;
      ok := true;
    }

    method PublishStrms(files: seq<File>) returns (r: Result<seq<File>, Error>, ghost added: seq<Effect>)
      modifies world`trace
      ensures world.trace == old(world.trace) + added
      ensures r.Ok? ==> added == Publishing(files, isVideo, isNfo) && Published(files, added, isVideo, isNfo)
      ensures r.Ok? ==> r.value == if Wanting(files, isVideo, isNfo) == [] then files else Settled(files, isVideo)
      ensures r.Ok? ==> SameFiles(files, r.value) && AllHave(r.value, isVideo, isNfo)
      ensures Harmless(workDir, added) && (r.Err? ==> Markless(added))
    {
      hide Harmless, Markless, Writings, Wanting, Publishing, Settled;
      var ok, seeded;
      ok, seeded, added := WriteFiles(files);
      ghost var n :| 0 <= n <= |files| && (ok ==> n == |files|) && added == Writings(files[..n], isVideo, isNfo);
      PublishingIsSafe(workDir, files[..n], isVideo, isNfo);
      if !ok {
        return Err(Failure), added;
      }
      assert files[..n] == files;
      PublishingMarks(workDir, files, isVideo, isNfo);
      PublishingMeans(files, isVideo, isNfo);
      SettledMeans(files, isVideo, isNfo);
      hide Published, SameFiles, AllHave;
      if seeded == [] {
        return Ok(files), added;
      }
      ok := world.Record(Mark(seeded));
      if !ok {
        return Err(Failure), added;
      }
      added := added + [Mark(seeded)];
      r := Ok(Settled(files, isVideo));
    }

    method FinishScan(task: Task, raw: seq<File>, reused: bool, publish: bool)
      returns (r: Result<Resolved, Error>, ghost added: seq<Effect>, ghost saved: seq<File>)
      modifies world`trace
      ensures world.trace == old(world.trace) + added
      ensures r.Ok? ==> r.value == Complete(task, Returned(saved, publish), reused)
                        && added == Finishing(task, raw, saved, publish, isVideo, isNfo) && SameFiles(raw, saved)
      ensures r.Ok? ==> |added| >= 2 && added[0] == SaveScan(raw) && added[1] == DropRecord(task, false)
      ensures r.Ok? && publish ==> Published(saved, added[2..], isVideo, isNfo)
                                   && SameFiles(saved, r.value.files) && AllHave(r.value.files, isVideo, isNfo)
      ensures r.Ok? && !publish ==> |added| == 2 && r.value.files == saved
      ensures Harmless(workDir, added) && (r.Err? ==> Markless(added)) && (!publish ==> Strmless(added))
    {
      ghost var before := world.trace;
      added, saved := [], raw;
      HarmlessAppend(workDir, [], added);
      var answer := world.SaveFiles(raw);
      if answer.None? {
        return Err(Failure), added, saved;
      }
      var files := answer.value;
      saved := files;
      var _ := world.Attempt(DropRecord(task, false));
      added := [SaveScan(raw), DropRecord(task, false)];
      HarmlessAppend(workDir, [], added);
      assert Markless(added) && Strmless(added);
      hide Harmless, Markless, Strmless, Publishing, Wanting, Settled;
      TwoThen(before, SaveScan(raw), DropRecord(task, false), []);
      if !publish {
        return Ok(Complete(task, files, reused)), added, saved;
      }
      ghost var tail: seq<Effect>;
      var published;
      published, tail := PublishStrms(files);
      TwoThen(before, SaveScan(raw), DropRecord(task, false), tail);
      HarmlessPair(workDir, added, tail);
      MarklessPair(added, tail);
      added := added + tail;
      r := if published.Err? then Err(published.error) else Ok(Complete(task, published.value, reused));
    }

    ghost function Returned(saved: seq<File>, publish: bool): seq<File> {
      if publish && Wanting(saved, isVideo, isNfo) != [] then Settled(saved, isVideo) else saved
    }

    /** The first submission, or the one that somebody else prepared. */
    method Obtain(infoHash: string, prepared: Option<(Task, bool)>, force: bool)
      returns (r: Result<(Task, bool), Error>, ghost added: seq<Effect>)
      modifies world
      ensures world.trace == old(world.trace) + added && world.patience <= old(world.patience)
      ensures Cautious(workDir, added)
      ensures Count(added) <= (if prepared.Some? then 0 else if force then 2 else 1)
      ensures prepared.Some? ==> added == [] && (r.Ok? <==> Lower(prepared.value.0.infoHash) == Lower(infoHash))
                                 && (r.Ok? ==> r.value == prepared.value)
      ensures prepared.None? ==> added != [] && added[0] == Submit
      ensures prepared.None? && r.Ok? ==>
              (force ==> !r.value.1) && (!r.value.1 ==> r.value.0 == Blank(infoHash, "", ""))
    {
      added := [];
      if prepared.Some? {
        var (task, reused) := prepared.value;
        return if SameHash(task.infoHash, infoHash) then Ok((task, reused)) else Err(Failure), added;
      }
      var answer := world.Add();
      added := [Submit];
      var blank := Blank(infoHash, "", "");
      match answer {
        case Created => r := Ok((blank, false));
        case Conflict =>
          if force {
            ghost var more: seq<Effect>;
            var ok;
            ok, more := ReplaceConflictingOfflineTask(infoHash);
            CautiousAppend(workDir, added, more);
            added := added + more;
            r := if ok then Ok((blank, false)) else Err(Failure);
          } else {
            var found := FindTaskWithRetry();
            r := if found.Ok? && found.value.Some? then Ok((found.value.value, true)) else Err(Failure);
          }
        case _ => r := Err(Failure);
      }
    }

    /** Saves what has been obtained under the job's gid. */
    method Begin(infoHash: string, gid: string, prepared: Option<(Task, bool)>, force: bool)
      returns (r: Result<(Task, bool), Error>, ghost added: seq<Effect>)
      modifies world
      ensures world.trace == old(world.trace) + added && world.patience <= old(world.patience)
      ensures Cautious(workDir, added)
      ensures Count(added) <= (if prepared.Some? then 0 else if force then 2 else 1)
      ensures r.Ok? ==> r.value.0.jobGid == gid && (r.value.1 || r.value.0 == Blank(infoHash, r.value.0.category, gid))
    {
      r, added := Obtain(infoHash, prepared, force);
      if r.Err? {
        return;
      }
      var (given, reused) := r.value;
      var task := if reused then given.(jobGid := gid) else Blank(infoHash, given.category, gid);
      var ok := world.Record(SaveTask(task));
      if !ok {
        return Err(Failure), added;
      }
      WaitIsCautious(workDir, [SaveTask(task)]);
      CautiousAppend(workDir, added, [SaveTask(task)]);
      added := added + [SaveTask(task)];
      r := Ok((task, reused));
    }

    /** One scan of a finished task; looking for one file it may end as soon as that file turns up. */
    method ScanTask(target: Option<string>) returns (outcome: Raced)
      ensures outcome.TargetFirst? ==> target.Some? && SameHash(outcome.target.sha1, target.value)
      ensures outcome.ScanOver? && outcome.scanned.Files? && target.Some? ==>
              Contains(outcome.scanned.files, target.value)
    {
      if target.None? {
        var scanned := world.Scan();
        return ScanOver(scanned);
      }
      outcome := world.Race(target.value);
      if outcome.ScanOver? && outcome.scanned.Files? && !Contains(outcome.scanned.files, target.value) {
        outcome := ScanOver(ResultMissing);
      }
    }

    /** Deletes a finished task whose result is gone and submits the link again. */
    method Rebuild(task: Task, infoHash: string, gid: string) returns (r: Result<Task, Error>, ghost added: seq<Effect>)
      modifies world`trace
      ensures world.trace == old(world.trace) + added
      ensures Cautious(workDir, added) && Count(added) <= 1
      ensures r.Ok? ==> r.value == Task(infoHash, "", 0, 0, false, false, "", "", task.category, gid)
      ensures r.Ok? ==> |added| >= 3 && added[|added| - 3].DropRecord? && added[|added| - 2] == Submit
                        && added[|added| - 1] == SaveTask(r.value)
    {
      hide *;
      var ok;
      ok, added := DeleteOfflineTaskForRebuild(task);
      if !ok {
        return Err(Failure), added;
      }
      var answer := world.Add();
      PlainIsCautious(workDir, Submit);
      CautiousAppend(workDir, added, [Submit]);
      added := added + [Submit];
      if answer != Created {
        return Err(Failure), added;
      }
      var blank := Blank(infoHash, task.category, gid);
      BlankIsNew(infoHash, task.category, gid);
      ok := world.Record(SaveTask(blank));
      if !ok {
        return Err(Failure), added;
      }
      PlainIsCautious(workDir, SaveTask(blank));
      CautiousAppend(workDir, added, [SaveTask(blank)]);
      added := added + [SaveTask(blank)];
      r := Ok(blank);
    }

    /** The tail is exactly what finishing the returned result takes. */
    ghost predicate Finished(tail: seq<Effect>, value: Resolved, publish: bool, target: Option<string>) {
      && value.Complete? && value.task.done && value.task.resultId != ""
      && exists raw, saved ::
           && tail == Finishing(value.task, raw, saved, publish, isVideo, isNfo)
           && SameFiles(raw, saved) && value.files == Returned(saved, publish)
           && |tail| >= 2 && tail[0] == SaveScan(raw) && tail[1] == DropRecord(value.task, false)
           && (if publish
               then Published(saved, tail[2..], isVideo, isNfo) && SameFiles(saved, value.files)
                    && AllHave(value.files, isVideo, isNfo)
               else |tail| == 2 && value.files == saved)
           && (target.Some? ==> Contains(raw, target.value))
    }

    /** Waits for the task, scans it and finishes, or finds that its result is missing. */
    method Round(start: Task, reused: bool, publish: bool, target: Option<string>)
      returns (r: Result<Resolved, Error>, missing: Option<Task>, ghost early: seq<Effect>, ghost tail: seq<Effect>)
      modifies world
      ensures world.trace == old(world.trace) + early + tail
      ensures Cautious(workDir, early) && Count(early) == 0 && Harmless(workDir, tail)
      ensures missing.Some? ==> r.Err? && tail == []
      ensures r.Ok? ==> r.value.reused == reused
      ensures r.Ok? && r.value.Complete? ==> Finished(tail, r.value, publish, target)
      ensures r.Ok? && r.value.Early? ==> tail == [] && target.Some? && SameHash(r.value.target.sha1, target.value)
      ensures (r.Err? ==> Markless(tail)) && (!publish ==> Strmless(tail))
    {
      tail, missing := [], None;
      var waited;
      waited, early := WaitForTask(start);
      WaitIsCautious(workDir, early);
      if waited.Err? {
        return Err(waited.error), missing, early, tail;
      }
      var task := waited.value;
      var outcome := ScanTask(target);
      match outcome {
        case TargetFirst(file) => r := Ok(Early(task, file, reused));
        case ContextOver => r := Err(ContextEnded);
        case ScanOver(ResultMissing) => r, missing := Err(Failure), Some(task);
        case ScanOver(ScanFailed) => r := Err(Failure);
        case ScanOver(Files(raw)) =>
          ghost var saved: seq<File>;
          r, tail, saved := FinishScan(task, raw, reused, publish);
      }
    }

    /** Rounds with at most one rebuild between them. */
    method Pursue(start: Task, infoHash: string, gid: string, given: bool, publish: bool, target: Option<string>)
      returns (r: Result<Resolved, Error>, ghost early: seq<Effect>, ghost tail: seq<Effect>)
      modifies world
      ensures world.trace == old(world.trace) + early + tail
      ensures Cautious(workDir, early) && Count(early) <= 1 && Harmless(workDir, tail)
      ensures r.Ok? && r.value.Complete? ==> Finished(tail, r.value, publish, target)
      ensures r.Ok? && r.value.Early? ==> tail == [] && target.Some? && SameHash(r.value.target.sha1, target.value)
      ensures (r.Err? ==> Markless(tail)) && (!publish ==> Strmless(tail))
      ensures r.Ok? && r.value.reused ==> given && Count(early) == 0
    {
      hide *;
      ghost var before := world.trace;
      early := [];
      WaitIsCautious(workDir, early);
      var task, reused, rebuilds := start, given, 0;
      while true
        invariant 0 <= rebuilds <= 1
        invariant world.trace == before + early
        invariant Cautious(workDir, early) && Count(early) <= rebuilds
        invariant reused ==> given && rebuilds == 0
        decreases 1 - rebuilds
      {
        ghost var more: seq<Effect>;
        var missing;
        r, missing, more, tail := Round(task, reused, publish, target);
        Regroup(before, early, more, tail);
        CautiousAppend(workDir, early, more);
        early := early + more;
        if missing.None? || rebuilds >= 1 {
          return;
        }
        rebuilds := rebuilds + 1;
        var rebuilt;
        rebuilt, more := Rebuild(missing.value, infoHash, gid);
        Regroup(before, early, more, []);
        CautiousAppend(workDir, early, more);
        early := early + more;
        if rebuilt.Err? {
          return Err(rebuilt.error), early, tail;
        }
        task, reused := rebuilt.value, false;
      }
    }

    /**
     For every behaviour of the provider: at most three submissions, one if the task was prepared and
     two unless a conflict is to be replaced; nothing is deleted that is not ours; a whole result is
     returned only after its scan was saved, its record dropped without its files and, when
     publishing, every STRM written and then marked.
     */
    method Resolve(infoHash: string, gid: string, prepared: Option<(Task, bool)>, publish: bool,
                   target: Option<string>, force: bool)
      returns (r: Result<Resolved, Error>, ghost early: seq<Effect>, ghost tail: seq<Effect>)
      modifies world
      ensures world.trace == old(world.trace) + early + tail
      ensures Cautious(workDir, early) && Harmless(workDir, tail)
      ensures Count(early) <= (if prepared.Some? then 1 else if force then 3 else 2)
      ensures r.Ok? && r.value.Complete? ==> Finished(tail, r.value, publish, target)
      ensures r.Ok? && r.value.Early? ==> tail == [] && target.Some? && SameHash(r.value.target.sha1, target.value)
      ensures (r.Err? ==> Markless(tail)) && (!publish ==> Strmless(tail))
    {
      ghost var before := world.trace;
      tail := [];
      HarmlessAppend(workDir, [], tail);
      hide Cautious, Harmless, Finished, Count, Markless, Strmless, Blank, SameHash, Lower;
      var begun;
      begun, early := Begin(infoHash, gid, prepared, force);
      if begun.Err? {
        assert Markless(tail) && Strmless(tail) by { NothingMarked(); }
        return Err(begun.error), early, tail;
      }
      ghost var more: seq<Effect>;
      r, more, tail := Pursue(begun.value.0, infoHash, gid, begun.value.1, publish, target);
      Regroup(before, early, more, tail);
      CautiousAppend(workDir, early, more);
      early := early + more;
    }

    /**
     Submits a batch with one request: on success every link has a task, a blank one if it was
     created and the one the provider knows if it was there already.
     */
    method PrepareOfflineTasks(hashes: seq<string>) returns (r: Result<map<string, (Task, bool)>, Error>)
      modifies world`trace
      ensures world.trace == old(world.trace) + [Submit]
      ensures r.Ok? ==> r.value.Keys == (set h | h in hashes)
      ensures r.Ok? ==> forall h | h in r.value && !r.value[h].1 :: r.value[h].0 == Blank(h, "", "")
    {
      var distinct: seq<string> := [];
      for i := 0 to |hashes|
        invariant forall h :: h in distinct <==> h in hashes[..i]
      {
        if hashes[i] !in distinct {
          distinct := distinct + [hashes[i]];
        }
      }
      assert hashes[..|hashes|] == hashes;
      var answers := world.AddMany(distinct);
      if answers.None? || exists h | h in distinct :: h !in answers.value {
        return Err(Failure);
      }
      var prepared: map<string, (Task, bool)> := map[];
      var conflicts: seq<string> := [];
      for i := 0 to |distinct|
        invariant forall h :: h in prepared || h in conflicts <==> h in distinct[..i]
        invariant forall h | h in prepared :: prepared[h] == (Blank(h, "", ""), false)
      {
        match answers.value[distinct[i]] {
          case Created => prepared := prepared[distinct[i] := (Blank(distinct[i], "", ""), false)];
          case Conflict => conflicts := conflicts + [distinct[i]];
          case _ => return Err(Failure);
        }
      }
      assert distinct[..|distinct|] == distinct;
      if conflicts != [] {
        var existing := world.QueryMany();
        if existing.None? {
          return Err(Failure);
        }
        for i := 0 to |conflicts|
          invariant forall h :: h in prepared || h in conflicts <==> h in distinct
          invariant forall h | h in conflicts[..i] :: h in prepared
          invariant forall h | h in prepared && !prepared[h].1 :: prepared[h].0 == Blank(h, "", "")
        {
          if conflicts[i] !in existing.value {
            return Err(Failure);
          }
          prepared := prepared[conflicts[i] := (existing.value[conflicts[i]], true)];
        }
        assert conflicts[..|conflicts|] == conflicts;
      }
      r := Ok(prepared);
    }

    /** Restores one file; the file is there whenever resolving succeeds. */
    method RestoreContent(infoHash: string, gid: string, sha1: string)
      returns (r: Result<File, Error>, ghost early: seq<Effect>, ghost tail: seq<Effect>)
      modifies world
      ensures world.trace == old(world.trace) + early + tail
      ensures Cautious(workDir, early) && Count(early) <= 3 && Harmless(workDir, tail) && Strmless(tail)
      ensures r.Ok? ==> Lower(r.value.sha1) == Lower(sha1)
    {
      var resolved;
      resolved, early, tail := Resolve(infoHash, gid, None, false, Some(sha1), true);
      if resolved.Err? {
        return Err(resolved.error), early, tail;
      }
      match resolved.value {
        case Early(_, target, _) => r := Ok(target);
        case Complete(_, files, _) =>
          for index := 0 to |files|
            invariant forall k | 0 <= k < index :: !SameHash(files[k].sha1, sha1)
          {
            if SameHash(files[index].sha1, sha1) {
              return Ok(files[index]), early, tail;
            }
          }
          assert false;
          r := Err(Failure);
      }
    }

    /** What the background does after an early answer. */
    method FinishBackgroundScan(task: Task, outcome: Scanned, reused: bool) returns (ghost added: seq<Effect>)
      modifies world`trace
      ensures world.trace == old(world.trace) + added && Harmless(workDir, added)
      ensures !outcome.Files? ==> added == []
    {
      HarmlessAppend(workDir, [], []);
      added := [];
      match outcome {
        case Files(raw) =>
          ghost var saved: seq<File>;
          var _, a, b := FinishScan(task, raw, reused, false);
          added := a;
        case _ =>
      }
    }

    /** A job becomes succeeded only when its STRMs have been written and marked. */
    method RunJob(infoHash: string, gid: string, prepared: Option<(Task, bool)>)
      returns (r: Result<Resolved, Error>, ghost early: seq<Effect>, ghost tail: seq<Effect>)
      modifies world
      ensures r.Ok? ==>
                && world.trace == old(world.trace) + [SetState(Catalogue.Running)] + early + tail
                   + [SetState(Catalogue.Succeeded)]
                && Cautious(workDir, early) && Count(early) <= 2 && Finished(tail, r.value, true, None)
      ensures r.Err? ==> |old(world.trace)| <= |world.trace| && Unsucceeded(world.trace[|old(world.trace)|..])
    {
      early, tail := [], [];
      ghost var before, running := world.trace, [SetState(Catalogue.Running)];
      WaitIsCautious(workDir, []);
      hide Cautious, Count, Finished, Unsucceeded;
      var ok := world.Record(SetState(Catalogue.Running));
      if !ok {
        UnsucceededRun(workDir, before, [], [], [], []);
        return Err(Failure), early, tail;
      }
      r, early, tail := Resolve(infoHash, gid, prepared, true, None, false);
      if r.Err? {
        MarklessIsUnsucceeded(tail);
        ok := world.Record(SetState(Catalogue.Failed));
        UnsucceededRun(workDir, before, running, early, tail, if ok then [SetState(Catalogue.Failed)] else []);
        return;
      }
      FinishedIsUnsucceeded(tail, r.value);
      ok := world.Record(SetState(Catalogue.Succeeded));
      if !ok {
        r := Err(Failure);
        UnsucceededRun(workDir, before, running, early, tail, []);
      }
    }

    lemma FinishedIsUnsucceeded(tail: seq<Effect>, value: Resolved)
      requires Finished(tail, value, true, None)
      ensures Unsucceeded(tail)
    {
      hide Published, SameFiles, AllHave, Returned, Contains, Writings, Wanting, Harmless;
      var raw, saved :| tail == Finishing(value.task, raw, saved, true, isVideo, isNfo);
      PublishingIsSafe(workDir, saved, isVideo, isNfo);
      hide Finished;
    }
  }

  predicate Contains(files: seq<File>, sha1: string) {
    exists i | 0 <= i < |files| :: SameHash(files[i].sha1, sha1)
  }

  lemma WaitIsCautious(workDir: string, added: seq<Effect>)
    requires forall e | e in added :: e.SaveTask?
    ensures Cautious(workDir, added) && Count(added) == 0
  {
    NoSubmits(added);
    forall i | 0 <= i < |added| ensures added[i].SaveTask? {
      assert added[i] in added;
    }
  }

  /** The same files but for the flag that SaveScan sets. */
  predicate SameFiles(raw: seq<File>, saved: seq<File>) {
    |saved| == |raw| && forall i | 0 <= i < |raw| :: saved[i] == raw[i].(needsStrm := saved[i].needsStrm)
  }

  predicate Unsucceeded(trace: seq<Effect>) {
    SetState(Catalogue.Succeeded) !in trace
  }

  lemma MarklessIsUnsucceeded(tail: seq<Effect>)
    requires Markless(tail)
    ensures Unsucceeded(tail)
  {
  }

  lemma UnsucceededRun(workDir: string, before: seq<Effect>, start: seq<Effect>, early: seq<Effect>,
                       tail: seq<Effect>, end: seq<Effect>)
    requires Cautious(workDir, early) && (tail == [] || Unsucceeded(tail))
    requires start == [] || start == [SetState(Catalogue.Running)]
    requires end == [] || end == [SetState(Catalogue.Failed)]
    ensures Unsucceeded((before + start + early + tail + end)[|before|..])
  {
    assert (before + start + early + tail + end)[|before|..] == start + early + tail + end;
  }

  lemma TwoThen(x: seq<Effect>, a: Effect, b: Effect, tail: seq<Effect>)
    ensures x + [a] + [b] + tail == x + ([a, b] + tail)
    ensures x + [a] + [b] == x + [a, b]
  {
  }

  lemma NothingMarked()
    ensures Markless([]) && Strmless([])
  {
  }

  lemma MarklessPair(a: seq<Effect>, b: seq<Effect>)
    ensures Markless(a) && Markless(b) ==> Markless(a + b)
  {
  }

  predicate Strmless(trace: seq<Effect>) {
    forall e | e in trace :: !e.WriteStrm? && !e.WriteNfo? && !e.Mark?
  }

  predicate Markless(trace: seq<Effect>) {
    forall e | e in trace :: !e.Mark? && !e.SetState?
  }
}
