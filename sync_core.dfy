/**
 * The sync engine: scan every `<folder>/.roo` tree into an index keyed by the
 * path relative to `.roo`, plan a copy from the newest copy of each file onto
 * every older one, and carry the copies out with a timestamped backup and a
 * temp-file-then-replace, emitting progress events throughout.
 *
 * The directory walk, the path resolution and the clock are parameters: a
 * `Listing` gives what `rglob("*")` yields below a scan root (as parts
 * relative to it), a `Resolver` stands for the resolution inside
 * `normalize_path`, and `clock(i)` is the backup timestamp read while
 * executing the i-th action.
 */
module SyncCore {
  import opened Wrappers
  import opened Text
  import opened Filesystem
  import opened FilePathUtils
  import opened ConfigSync
  import opened ProgressEvents

  /** An index key: the relative path, or `None` when it could not be computed. */
  type Key = Option<string>

  /** `str(relative_path)`. */
  function KeyText(k: Key): string {
    match k
    case None => "None"
    case Some(s) => s
  }

  datatype FileRecord = FileRecord(path: Path, mtime: int, size: nat, baseFolder: Path)

  type Group = seq<FileRecord>

  /** The file index: a dict from keys to groups, in insertion order. */
  type FileIndex = seq<(Key, Group)>

  /** What `rglob("*")` yields below a scan root, as parts relative to it. */
  type Listing = Path -> seq<Path>

  // ---------------------------------------------------------------- configuration

  /** `ignore_patterns` can be iterated: it is absent, a list, or a string. */
  predicate IgnoreIterable(cfg: Dict) {
    var v := Get(cfg, "ignore_patterns");
    v.None? || v.value.ListVal? || v.value.StrVal?
  }

  /** Iterating a string yields its characters. */
  function Chars(s: string): (r: seq<string>)
    ensures |r| == |s| && forall i :: 0 <= i < |s| ==> r[i] == [s[i]]
  {
    if s == "" then [] else Chars(s[..|s| - 1]) + [[s[|s| - 1]]]
  }

  /** The patterns `config.get("ignore_patterns", [])` iterates over. */
  function IgnorePatterns(cfg: Dict): seq<string>
    requires IgnoreIterable(cfg)
  {
    match Get(cfg, "ignore_patterns")
    case Some(ListVal(items)) => items
    case Some(StrVal(s)) => Chars(s)
    case _ => []
  }

  /** A loaded configuration always has a list of ignore patterns. */
  lemma LoadedConfigIgnoreList(src: ConfigSource)
    ensures IgnoreIterable(LoadSpec(src))
    ensures ListAt(LoadSpec(src), "ignore_patterns")
  {
    LoadedConfigIsTyped(src);
  }

  /** `config.get("dry_run", False)`, as a condition. */
  predicate DryRun(cfg: Dict) {
    Truthy(Get(cfg, "dry_run"))
  }

  /** `config.get("backup_mode", "none") == "timestamped"`. */
  predicate Timestamped(cfg: Dict) {
    Get(cfg, "backup_mode") == Some(StrVal("timestamped"))
  }

  // ---------------------------------------------------------------- scan_folders

  /** Some ignore pattern equals one of the relative parts. */
  predicate Ignored(rel: Path, patterns: seq<string>) {
    exists j :: 0 <= j < |patterns| && patterns[j] in rel
  }

  function ScanRoot(folder: Path): Path {
    folder + [RooDirName]
  }

  /** `has_roo_dir(folder)` answers true. */
  predicate HasRoo(fs: Fs, folder: Path, resolve: Resolver) {
    HasRooDir(fs, PathObj(PathText(folder)), resolve) == Success(true)
  }

  /** A file the scan records, under the key it is filed under. */
  datatype Hit = Hit(key: Key, record: FileRecord)

  /** `get_roo_relative_path(item_path, folder)`, which cannot fail for two paths. */
  function RelativeKey(fs: Fs, item: Path, folder: Path, resolve: Resolver): Key {
    PathObjectNormalizes(item, resolve);
    PathObjectNormalizes(folder, resolve);
    GetRooRelativePath(fs, PathObj(PathText(item)), PathObj(PathText(folder)), resolve).value
  }

  /** What the scan records for one entry below `<folder>/.roo`: nothing for an ignored entry or a non-file. */
  function ItemHit(fs: Fs, folder: Path, rel: Path, patterns: seq<string>, resolve: Resolver): (r: Option<Hit>)
    ensures r.Some? <==> !Ignored(rel, patterns) && IsFile(fs, ScanRoot(folder) + rel)
    ensures r.Some? ==> r.value.record.path == ScanRoot(folder) + rel && r.value.record.baseFolder == folder
    ensures r.Some? ==>
      && Stat(fs, r.value.record.path).value.mtime == r.value.record.mtime
      && |Stat(fs, r.value.record.path).value.data| == r.value.record.size
  {
    var item := ScanRoot(folder) + rel;
    if Ignored(rel, patterns) || !IsFile(fs, item) then None
    else
      var node := Stat(fs, item).value;
      Some(Hit(RelativeKey(fs, item, folder, resolve), FileRecord(item, node.mtime, |node.data|, folder)))
  }

  function OptionSeq(o: Option<Hit>): seq<Hit> {
    if o.Some? then [o.value] else []
  }

  /** The hits of one folder's walk, in walk order. */
  function FolderHits(fs: Fs, folder: Path, rels: seq<Path>, patterns: seq<string>, resolve: Resolver): (r: seq<Hit>)
    ensures |r| <= |rels|
  {
    if rels == [] then []
    else FolderHits(fs, folder, rels[..|rels| - 1], patterns, resolve) + OptionSeq(ItemHit(fs, folder, rels[|rels| - 1], patterns, resolve))
  }

  /** The hits of one folder: none without a `.roo` directory. */
  function FolderScan(fs: Fs, f: Path, listing: Listing, patterns: seq<string>, resolve: Resolver): seq<Hit> {
    if HasRoo(fs, f, resolve) then FolderHits(fs, f, listing(ScanRoot(f)), patterns, resolve) else []
  }

  /** The hits of the whole scan, folder by folder; a folder without `.roo` contributes none. */
  function ScanHits(fs: Fs, folders: seq<Path>, listing: Listing, patterns: seq<string>, resolve: Resolver): seq<Hit> {
    if folders == [] then []
    else
      var f := folders[|folders| - 1];
      ScanHits(fs, folders[..|folders| - 1], listing, patterns, resolve)
        + FolderScan(fs, f, listing, patterns, resolve)
  }

  function Event(t: EventType, folder: string, filePath: string, message: string): ProgressEvent {
    ProgressEvent(t, folder, filePath, message, None)
  }

  const StartEvent: ProgressEvent := Event(ScanStart, "", "", "Starting folder scan")

  function MissingRooEvent(folder: Path): ProgressEvent {
    Event(Error, PathText(folder), "", "Folder does not contain .roo directory: " + PathText(folder))
  }

  function HitEvent(h: Hit): ProgressEvent {
    Event(ScanFile, PathText(h.record.baseFolder), KeyText(h.key), "Scanning: " + KeyText(h.key))
  }

  function HitEvents(hits: seq<Hit>): (r: seq<ProgressEvent>)
    ensures |r| == |hits|
    ensures forall i :: 0 <= i < |hits| ==> r[i] == HitEvent(hits[i])
  {
    if hits == [] then [] else HitEvents(hits[..|hits| - 1]) + [HitEvent(hits[|hits| - 1])]
  }

  /** The events of one folder: an `ERROR` without a `.roo` directory, else one `SCAN_FILE` per hit. */
  function FolderEvents(fs: Fs, f: Path, listing: Listing, patterns: seq<string>, resolve: Resolver): seq<ProgressEvent> {
    if HasRoo(fs, f, resolve) then HitEvents(FolderHits(fs, f, listing(ScanRoot(f)), patterns, resolve)) else [MissingRooEvent(f)]
  }

  /** The events after `SCAN_START`: one `ERROR` per folder without `.roo`, one `SCAN_FILE` per hit. */
  function ScanEvents(fs: Fs, folders: seq<Path>, listing: Listing, patterns: seq<string>, resolve: Resolver): seq<ProgressEvent> {
    if folders == [] then []
    else
      var f := folders[|folders| - 1];
      ScanEvents(fs, folders[..|folders| - 1], listing, patterns, resolve)
        + FolderEvents(fs, f, listing, patterns, resolve)
  }

  /** The group filed under `k`, empty when there is none. */
  function GroupOf(index: FileIndex, k: Key): Group {
    if index == [] then [] else if index[0].0 == k then index[0].1 else GroupOf(index[1..], k)
  }

  predicate KeysDistinct(index: FileIndex) {
    forall i, j :: 0 <= i < j < |index| ==> index[i].0 != index[j].0
  }

  /** `file_index[k].append(r)` on a `defaultdict(list)`. */
  function AddRecord(index: FileIndex, k: Key, r: FileRecord): (res: FileIndex)
    ensures forall k' :: GroupOf(res, k') == if k' == k then GroupOf(index, k) + [r] else GroupOf(index, k')
    ensures (forall i :: 0 <= i < |index| ==> index[i].1 != []) ==> forall i :: 0 <= i < |res| ==> res[i].1 != []
  {
    if index == [] then [(k, [r])]
    else if index[0].0 == k then
      var res := [(k, index[0].1 + [r])] + index[1..];
      assert res[1..] == index[1..];
      res
    else
      var tail := AddRecord(index[1..], k, r);
      var res := [index[0]] + tail;
      assert res[1..] == tail;
      res
  }

  /** Whether some entry of `index` is filed under `key`. */
  predicate HasKey(index: FileIndex, key: Key) {
    index != [] && (index[0].0 == key || HasKey(index[1..], key))
  }

  lemma {:induction false} HasKeyAt(index: FileIndex, i: int)
    requires 0 <= i < |index|
    ensures HasKey(index, index[i].0)
  {
    if i > 0 {
      HasKeyAt(index[1..], i - 1);
    }
  }

  /** Every key of `res` is `k` or a key of `index`. */
  predicate KeysFrom(res: FileIndex, index: FileIndex, k: Key) {
    forall i :: 0 <= i < |res| ==> res[i].0 == k || HasKey(index, res[i].0)
  }

  /** Appending under `k` adds at most the key `k`, so keys stay distinct. */
  lemma {:induction false} AddRecordKeys(index: FileIndex, k: Key, r: FileRecord)
    ensures KeysFrom(AddRecord(index, k, r), index, k)
    ensures KeysDistinct(index) ==> KeysDistinct(AddRecord(index, k, r))
  {
    var res := AddRecord(index, k, r);
    if index == [] {
    } else if index[0].0 == k {
      forall i | 0 <= i < |res| ensures res[i].0 == k || HasKey(index, res[i].0) {
        HasKeyAt(index, i);
      }
    } else {
      AddRecordKeys(index[1..], k, r);
      var tail := AddRecord(index[1..], k, r);
      assert res == [index[0]] + tail;
      assert KeysFrom(tail, index[1..], k);
      forall i | 0 <= i < |res| ensures res[i].0 == k || HasKey(index, res[i].0) {
        if i > 0 {
          assert res[i] == tail[i - 1];
        }
      }
      if KeysDistinct(index) {
        assert KeysDistinct(index[1..]);
        forall i, j | 0 <= i < j < |res| ensures res[i].0 != res[j].0 {
          if i == 0 {
            assert res[j] == tail[j - 1];
            if res[j].0 != k {
              KeyOfDistinctTail(index, res[j].0);
            }
          } else {
            assert res[i] == tail[i - 1] && res[j] == tail[j - 1];
          }
        }
      }
    }
  }

  lemma {:induction false} KeyOfDistinctTail(index: FileIndex, key: Key)
    requires index != [] && KeysDistinct(index) && HasKey(index[1..], key)
    ensures key != index[0].0
  {
    var j := KeyIndex(index[1..], key);
    assert index[j + 1] == index[1..][j];
  }

  lemma {:induction false} KeyIndex(index: FileIndex, key: Key) returns (j: int)
    requires HasKey(index, key)
    ensures 0 <= j < |index| && index[j].0 == key
  {
    if index[0].0 == key {
      j := 0;
    } else {
      var j' := KeyIndex(index[1..], key);
      j := j' + 1;
    }
  }

  /** The index the scan builds from its hits. */
  function BuildIndex(hits: seq<Hit>): (r: FileIndex)
    ensures KeysDistinct(r)
    ensures forall i :: 0 <= i < |r| ==> r[i].1 != []
  {
    if hits == [] then []
    else
      AddRecordKeys(BuildIndex(hits[..|hits| - 1]), hits[|hits| - 1].key, hits[|hits| - 1].record);
      AddRecord(BuildIndex(hits[..|hits| - 1]), hits[|hits| - 1].key, hits[|hits| - 1].record)
  }

  /** The records of the hits filed under `k`, in scan order. */
  function RecordsWithKey(hits: seq<Hit>, k: Key): seq<FileRecord> {
    if hits == [] then []
    else RecordsWithKey(hits[..|hits| - 1], k) + (if hits[|hits| - 1].key == k then [hits[|hits| - 1].record] else [])
  }

  /** Each group of the index holds exactly the records filed under its key, in scan order. */
  lemma {:induction false} IndexGroupsByKey(hits: seq<Hit>, k: Key)
    ensures GroupOf(BuildIndex(hits), k) == RecordsWithKey(hits, k)
  {
    if hits != [] {
      IndexGroupsByKey(hits[..|hits| - 1], k);
    }
  }

  // ---------------------------------------------------------------- plan_actions

  datatype Action = Action(kind: string, sourcePath: Path, destinationPath: Path, relativePath: Key, sourceMtime: int, destinationMtime: int)

  function CopyAction(k: Key, s: FileRecord, d: FileRecord): Action {
    Action("copy", s.path, d.path, k, s.mtime, d.mtime)
  }

  /** `max(group, key=mtime)`: the first record with the largest mtime. */
  function NewestIndex(g: Group): (i: nat)
    requires g != []
    ensures i < |g|
    ensures forall j :: 0 <= j < |g| ==> g[j].mtime <= g[i].mtime
    ensures forall j :: 0 <= j < i ==> g[j].mtime < g[i].mtime
  {
    if |g| == 1 then 0
    else
      var m := NewestIndex(g[..|g| - 1]);
      if g[|g| - 1].mtime > g[m].mtime then |g| - 1 else m
  }

  /** `[f for f in group if f != source]`. */
  function Without(g: Group, s: FileRecord): (r: Group)
    ensures |r| <= |g|
  {
    if g == [] then []
    else Without(g[..|g| - 1], s) + (if g[|g| - 1] != s then [g[|g| - 1]] else [])
  }

  /** The destinations are the group's records other than the source. */
  lemma {:induction false} WithoutMembers(g: Group, s: FileRecord, f: FileRecord)
    ensures f in Without(g, s) <==> f in g && f != s
  {
    if g != [] {
      var pre := g[..|g| - 1];
      WithoutMembers(pre, s, f);
      assert g == pre + [g[|g| - 1]];
    }
  }

  /** The copies from `s` onto each record of `dests` that is older, in order. */
  function CopiesFrom(k: Key, s: FileRecord, dests: Group): (r: seq<Action>)
    ensures |r| <= |dests|
  {
    if dests == [] then []
    else
      var d := dests[|dests| - 1];
      CopiesFrom(k, s, dests[..|dests| - 1]) + (if s.mtime > d.mtime then [CopyAction(k, s, d)] else [])
  }

  /** The actions planned for one group: none for a single file, else copies from the newest. */
  function GroupPlan(k: Key, g: Group): seq<Action> {
    if |g| <= 1 then [] else var s := g[NewestIndex(g)]; CopiesFrom(k, s, Without(g, s))
  }

  /** What `plan_actions` returns: the groups' plans in index order. */
  function Plan(index: FileIndex): seq<Action> {
    if index == [] then []
    else Plan(index[..|index| - 1]) + GroupPlan(index[|index| - 1].0, index[|index| - 1].1)
  }

  // ---------------------------------------------------------------- execute_actions

  /** A UTC time rendered with `%Y%m%dT%H%M%SZ`. */
  predicate IsStamp(s: string) {
    && |s| == 16 && s[8] == 'T' && s[15] == 'Z'
    && forall i :: 0 <= i < 16 && i != 8 && i != 15 ==> IsDigit(s[i])
  }

  type Stamp = s: string | IsStamp(s) witness "20250101T000000Z"

  /** `Path(str(destination_path) + f"_{timestamp}.bak")`: a sibling named after the destination. */
  function BackupPath(d: Path, stamp: Stamp): (b: Path)
    ensures Parent(b) == Parent(d) && |b| == |Parent(d)| + 1
    ensures Name(b) == Name(d) + "_" + stamp + ".bak"
  {
    var name := Name(d) + "_" + stamp + ".bak";
    assert '/' !in name by {
      assert forall i :: 0 <= i < |stamp| ==> stamp[i] != '/';
      assert '/' !in Name(d);
    }
    Parent(d) + [name]
  }

  /** `destination_path.parent / f".tmp_{destination_path.name}"`. */
  function TempPath(d: Path): (t: Path)
    ensures Parent(t) == Parent(d) && |t| == |Parent(d)| + 1
    ensures Name(t) == ".tmp_" + Name(d)
  {
    Parent(d) + [".tmp_" + Name(d)]
  }

  /** How the `try` block of one copy ends: the file system it leaves, and the exception if one was raised. */
  datatype Outcome = Copied(fs: Fs) | Failed(fs: Fs, reason: string)

  /**
   * The `try` block for one copy: move an existing destination to its backup
   * when backups are timestamped, create the destination's directory, copy
   * the source to the temp path, then replace the destination with it. The
   * first step that fails ends the block, keeping what earlier steps did.
   */
  function CopyOutcome(fs: Fs, a: Action, stamp: Stamp, timestamped: bool): Outcome {
    match BackedUp(fs, a.destinationPath, stamp, timestamped)
    case Failure(e) => Failed(fs, e)
    case Success(fs1) => Install(fs1, a.sourcePath, a.destinationPath)
  }

  /** The backup step: the destination moves to its backup name when backups are timestamped and it exists. */
  function BackedUp(fs: Fs, d: Path, stamp: Stamp, timestamped: bool): Result<Fs, string> {
    if timestamped && Exists(fs, d) then Rename(fs, d, BackupPath(d, stamp)) else Success(fs)
  }

  /** The rest of the block: create the directory, copy to the temp path, replace the destination. */
  function Install(fs1: Fs, s: Path, d: Path): Outcome {
    match MakeDirs(fs1, Parent(d))
    case Failure(e) => Failed(fs1, e)
    case Success(fs2) =>
      match Copy2(fs2, s, TempPath(d))
      case Failure(e) => Failed(fs2, e)
      case Success(fs3) =>
        match Rename(fs3, TempPath(d), d)
        case Failure(e) => Failed(fs3, e)
        case Success(fs4) => Copied(fs4)
  }

  function CopiedEvent(a: Action): ProgressEvent {
    Event(Copy, "", KeyText(a.relativePath), "Copied: " + PathText(a.sourcePath) + " -> " + PathText(a.destinationPath))
  }

  function SkipEvent(a: Action): ProgressEvent {
    Event(Skip, "", KeyText(a.relativePath), "Dry run, skipping copy")
  }

  function CopyErrorEvent(a: Action, reason: string): ProgressEvent {
    Event(Error, "", KeyText(a.relativePath), "Error copying file: " + reason)
  }

  const CompleteEvent: ProgressEvent := Event(Complete, "", "", "Sync complete")

  /** One action: a non-copy action does nothing, a dry run only reports the skip. */
  function ActionStep(fs: Fs, a: Action, stamp: Stamp, cfg: Dict): (Fs, seq<ProgressEvent>) {
    if a.kind != "copy" then (fs, [])
    else if DryRun(cfg) then (fs, [SkipEvent(a)])
    else
      match CopyOutcome(fs, a, stamp, Timestamped(cfg))
      case Copied(fs') => (fs', [CopiedEvent(a)])
      case Failed(fs', e) => (fs', [CopyErrorEvent(a, e)])
  }

  /** The file system and the events after the actions, the i-th reading `clock(i)` for its backup name. */
  function ExecRun(fs: Fs, actions: seq<Action>, clock: nat -> Stamp, cfg: Dict): (Fs, seq<ProgressEvent>) {
    if actions == [] then (fs, [])
    else
      var n := |actions| - 1;
      var run := ExecRun(fs, actions[..n], clock, cfg);
      var step := ActionStep(run.0, actions[n], clock(n), cfg);
      (step.0, run.1 + step.1)
  }

  lemma FolderHitsStep(fs: Fs, folder: Path, rels: seq<Path>, j: nat, patterns: seq<string>, resolve: Resolver)
    requires j < |rels|
    ensures FolderHits(fs, folder, rels[..j + 1], patterns, resolve)
      == FolderHits(fs, folder, rels[..j], patterns, resolve) + OptionSeq(ItemHit(fs, folder, rels[j], patterns, resolve))
  {
    assert rels[..j + 1][..j] == rels[..j];
  }

  lemma HitEventsAppend(hits: seq<Hit>, more: seq<Hit>)
    ensures HitEvents(hits + more) == HitEvents(hits) + HitEvents(more)
  {
  }

  lemma ScanStep(fs: Fs, folders: seq<Path>, i: nat, listing: Listing, patterns: seq<string>, resolve: Resolver)
    requires i < |folders|
    ensures var f := folders[i];
      && ScanHits(fs, folders[..i + 1], listing, patterns, resolve) == ScanHits(fs, folders[..i], listing, patterns, resolve)
        + FolderScan(fs, f, listing, patterns, resolve)
      && ScanEvents(fs, folders[..i + 1], listing, patterns, resolve) == ScanEvents(fs, folders[..i], listing, patterns, resolve)
        + FolderEvents(fs, f, listing, patterns, resolve)
  {
    assert folders[..i + 1][..i] == folders[..i];
  }

  lemma BuildIndexAppend(hits: seq<Hit>, h: Hit)
    ensures BuildIndex(hits + [h]) == AddRecord(BuildIndex(hits), h.key, h.record)
  {
    assert (hits + [h])[..|hits|] == hits;
  }

  lemma ExecRunStep(fs: Fs, actions: seq<Action>, i: nat, clock: nat -> Stamp, cfg: Dict)
    requires i < |actions|
    ensures var run := ExecRun(fs, actions[..i], clock, cfg);
      var step := ActionStep(run.0, actions[i], clock(i), cfg);
      ExecRun(fs, actions[..i + 1], clock, cfg) == (step.0, run.1 + step.1)
  {
    assert actions[..i + 1][..i] == actions[..i];
  }

  lemma AppendAssoc<T>(a: seq<T>, b: seq<T>, c: seq<T>)
    ensures (a + b) + c == a + (b + c)
  {
  }

  class SyncEngine {
    var config: Dict
    /** The events put on the queue so far. */
    var events: seq<ProgressEvent>

    constructor(config: Dict, queued: seq<ProgressEvent>)
      ensures this.config == config && events == queued
    {
      this.config := config;
      events := queued;
    }

    /** `_emit_event`: builds the event (folder, file path and message default to "") and queues it. */
    method EmitEvent(t: EventType, folder: string, filePath: string, message: string)
      modifies this`events
      ensures events == old(events) + [Event(t, folder, filePath, message)]
    {
      events := events + [ProgressEvent(t, folder, filePath, message, None)];
    }

    /** `plan_actions`. */
    method PlanActions(index: FileIndex) returns (actions: seq<Action>)
      ensures actions == Plan(index)
    {
      actions := [];
      var i := 0;
      while i < |index|
        invariant 0 <= i <= |index|
        invariant actions == Plan(index[..i])
      {
        assert index[..i + 1][..i] == index[..i];
        var (key, group) := index[i];
        var copies := PlanGroup(key, group);
        actions := actions + copies;
        i := i + 1;
      }
      assert index[..i] == index;
    }

    /** The body of `plan_actions`' outer loop for one group. */
    method PlanGroup(key: Key, group: Group) returns (copies: seq<Action>)
      ensures copies == GroupPlan(key, group)
    {
      copies := [];
      if |group| > 1 {
        var source := group[NewestIndex(group)];
        var destinations := Without(group, source);
        var j := 0;
        while j < |destinations|
          invariant 0 <= j <= |destinations|
          invariant copies == CopiesFrom(key, source, destinations[..j])
        {
          assert destinations[..j + 1][..j] == destinations[..j];
          var dest := destinations[j];
          if source.mtime > dest.mtime {
            copies := copies + [CopyAction(key, source, dest)];
          }
          j := j + 1;
        }
        assert destinations[..j] == destinations;
      }
    }

    /** The `try` block of `execute_actions` for one copy action. */
    method TryCopy(fs: Fs, action: Action, stamp: Stamp, timestamped: bool) returns (outcome: Outcome)
      ensures outcome == CopyOutcome(fs, action, stamp, timestamped)
    {
      var d := action.destinationPath;
      var current := fs;
      if timestamped && Exists(current, d) {
        var renamed := Rename(current, d, BackupPath(d, stamp));
        if renamed.Failure? {
          return Failed(current, renamed.error);
        }
        current := renamed.value;
      }
      var made := MakeDirs(current, Parent(d));
      if made.Failure? {
        return Failed(current, made.error);
      }
      current := made.value;
      var copied := Copy2(current, action.sourcePath, TempPath(d));
      if copied.Failure? {
        return Failed(current, copied.error);
      }
      current := copied.value;
      var replaced := Rename(current, TempPath(d), d);
      if replaced.Failure? {
        return Failed(current, replaced.error);
      }
      return Copied(replaced.value);
    }

    /** `execute_actions`: the file system is passed in and the changed one returned. */
    method ExecuteActions(actions: seq<Action>, fs: Fs, clock: nat -> Stamp) returns (result: Fs)
      modifies this`events
      ensures result == ExecRun(fs, actions, clock, config).0
      ensures events == old(events) + ExecRun(fs, actions, clock, config).1 + [CompleteEvent]
    {
      var dryRun := DryRun(config);
      var timestamped := Timestamped(config);
      ghost var start := events;
      result := fs;
      assert start + [] == start;
      var i := 0;
      while i < |actions|
        invariant 0 <= i <= |actions|
        invariant result == ExecRun(fs, actions[..i], clock, config).0
        invariant events == start + ExecRun(fs, actions[..i], clock, config).1
      {
        ghost var run := ExecRun(fs, actions[..i], clock, config);
        ghost var step := ActionStep(result, actions[i], clock(i), config);
        ExecRunStep(fs, actions, i, clock, config);
        result := RunAction(actions[i], result, clock(i), dryRun, timestamped);
        AppendAssoc(start, run.1, step.1);
        i := i + 1;
      }
      assert actions[..i] == actions;
      EmitEvent(Complete, "", "", "Sync complete");
    }

    /** The body of the loop of `execute_actions` for one action. */
    method RunAction(action: Action, fs: Fs, stamp: Stamp, dryRun: bool, timestamped: bool) returns (result: Fs)
      requires dryRun == DryRun(config) && timestamped == Timestamped(config)
      modifies this`events
      ensures result == ActionStep(fs, action, stamp, config).0
      ensures events == old(events) + ActionStep(fs, action, stamp, config).1
    {
      result := fs;
      if action.kind == "copy" {
        if dryRun {
          EmitEvent(Skip, "", KeyText(action.relativePath), "Dry run, skipping copy");
        } else {
          var outcome := TryCopy(fs, action, stamp, timestamped);
          result := outcome.fs;
          if outcome.Copied? {
            EmitEvent(Copy, "", KeyText(action.relativePath), "Copied: " + PathText(action.sourcePath) + " -> " + PathText(action.destinationPath));
          } else {
            EmitEvent(Error, "", KeyText(action.relativePath), "Error copying file: " + outcome.reason);
          }
        }
      }
    }

    /** The inner loop of `scan_folders`: the walk below `<folder>/.roo`, adding to the index. */
    method ScanRooTree(folder: Path, rels: seq<Path>, fs: Fs, patterns: seq<string>, resolve: Resolver,
                       ghost hits0: seq<Hit>, index0: FileIndex) returns (index: FileIndex)
      requires index0 == BuildIndex(hits0)
      modifies this`events
      ensures index == BuildIndex(hits0 + FolderHits(fs, folder, rels, patterns, resolve))
      ensures events == old(events) + HitEvents(FolderHits(fs, folder, rels, patterns, resolve))
    {
      index := index0;
      ghost var hits := hits0;
      ghost var start := events;
      assert rels[..0] == [];
      assert hits0 + [] == hits0;
      assert start + [] == start;
      var j := 0;
      while j < |rels|
        invariant 0 <= j <= |rels|
        invariant hits == hits0 + FolderHits(fs, folder, rels[..j], patterns, resolve)
        invariant index == BuildIndex(hits)
        invariant events == start + HitEvents(FolderHits(fs, folder, rels[..j], patterns, resolve))
      {
        ghost var done := FolderHits(fs, folder, rels[..j], patterns, resolve);
        ghost var found := OptionSeq(ItemHit(fs, folder, rels[j], patterns, resolve));
        FolderHitsStep(fs, folder, rels, j, patterns, resolve);
        index := ScanItem(folder, rels[j], fs, patterns, resolve, hits, index);
        AppendAssoc(hits0, done, found);
        AppendAssoc(start, HitEvents(done), HitEvents(found));
        HitEventsAppend(done, found);
        hits := hits + found;
        j := j + 1;
      }
      assert rels[..j] == rels;
    }

    /** One item of the walk: the ignore test, `is_file()`, `stat()`, the key, the event and the record. */
    method ScanItem(folder: Path, rel: Path, fs: Fs, patterns: seq<string>, resolve: Resolver,
                    ghost hits: seq<Hit>, index0: FileIndex) returns (index: FileIndex)
      requires index0 == BuildIndex(hits)
      modifies this`events
      ensures index == BuildIndex(hits + OptionSeq(ItemHit(fs, folder, rel, patterns, resolve)))
      ensures events == old(events) + HitEvents(OptionSeq(ItemHit(fs, folder, rel, patterns, resolve)))
    {
      index := index0;
      var found := ItemHit(fs, folder, rel, patterns, resolve);
      if found.Some? {
        var hit := found.value;
        EmitEvent(ScanFile, PathText(folder), KeyText(hit.key), "Scanning: " + KeyText(hit.key));
        index := AddRecord(index, hit.key, hit.record);
        BuildIndexAppend(hits, hit);
        assert HitEvents([hit]) == [HitEvent(hit)];
      } else {
        assert hits + [] == hits;
      }
    }

    /** `scan_folders`, with `listing` the `rglob("*")` walk of each scan root. */
    method ScanFolders(folders: seq<Path>, fs: Fs, listing: Listing, resolve: Resolver) returns (index: FileIndex)
      requires IgnoreIterable(config)
      requires forall f :: f in folders ==> WalksTree(fs, listing, ScanRoot(f))
      modifies this`events
      ensures index == BuildIndex(ScanHits(fs, folders, listing, IgnorePatterns(config), resolve))
      ensures events == old(events) + [StartEvent] + ScanEvents(fs, folders, listing, IgnorePatterns(config), resolve)
    {
      EmitEvent(ScanStart, "", "", "Starting folder scan");
      ghost var start := events;
      var patterns := IgnorePatterns(config);
      index := [];
      ghost var hits: seq<Hit> := [];
      assert start + [] == start;
      var i := 0;
      while i < |folders|
        invariant 0 <= i <= |folders|
        invariant hits == ScanHits(fs, folders[..i], listing, patterns, resolve)
        invariant index == BuildIndex(hits)
        invariant events == start + ScanEvents(fs, folders[..i], listing, patterns, resolve)
      {
        ScanStep(fs, folders, i, listing, patterns, resolve);
        ghost var done := ScanEvents(fs, folders[..i], listing, patterns, resolve);
        index := ScanFolder(folders[i], fs, listing, patterns, resolve, hits, index);
        AppendAssoc(start, done, FolderEvents(fs, folders[i], listing, patterns, resolve));
        hits := hits + FolderScan(fs, folders[i], listing, patterns, resolve);
        i := i + 1;
      }
      assert folders[..i] == folders;
    }

    /** One pass of the folder loop of `scan_folders`: the `.roo` check, then the walk. */
    method ScanFolder(folder: Path, fs: Fs, listing: Listing, patterns: seq<string>, resolve: Resolver,
                      ghost hits: seq<Hit>, index0: FileIndex) returns (index: FileIndex)
      requires index0 == BuildIndex(hits)
      modifies this`events
      ensures index == BuildIndex(hits + FolderScan(fs, folder, listing, patterns, resolve))
      ensures events == old(events) + FolderEvents(fs, folder, listing, patterns, resolve)
    {
      index := index0;
      if !HasRoo(fs, folder, resolve) {
        EmitEvent(Error, PathText(folder), "", "Folder does not contain .roo directory: " + PathText(folder));
        assert hits + [] == hits;
      } else {
        var scanRoot := folder + [RooDirName];
        index := ScanRooTree(folder, listing(scanRoot), fs, patterns, resolve, hits, index);
      }
    }
  }

  // ---------------------------------------------------------------- what the scan records

  /**
   * A recorded file: a regular file (after links) below `<folder>/.roo` of a
   * listed folder that has a `.roo` directory, not ignored, with the mtime and
   * size `stat` reports.
   */
  predicate SoundHit(fs: Fs, folders: seq<Path>, patterns: seq<string>, resolve: Resolver, h: Hit) {
    var r := h.record;
    && r.baseFolder in folders
    && HasRoo(fs, r.baseFolder, resolve)
    && IsPrefix(ScanRoot(r.baseFolder), r.path)
    && !Ignored(r.path[|ScanRoot(r.baseFolder)|..], patterns)
    && IsFile(fs, r.path)
    && Stat(fs, r.path).value.mtime == r.mtime
    && |Stat(fs, r.path).value.data| == r.size
  }

  lemma {:induction false} FolderHitsSound(fs: Fs, folder: Path, rels: seq<Path>, patterns: seq<string>, resolve: Resolver)
    ensures forall h :: h in FolderHits(fs, folder, rels, patterns, resolve) ==>
      && h.record.baseFolder == folder
      && IsPrefix(ScanRoot(folder), h.record.path)
      && !Ignored(h.record.path[|ScanRoot(folder)|..], patterns)
      && IsFile(fs, h.record.path)
      && Stat(fs, h.record.path).value.mtime == h.record.mtime
      && |Stat(fs, h.record.path).value.data| == h.record.size
  {
    if rels != [] {
      FolderHitsSound(fs, folder, rels[..|rels| - 1], patterns, resolve);
      var rel := rels[|rels| - 1];
      assert (ScanRoot(folder) + rel)[|ScanRoot(folder)|..] == rel;
      assert (ScanRoot(folder) + rel)[..|ScanRoot(folder)|] == ScanRoot(folder);
    }
  }

  /** Everything the scan records is a file it was asked to record. */
  lemma {:induction false} ScanHitsSound(fs: Fs, folders: seq<Path>, listing: Listing, patterns: seq<string>, resolve: Resolver)
    ensures forall h :: h in ScanHits(fs, folders, listing, patterns, resolve) ==> SoundHit(fs, folders, patterns, resolve, h)
  {
    if folders != [] {
      var pre, f := folders[..|folders| - 1], folders[|folders| - 1];
      ScanHitsSound(fs, pre, listing, patterns, resolve);
      FolderHitsSound(fs, f, listing(ScanRoot(f)), patterns, resolve);
      assert forall g :: g in pre ==> g in folders;
    }
  }

  lemma {:induction false} ScanHitsSplit(fs: Fs, a: seq<Path>, b: seq<Path>, listing: Listing, patterns: seq<string>, resolve: Resolver)
    ensures ScanHits(fs, a + b, listing, patterns, resolve) == ScanHits(fs, a, listing, patterns, resolve) + ScanHits(fs, b, listing, patterns, resolve)
  {
    if b == [] {
      assert a + b == a;
    } else {
      var b', f := b[..|b| - 1], b[|b| - 1];
      assert (a + b)[..|a + b| - 1] == a + b';
      assert (a + b)[|a + b| - 1] == f;
      ScanHitsSplit(fs, a, b', listing, patterns, resolve);
      AppendAssoc(ScanHits(fs, a, listing, patterns, resolve), ScanHits(fs, b', listing, patterns, resolve), FolderScan(fs, f, listing, patterns, resolve));
    }
  }

  lemma {:induction false} ScanEventsSplit(fs: Fs, a: seq<Path>, b: seq<Path>, listing: Listing, patterns: seq<string>, resolve: Resolver)
    ensures ScanEvents(fs, a + b, listing, patterns, resolve) == ScanEvents(fs, a, listing, patterns, resolve) + ScanEvents(fs, b, listing, patterns, resolve)
  {
    if b == [] {
      assert a + b == a;
    } else {
      var b', f := b[..|b| - 1], b[|b| - 1];
      assert (a + b)[..|a + b| - 1] == a + b';
      assert (a + b)[|a + b| - 1] == f;
      ScanEventsSplit(fs, a, b', listing, patterns, resolve);
      AppendAssoc(ScanEvents(fs, a, listing, patterns, resolve), ScanEvents(fs, b', listing, patterns, resolve), FolderEvents(fs, f, listing, patterns, resolve));
    }
  }

  lemma {:induction false} FolderHitsComplete(fs: Fs, folder: Path, rels: seq<Path>, patterns: seq<string>, resolve: Resolver, rel: Path)
    requires rel in rels && !Ignored(rel, patterns) && IsFile(fs, ScanRoot(folder) + rel)
    ensures ItemHit(fs, folder, rel, patterns, resolve).value in FolderHits(fs, folder, rels, patterns, resolve)
  {
    if rels[|rels| - 1] != rel {
      assert rel in rels[..|rels| - 1];
      FolderHitsComplete(fs, folder, rels[..|rels| - 1], patterns, resolve, rel);
    }
  }

  /** Every file the walk of a folder with `.roo` lists, and no pattern ignores, is recorded. */
  lemma ScanFindsListedFiles(fs: Fs, folders: seq<Path>, listing: Listing, patterns: seq<string>, resolve: Resolver, i: nat, rel: Path)
    requires i < |folders| && HasRoo(fs, folders[i], resolve)
    requires rel in listing(ScanRoot(folders[i])) && !Ignored(rel, patterns) && IsFile(fs, ScanRoot(folders[i]) + rel)
    ensures exists h :: (h in ScanHits(fs, folders, listing, patterns, resolve)
                         && h.record.path == ScanRoot(folders[i]) + rel && h.record.baseFolder == folders[i])
  {
    var f := folders[i];
    FolderHitsComplete(fs, f, listing(ScanRoot(f)), patterns, resolve, rel);
    var h := ItemHit(fs, f, rel, patterns, resolve).value;
    assert h in FolderScan(fs, f, listing, patterns, resolve);
    FolderScanInScan(fs, folders, listing, patterns, resolve, i, h);
    assert h.record.path == ScanRoot(f) + rel && h.record.baseFolder == f;
  }

  lemma {:induction false} FolderScanInScan(fs: Fs, folders: seq<Path>, listing: Listing, patterns: seq<string>, resolve: Resolver, i: nat, h: Hit)
    requires i < |folders| && h in FolderScan(fs, folders[i], listing, patterns, resolve)
    ensures h in ScanHits(fs, folders, listing, patterns, resolve)
  {
    var init := folders[..|folders| - 1];
    if i < |folders| - 1 {
      assert init[i] == folders[i];
      FolderScanInScan(fs, init, listing, patterns, resolve, i, h);
    }
  }

  /** A folder without `.roo` adds nothing to the index and only its own `ERROR` event. */
  lemma FolderWithoutRooOnlyReports(fs: Fs, a: seq<Path>, bad: Path, b: seq<Path>, listing: Listing, patterns: seq<string>, resolve: Resolver)
    requires !HasRoo(fs, bad, resolve)
    ensures ScanHits(fs, a + [bad] + b, listing, patterns, resolve) == ScanHits(fs, a + b, listing, patterns, resolve)
    ensures ScanEvents(fs, a + [bad] + b, listing, patterns, resolve)
      == ScanEvents(fs, a, listing, patterns, resolve) + [MissingRooEvent(bad)] + ScanEvents(fs, b, listing, patterns, resolve)
  {
    var single: seq<Path> := [bad];
    assert single[..0] == [];
    assert ScanHits(fs, single, listing, patterns, resolve) == [];
    assert ScanEvents(fs, single, listing, patterns, resolve) == [MissingRooEvent(bad)];
    ScanHitsSplit(fs, a + single, b, listing, patterns, resolve);
    ScanHitsSplit(fs, a, single, listing, patterns, resolve);
    ScanHitsSplit(fs, a, b, listing, patterns, resolve);
    assert ScanHits(fs, a, listing, patterns, resolve) + [] == ScanHits(fs, a, listing, patterns, resolve);
    ScanEventsSplit(fs, a + single, b, listing, patterns, resolve);
    ScanEventsSplit(fs, a, single, listing, patterns, resolve);
  }

  /**
   * When the folder and the file resolve to themselves, the key is the file's
   * path below `.roo`, its parts joined with `/`.
   */
  lemma HitKeyIsRelativePath(fs: Fs, folder: Path, rel: Path, patterns: seq<string>, resolve: Resolver)
    requires ItemHit(fs, folder, rel, patterns, resolve).Some? && HasRoo(fs, folder, resolve)
    requires Canonical(folder, resolve) && Canonical(ScanRoot(folder) + rel, resolve)
    requires rel != []
    ensures ItemHit(fs, folder, rel, patterns, resolve).value.key == Some(Join(rel, "/"))
  {
    var item := ScanRoot(folder) + rel;
    PathObjectNormalizes(item, resolve);
    PathObjectNormalizes(folder, resolve);
    assert NormalizePath(PathObj(PathText(folder)), resolve).value == folder;
    assert NormalizePath(PathObj(PathText(item)), resolve).value == item;
    assert item[..|ScanRoot(folder)|] == ScanRoot(folder);
    assert item[|ScanRoot(folder)|..] == rel;
  }

  /** An entry that resolves outside the resolved folder's `.roo` is filed under `None`. */
  lemma KeyNoneOutsideRoo(fs: Fs, item: Path, folder: Path, resolve: Resolver)
    requires !IsPrefix(ScanRoot(NormalizePath(PathObj(PathText(folder)), resolve).value), NormalizePath(PathObj(PathText(item)), resolve).value)
    ensures RelativeKey(fs, item, folder, resolve) == None
  {
    PathObjectNormalizes(item, resolve);
    PathObjectNormalizes(folder, resolve);
  }

  // ---------------------------------------------------------------- the walk and the keys

  /**
   * `rglob("*")` below `root` as it behaves on a tree: every entry strictly
   * below `root`, each exactly once.
   */
  predicate WalksTree(fs: Fs, listing: Listing, root: Path) {
    && (forall i, j :: 0 <= i < j < |listing(root)| ==> listing(root)[i] != listing(root)[j])
    && (forall rel :: rel in listing(root) ==> rel != [] && root + rel in fs)
    && (forall p :: p in fs && IsPrefix(root, p) && |p| > |root| ==> p[|root|..] in listing(root))
  }

  /** Every file strictly below a scanned `.roo` that no pattern ignores is recorded, with its folder. */
  lemma ScanFindsEveryFile(fs: Fs, folders: seq<Path>, listing: Listing, patterns: seq<string>, resolve: Resolver, i: nat, q: Path)
    requires i < |folders| && HasRoo(fs, folders[i], resolve) && WalksTree(fs, listing, ScanRoot(folders[i]))
    requires IsPrefix(ScanRoot(folders[i]), q) && |q| > |ScanRoot(folders[i])|
    requires IsFile(fs, q) && !Ignored(q[|ScanRoot(folders[i])|..], patterns)
    ensures exists h :: (h in ScanHits(fs, folders, listing, patterns, resolve)
                         && h.record.path == q && h.record.baseFolder == folders[i])
  {
    var root := ScanRoot(folders[i]);
    var rel := q[|root|..];
    assert root + rel == q;
    assert q in fs;
    ScanFindsListedFiles(fs, folders, listing, patterns, resolve, i, rel);
  }

  /** Each hit of a walk is the hit of one walked entry. */
  lemma {:induction false} FolderHitsFrom(fs: Fs, folder: Path, rels: seq<Path>, patterns: seq<string>, resolve: Resolver)
    ensures forall h :: h in FolderHits(fs, folder, rels, patterns, resolve) ==>
      && IsPrefix(ScanRoot(folder), h.record.path)
      && h.record.path[|ScanRoot(folder)|..] in rels
      && ItemHit(fs, folder, h.record.path[|ScanRoot(folder)|..], patterns, resolve) == Some(h)
  {
    if rels != [] {
      var pre, rel := rels[..|rels| - 1], rels[|rels| - 1];
      FolderHitsFrom(fs, folder, pre, patterns, resolve);
      assert (ScanRoot(folder) + rel)[|ScanRoot(folder)|..] == rel;
      assert (ScanRoot(folder) + rel)[..|ScanRoot(folder)|] == ScanRoot(folder);
      assert forall r :: r in pre ==> r in rels;
    }
  }

  /** No two hits record the same path. */
  predicate PathsDistinct(hits: seq<Hit>) {
    forall i, j :: 0 <= i < j < |hits| ==> hits[i].record.path != hits[j].record.path
  }

  /** A walk that lists each entry once records each path once. */
  lemma {:induction false} FolderHitsDistinctPaths(fs: Fs, folder: Path, rels: seq<Path>, patterns: seq<string>, resolve: Resolver)
    requires forall i, j :: 0 <= i < j < |rels| ==> rels[i] != rels[j]
    ensures PathsDistinct(FolderHits(fs, folder, rels, patterns, resolve))
  {
    if rels != [] {
      var pre, rel := rels[..|rels| - 1], rels[|rels| - 1];
      FolderHitsDistinctPaths(fs, folder, pre, patterns, resolve);
      FolderHitsFrom(fs, folder, pre, patterns, resolve);
      var before := FolderHits(fs, folder, pre, patterns, resolve);
      var item := ItemHit(fs, folder, rel, patterns, resolve);
      if item.Some? {
        var root := ScanRoot(folder);
        assert item.value.record.path[|root|..] == rel;
        assert rel !in pre;
        forall h | h in before
          ensures h.record.path != item.value.record.path
        {
        }
        PathsDistinctSnoc(before, item.value);
      } else {
        assert before + [] == before;
      }
    }
  }

  lemma PathsDistinctSnoc(hits: seq<Hit>, h: Hit)
    requires PathsDistinct(hits)
    requires forall g :: g in hits ==> g.record.path != h.record.path
    ensures PathsDistinct(hits + [h])
  {
    var all := hits + [h];
    forall i, j | 0 <= i < j < |all|
      ensures all[i].record.path != all[j].record.path
    {
      assert all[i] == hits[i];
      if j < |hits| {
        assert all[j] == hits[j];
      } else {
        assert hits[i] in hits;
      }
    }
  }

  // ---------------------------------------------------------------- keys within one folder

  /**
   * The key the index evidently means for an entry: its parts below `.roo`
   * joined with `/`, the same text `relative_parts` gives, whatever links the
   * entry resolves through.
   */
  function IntendedItemHit(fs: Fs, folder: Path, rel: Path, patterns: seq<string>, resolve: Resolver): (r: Option<Hit>)
    ensures r.Some? <==> ItemHit(fs, folder, rel, patterns, resolve).Some?
    ensures r.Some? ==> r.value.record == ItemHit(fs, folder, rel, patterns, resolve).value.record
    ensures r.Some? ==> r.value.key == Some(Join(rel, "/"))
  {
    match ItemHit(fs, folder, rel, patterns, resolve)
    case None => None
    case Some(h) => Some(Hit(Some(Join(rel, "/")), h.record))
  }

  /** `FolderHits` with the intended key. */
  function IntendedFolderHits(fs: Fs, folder: Path, rels: seq<Path>, patterns: seq<string>, resolve: Resolver): seq<Hit> {
    if rels == [] then []
    else IntendedFolderHits(fs, folder, rels[..|rels| - 1], patterns, resolve) + OptionSeq(IntendedItemHit(fs, folder, rels[|rels| - 1], patterns, resolve))
  }

  /** No two hits share a key. */
  predicate KeysUnique(hits: seq<Hit>) {
    forall i, j :: 0 <= i < j < |hits| ==> hits[i].key != hits[j].key
  }

  lemma JoinInjective(a: Path, b: Path)
    requires a != [] && b != [] && Join(a, "/") == Join(b, "/")
    ensures a == b
  {
    SplitJoinedSegments(a);
    SplitJoinedSegments(b);
  }

  /** Each intended hit carries the key of the walked entry it records. */
  lemma {:induction false} IntendedKeysFrom(fs: Fs, folder: Path, rels: seq<Path>, patterns: seq<string>, resolve: Resolver)
    ensures forall h :: h in IntendedFolderHits(fs, folder, rels, patterns, resolve) ==>
      && IsPrefix(ScanRoot(folder), h.record.path)
      && h.record.path[|ScanRoot(folder)|..] in rels
      && h.key == Some(Join(h.record.path[|ScanRoot(folder)|..], "/"))
  {
    if rels != [] {
      var pre, rel := rels[..|rels| - 1], rels[|rels| - 1];
      IntendedKeysFrom(fs, folder, pre, patterns, resolve);
      assert (ScanRoot(folder) + rel)[|ScanRoot(folder)|..] == rel;
      assert (ScanRoot(folder) + rel)[..|ScanRoot(folder)|] == ScanRoot(folder);
      assert forall r :: r in pre ==> r in rels;
    }
  }

  /** With the intended key, a walk that lists each non-empty entry once gives each key once. */
  lemma {:induction false} IntendedKeysUnique(fs: Fs, folder: Path, rels: seq<Path>, patterns: seq<string>, resolve: Resolver)
    requires forall i, j :: 0 <= i < j < |rels| ==> rels[i] != rels[j]
    requires forall rel :: rel in rels ==> rel != []
    ensures KeysUnique(IntendedFolderHits(fs, folder, rels, patterns, resolve))
  {
    if rels != [] {
      var pre, rel := rels[..|rels| - 1], rels[|rels| - 1];
      assert forall r :: r in pre ==> r in rels;
      IntendedKeysUnique(fs, folder, pre, patterns, resolve);
      IntendedKeysFrom(fs, folder, pre, patterns, resolve);
      var before := IntendedFolderHits(fs, folder, pre, patterns, resolve);
      var item := IntendedItemHit(fs, folder, rel, patterns, resolve);
      if item.Some? {
        assert rel !in pre;
        forall h | h in before
          ensures h.key != item.value.key
        {
          var r := h.record.path[|ScanRoot(folder)|..];
          if h.key == item.value.key {
            JoinInjective(r, rel);
          }
        }
        KeysUniqueSnoc(before, item.value);
      } else {
        assert before + [] == before;
      }
    }
  }

  lemma KeysUniqueSnoc(hits: seq<Hit>, h: Hit)
    requires KeysUnique(hits)
    requires forall g :: g in hits ==> g.key != h.key
    ensures KeysUnique(hits + [h])
  {
    var all := hits + [h];
    forall i, j | 0 <= i < j < |all|
      ensures all[i].key != all[j].key
    {
      assert all[i] == hits[i];
      if j < |hits| {
        assert all[j] == hits[j];
      } else {
        assert hits[i] in hits;
      }
    }
  }

  /** When the folder and every walked entry resolve to themselves, the source's key is the intended one. */
  lemma {:induction false} FolderHitsAsIntended(fs: Fs, folder: Path, rels: seq<Path>, patterns: seq<string>, resolve: Resolver)
    requires HasRoo(fs, folder, resolve) && Canonical(folder, resolve)
    requires forall rel :: rel in rels ==> rel != [] && Canonical(ScanRoot(folder) + rel, resolve)
    ensures FolderHits(fs, folder, rels, patterns, resolve) == IntendedFolderHits(fs, folder, rels, patterns, resolve)
  {
    if rels != [] {
      var pre, rel := rels[..|rels| - 1], rels[|rels| - 1];
      assert forall r :: r in pre ==> r in rels;
      FolderHitsAsIntended(fs, folder, pre, patterns, resolve);
      if ItemHit(fs, folder, rel, patterns, resolve).Some? {
        HitKeyIsRelativePath(fs, folder, rel, patterns, resolve);
      }
    }
  }

  /**
   * Under a walk of the tree, when the folder and every entry below its
   * `.roo` resolve to themselves, one folder's scan gives each key at most once.
   */
  lemma FolderKeysUnique(fs: Fs, folder: Path, listing: Listing, patterns: seq<string>, resolve: Resolver)
    requires WalksTree(fs, listing, ScanRoot(folder)) && Canonical(folder, resolve)
    requires forall rel :: rel in listing(ScanRoot(folder)) ==> Canonical(ScanRoot(folder) + rel, resolve)
    ensures KeysUnique(FolderScan(fs, folder, listing, patterns, resolve))
  {
    if HasRoo(fs, folder, resolve) {
      var rels := listing(ScanRoot(folder));
      FolderHitsAsIntended(fs, folder, rels, patterns, resolve);
      IntendedKeysUnique(fs, folder, rels, patterns, resolve);
    }
  }

  function FileEvents(events: seq<ProgressEvent>): seq<ProgressEvent> {
    if events == [] then []
    else FileEvents(events[..|events| - 1]) + (if events[|events| - 1].eventType == ScanFile then [events[|events| - 1]] else [])
  }

  lemma {:induction false} FileEventsSplit(a: seq<ProgressEvent>, b: seq<ProgressEvent>)
    ensures FileEvents(a + b) == FileEvents(a) + FileEvents(b)
  {
    if b == [] {
      assert a + b == a;
    } else {
      assert (a + b)[..|a + b| - 1] == a + b[..|b| - 1];
      FileEventsSplit(a, b[..|b| - 1]);
    }
  }

  lemma {:induction false} FileEventsOfHits(hits: seq<Hit>)
    ensures FileEvents(HitEvents(hits)) == HitEvents(hits)
  {
    if hits != [] {
      FileEventsOfHits(hits[..|hits| - 1]);
      FileEventsSplit(HitEvents(hits[..|hits| - 1]), [HitEvent(hits[|hits| - 1])]);
      var single: seq<ProgressEvent> := [HitEvent(hits[|hits| - 1])];
      assert single[..0] == [];
    }
  }

  lemma FolderFileEvents(fs: Fs, f: Path, listing: Listing, patterns: seq<string>, resolve: Resolver)
    ensures FileEvents(FolderEvents(fs, f, listing, patterns, resolve)) == HitEvents(FolderScan(fs, f, listing, patterns, resolve))
  {
    if HasRoo(fs, f, resolve) {
      FileEventsOfHits(FolderHits(fs, f, listing(ScanRoot(f)), patterns, resolve));
    } else {
      var single: seq<ProgressEvent> := [MissingRooEvent(f)];
      assert single[..0] == [];
    }
  }

  /** The `SCAN_FILE` events are one per recorded file, in scan order. */
  lemma {:induction false} ScanFileEventsMatchHits(fs: Fs, folders: seq<Path>, listing: Listing, patterns: seq<string>, resolve: Resolver)
    ensures FileEvents(ScanEvents(fs, folders, listing, patterns, resolve)) == HitEvents(ScanHits(fs, folders, listing, patterns, resolve))
  {
    if folders != [] {
      var pre, f := folders[..|folders| - 1], folders[|folders| - 1];
      ScanFileEventsMatchHits(fs, pre, listing, patterns, resolve);
      FileEventsSplit(ScanEvents(fs, pre, listing, patterns, resolve), FolderEvents(fs, f, listing, patterns, resolve));
      FolderFileEvents(fs, f, listing, patterns, resolve);
      HitEventsAppend(ScanHits(fs, pre, listing, patterns, resolve), FolderScan(fs, f, listing, patterns, resolve));
    }
  }

  lemma FolderErrorsReportMissingRoo(fs: Fs, f: Path, listing: Listing, patterns: seq<string>, resolve: Resolver, e: ProgressEvent)
    requires e in FolderEvents(fs, f, listing, patterns, resolve) && e.eventType != ScanFile
    ensures !HasRoo(fs, f, resolve) && e == MissingRooEvent(f)
  {
    if HasRoo(fs, f, resolve) {
      assert false;
    }
  }

  /** Every scan event other than `SCAN_FILE` reports a folder without `.roo`. */
  lemma {:induction false} ScanErrorsReportMissingRoo(fs: Fs, folders: seq<Path>, listing: Listing, patterns: seq<string>, resolve: Resolver)
    ensures forall e :: e in ScanEvents(fs, folders, listing, patterns, resolve) && e.eventType != ScanFile ==>
      exists f :: f in folders && !HasRoo(fs, f, resolve) && e == MissingRooEvent(f)
  {
    if folders != [] {
      var pre, f := folders[..|folders| - 1], folders[|folders| - 1];
      ScanErrorsReportMissingRoo(fs, pre, listing, patterns, resolve);
      var evs := ScanEvents(fs, pre, listing, patterns, resolve);
      var more := FolderEvents(fs, f, listing, patterns, resolve);
      assert ScanEvents(fs, folders, listing, patterns, resolve) == evs + more;
      forall e: ProgressEvent | e in evs + more && e.eventType != ScanFile
        ensures exists g :: g in folders && !HasRoo(fs, g, resolve) && e == MissingRooEvent(g)
      {
        if e in evs {
          var g :| g in pre && !HasRoo(fs, g, resolve) && e == MissingRooEvent(g);
          assert g in folders;
        } else {
          FolderErrorsReportMissingRoo(fs, f, listing, patterns, resolve, e);
          assert f in folders;
        }
      }
    }
  }

  // ---------------------------------------------------------------- the scanned index

  lemma {:induction false} GroupOfEntry(index: FileIndex, i: nat)
    requires KeysDistinct(index) && i < |index|
    ensures GroupOf(index, index[i].0) == index[i].1
  {
    if i > 0 {
      assert KeysDistinct(index[1..]);
      GroupOfEntry(index[1..], i - 1);
    }
  }

  lemma {:induction false} RecordsWithKeyFromHits(hits: seq<Hit>, k: Key)
    ensures forall r :: r in RecordsWithKey(hits, k) ==> Hit(k, r) in hits
  {
    if hits != [] {
      RecordsWithKeyFromHits(hits[..|hits| - 1], k);
    }
  }

  /** The record still describes the file: `stat` gives a regular file with that mtime and size. */
  predicate Current(fs: Fs, r: FileRecord) {
    IsFile(fs, r.path) && Stat(fs, r.path).value.mtime == r.mtime && |Stat(fs, r.path).value.data| == r.size
  }

  predicate IndexCurrent(fs: Fs, index: FileIndex) {
    forall i, r :: 0 <= i < |index| && r in index[i].1 ==> Current(fs, r)
  }

  /** Each group of the scanned index holds records of files the scan saw, under their own key. */
  lemma ScannedIndexIsCurrent(fs: Fs, folders: seq<Path>, listing: Listing, patterns: seq<string>, resolve: Resolver)
    ensures IndexCurrent(fs, BuildIndex(ScanHits(fs, folders, listing, patterns, resolve)))
    ensures var index := BuildIndex(ScanHits(fs, folders, listing, patterns, resolve));
      forall i, r :: 0 <= i < |index| && r in index[i].1 ==> Hit(index[i].0, r) in ScanHits(fs, folders, listing, patterns, resolve)
  {
    var hits := ScanHits(fs, folders, listing, patterns, resolve);
    var index := BuildIndex(hits);
    ScanHitsSound(fs, folders, listing, patterns, resolve);
    forall i, r | 0 <= i < |index| && r in index[i].1
      ensures Hit(index[i].0, r) in hits
    {
      GroupOfEntry(index, i);
      IndexGroupsByKey(hits, index[i].0);
      RecordsWithKeyFromHits(hits, index[i].0);
    }
  }

  // ---------------------------------------------------------------- what the plan holds

  /** The copies from `s` are one per record of `dests` that is strictly older than `s`. */
  lemma {:induction false} CopiesFromMembers(k: Key, s: FileRecord, dests: Group, a: Action)
    ensures a in CopiesFrom(k, s, dests) <==> exists d :: d in dests && d.mtime < s.mtime && a == CopyAction(k, s, d)
  {
    if dests != [] {
      var pre, last := dests[..|dests| - 1], dests[|dests| - 1];
      CopiesFromMembers(k, s, pre, a);
      assert dests == pre + [last];
      if a in CopiesFrom(k, s, dests) && a !in CopiesFrom(k, s, pre) {
        assert last in dests;
      }
    }
  }

  /** Leaving out the records equal to the source changes no copy: none of them is older than it. */
  lemma {:induction false} WithoutSourceChangesNothing(k: Key, s: FileRecord, g: Group)
    ensures CopiesFrom(k, s, Without(g, s)) == CopiesFrom(k, s, g)
  {
    if g != [] {
      var pre, last := g[..|g| - 1], g[|g| - 1];
      WithoutSourceChangesNothing(k, s, pre);
      var w := Without(g, s);
      if last != s {
        assert w[..|w| - 1] == Without(pre, s);
      } else {
        assert w == Without(pre, s);
        assert g[..|g| - 1] == pre && !(s.mtime > last.mtime);
        assert CopiesFrom(k, s, g) == CopiesFrom(k, s, pre) + [];
        assert CopiesFrom(k, s, pre) + [] == CopiesFrom(k, s, pre);
      }
    }
  }

  /** The record every copy of a group is taken from. */
  function Newest(g: Group): FileRecord
    requires g != []
  {
    g[NewestIndex(g)]
  }

  /**
   * A group's plan copies its first newest record onto each record that is
   * strictly older, and onto nothing else; a lone record plans nothing.
   */
  lemma GroupPlanMembers(k: Key, g: Group, a: Action)
    ensures a in GroupPlan(k, g) <==>
      g != [] && exists d :: d in g && d.mtime < Newest(g).mtime && a == CopyAction(k, Newest(g), d)
  {
    if |g| == 1 {
      assert GroupPlan(k, g) == [] && Newest(g) == g[0];
      assert forall d :: d in g ==> d == g[0];
    } else if |g| > 1 {
      var s := Newest(g);
      assert GroupPlan(k, g) == CopiesFrom(k, s, Without(g, s));
      WithoutSourceChangesNothing(k, s, g);
      CopiesFromMembers(k, s, g, a);
    }
  }

  lemma {:induction false} PlanGroupOf(index: FileIndex, a: Action) returns (i: nat)
    requires a in Plan(index)
    ensures i < |index| && a in GroupPlan(index[i].0, index[i].1)
  {
    var n := |index| - 1;
    var pre := index[..n];
    if a in Plan(pre) {
      i := PlanGroupOf(pre, a);
      assert pre[i] == index[i];
    } else {
      i := n;
    }
  }

  lemma PlanGrows(index: FileIndex, a: Action)
    requires index != [] && a in Plan(index[..|index| - 1])
    ensures a in Plan(index)
  {
  }

  lemma LastGroupInPlan(index: FileIndex, a: Action)
    requires index != [] && a in GroupPlan(index[|index| - 1].0, index[|index| - 1].1)
    ensures a in Plan(index)
  {
  }

  lemma {:induction false} GroupPlanInPlan(index: FileIndex, i: nat, a: Action)
    requires i < |index| && a in GroupPlan(index[i].0, index[i].1)
    ensures a in Plan(index)
  {
    var n := |index| - 1;
    if i < n {
      var pre := index[..n];
      assert pre[i] == index[i];
      GroupPlanInPlan(pre, i, a);
      PlanGrows(index, a);
    } else {
      LastGroupInPlan(index, a);
    }
  }

  /** The plan holds exactly the groups' planned copies. */
  lemma PlanMembers(index: FileIndex, a: Action)
    ensures a in Plan(index) <==> exists i :: 0 <= i < |index| && a in GroupPlan(index[i].0, index[i].1)
  {
    if a in Plan(index) {
      var i := PlanGroupOf(index, a);
    }
    if i :| 0 <= i < |index| && a in GroupPlan(index[i].0, index[i].1) {
      GroupPlanInPlan(index, i, a);
    }
  }

  /**
   * Every planned action is a copy, filed under its group's key, from the
   * group's newest record onto a strictly older one of the same group.
   */
  lemma PlanCopiesNewestOntoOlder(index: FileIndex)
    ensures forall a :: a in Plan(index) ==>
      && a.kind == "copy" && a.sourceMtime > a.destinationMtime
      && exists i ::
           && 0 <= i < |index| && a.relativePath == index[i].0 && index[i].1 != []
           && a.sourcePath == Newest(index[i].1).path && a.sourceMtime == Newest(index[i].1).mtime
           && exists d :: d in index[i].1 && a.destinationPath == d.path && a.destinationMtime == d.mtime
  {
    forall a | a in Plan(index)
      ensures a.kind == "copy" && a.sourceMtime > a.destinationMtime
      ensures exists i ::
                && 0 <= i < |index| && a.relativePath == index[i].0 && index[i].1 != []
                && a.sourcePath == Newest(index[i].1).path && a.sourceMtime == Newest(index[i].1).mtime
                && exists d :: d in index[i].1 && a.destinationPath == d.path && a.destinationMtime == d.mtime
    {
      var i := PlanGroupOf(index, a);
      var g := index[i].1;
      GroupPlanMembers(index[i].0, g, a);
      var d :| d in g && d.mtime < Newest(g).mtime && a == CopyAction(index[i].0, Newest(g), d);
    }
  }

  /** Every copy of a group has the same mtime. */
  predicate UpToDate(g: Group) {
    forall i, j :: 0 <= i < |g| && 0 <= j < |g| ==> g[i].mtime == g[j].mtime
  }

  /** A group holding two different mtimes plans a copy. */
  lemma StaleGroupPlansCopy(index: FileIndex, i: nat)
    requires i < |index| && !UpToDate(index[i].1)
    ensures Plan(index) != []
  {
    var k, g := index[i].0, index[i].1;
    var p, q :| 0 <= p < |g| && 0 <= q < |g| && g[p].mtime != g[q].mtime;
    var older := if g[p].mtime < g[q].mtime then g[p] else g[q];
    assert older in g && older.mtime < Newest(g).mtime;
    var a := CopyAction(k, Newest(g), older);
    GroupPlanMembers(k, g, a);
    GroupPlanInPlan(index, i, a);
  }

  /**
   * A planned copy comes from the group of its key, which holds two
   * different mtimes: its source is that group's newest record and its
   * destination an older record of the same group.
   */
  lemma PlannedCopyHasStaleGroup(index: FileIndex, a: Action) returns (i: nat)
    requires a in Plan(index)
    ensures i < |index| && !UpToDate(index[i].1)
    ensures index[i].0 == a.relativePath && a.sourcePath == Newest(index[i].1).path
    ensures exists d :: d in index[i].1 && d.path == a.destinationPath && d.mtime < Newest(index[i].1).mtime
  {
    i := PlanGroupOf(index, a);
    var g := index[i].1;
    GroupPlanMembers(index[i].0, g, a);
    var d :| d in g && d.mtime < Newest(g).mtime && a == CopyAction(index[i].0, Newest(g), d);
    var p :| 0 <= p < |g| && g[p] == d;
    assert g[p].mtime != g[NewestIndex(g)].mtime;
  }

  /** Nothing is planned exactly when every group is up to date. */
  lemma PlanEmptyIffUpToDate(index: FileIndex)
    ensures Plan(index) == [] <==> forall i :: 0 <= i < |index| ==> UpToDate(index[i].1)
  {
    if i :| 0 <= i < |index| && !UpToDate(index[i].1) {
      StaleGroupPlansCopy(index, i);
    }
    if Plan(index) != [] {
      var i := PlannedCopyHasStaleGroup(index, Plan(index)[0]);
    }
  }

  /**
   * When the index still describes the file system, every planned copy goes
   * from a file onto a different file, and the recorded mtimes are the
   * files' current ones.
   */
  lemma PlanMatchesFs(fs: Fs, index: FileIndex)
    requires IndexCurrent(fs, index)
    ensures forall a :: a in Plan(index) ==>
      && IsFile(fs, a.sourcePath) && Stat(fs, a.sourcePath).value.mtime == a.sourceMtime
      && IsFile(fs, a.destinationPath) && Stat(fs, a.destinationPath).value.mtime == a.destinationMtime
      && a.sourcePath != a.destinationPath
  {
    forall a | a in Plan(index)
      ensures IsFile(fs, a.sourcePath) && Stat(fs, a.sourcePath).value.mtime == a.sourceMtime
      ensures IsFile(fs, a.destinationPath) && Stat(fs, a.destinationPath).value.mtime == a.destinationMtime
      ensures a.sourcePath != a.destinationPath
    {
      var i := PlanGroupOf(index, a);
      var g := index[i].1;
      GroupPlanMembers(index[i].0, g, a);
      var d :| d in g && d.mtime < Newest(g).mtime && a == CopyAction(index[i].0, Newest(g), d);
      assert Newest(g) in g;
      assert Current(fs, Newest(g)) && Current(fs, d);
    }
  }

  // ---------------------------------------------------------------- what executing does

  /** The actions `execute_actions` acts on. */
  function CopyActions(actions: seq<Action>): (r: seq<Action>)
    ensures |r| <= |actions|
  {
    if actions == [] then []
    else CopyActions(actions[..|actions| - 1]) + (if actions[|actions| - 1].kind == "copy" then [actions[|actions| - 1]] else [])
  }

  /**
   * One event per copy action, in order, carrying its relative path: a
   * `COPY`, a `SKIP` or an `ERROR`; `execute_actions` then adds `COMPLETE`.
   */
  lemma {:induction false} ExecEventsPerCopy(fs: Fs, actions: seq<Action>, clock: nat -> Stamp, cfg: Dict)
    ensures var evs := ExecRun(fs, actions, clock, cfg).1;
      && |evs| == |CopyActions(actions)|
      && forall i :: 0 <= i < |evs| ==> Reports(evs[i], CopyActions(actions)[i])
  {
    if actions != [] {
      var n := |actions| - 1;
      ExecEventsPerCopy(fs, actions[..n], clock, cfg);
      var run := ExecRun(fs, actions[..n], clock, cfg);
      var step := ActionStep(run.0, actions[n], clock(n), cfg);
      ActionStepReports(run.0, actions[n], clock(n), cfg);
      ReportsAppend(run.1, CopyActions(actions[..n]), step.1, if actions[n].kind == "copy" then [actions[n]] else []);
    }
  }

  /** The event reports on the action: its relative path, no folder, and a per-copy event type. */
  predicate Reports(e: ProgressEvent, a: Action) {
    && e.filePath == KeyText(a.relativePath)
    && e.folder == ""
    && (e.eventType == Copy || e.eventType == Skip || e.eventType == Error)
  }

  lemma ActionStepReports(fs: Fs, a: Action, stamp: Stamp, cfg: Dict)
    ensures var evs := ActionStep(fs, a, stamp, cfg).1;
      if a.kind == "copy" then |evs| == 1 && Reports(evs[0], a) else evs == []
  {
  }

  lemma ReportsAppend(evs: seq<ProgressEvent>, acts: seq<Action>, evs': seq<ProgressEvent>, acts': seq<Action>)
    requires |evs| == |acts| && forall i :: 0 <= i < |evs| ==> Reports(evs[i], acts[i])
    requires |evs'| == |acts'| && forall i :: 0 <= i < |evs'| ==> Reports(evs'[i], acts'[i])
    ensures |evs + evs'| == |acts + acts'|
    ensures forall i :: 0 <= i < |evs + evs'| ==> Reports((evs + evs')[i], (acts + acts')[i])
  {
  }

  /** A dry run changes nothing and reports a `SKIP` for each copy action. */
  lemma {:induction false} DryRunChangesNothing(fs: Fs, actions: seq<Action>, clock: nat -> Stamp, cfg: Dict)
    requires DryRun(cfg)
    ensures ExecRun(fs, actions, clock, cfg).0 == fs
    ensures var evs := ExecRun(fs, actions, clock, cfg).1;
      |evs| == |CopyActions(actions)| && forall i :: 0 <= i < |evs| ==> evs[i] == SkipEvent(CopyActions(actions)[i])
  {
    if actions != [] {
      var n := |actions| - 1;
      DryRunChangesNothing(fs, actions[..n], clock, cfg);
    }
  }

  /**
   * A copy that completes leaves at the destination the file `stat` of the
   * source showed (the file a link leads to, for a linked source), keeps the
   * source entry, leaves no temp file, and keeps the replaced file in its
   * backup when one was taken. With timestamped backups, the source's links
   * must not pass through the destination or the backup path, which the
   * backup step moves.
   */
  lemma CopiedResult(fs: Fs, a: Action, stamp: Stamp, timestamped: bool)
    requires CopyOutcome(fs, a, stamp, timestamped).Copied?
    requires a.sourcePath != a.destinationPath
    requires timestamped ==>
      Avoids(fs, a.sourcePath, MaxSymlinkHops, {a.destinationPath, BackupPath(a.destinationPath, stamp)})
    ensures var fs', s, d, b := CopyOutcome(fs, a, stamp, timestamped).fs, a.sourcePath, a.destinationPath, BackupPath(a.destinationPath, stamp);
      && IsFile(fs, s)
      && d in fs' && fs'[d] == Stat(fs, s).value
      && s in fs' && fs'[s] == fs[s]
      && TempPath(d) !in fs'
      && (timestamped && Exists(fs, d) ==> b in fs' && fs'[b] == fs[d])
  {
    var s, d, b := a.sourcePath, a.destinationPath, BackupPath(a.destinationPath, stamp);
    var fs1 := BackedUp(fs, d, stamp, timestamped).value;
    BackedUpResult(fs, d, stamp, timestamped);
    if timestamped && Exists(fs, d) {
      forall q | q !in {d, b}
        ensures Lstat(fs1, q) == Lstat(fs, q)
      {
      }
      FollowAvoiding(fs, fs1, s, MaxSymlinkHops, {d, b});
    }
    InstalledResult(fs1, s, d);
  }

  /**
   * Besides the destination, its temp path and its backup, a completed copy
   * keeps every entry, and adds nothing but directories above the destination.
   */
  lemma CopiedKeepsTheRest(fs: Fs, a: Action, stamp: Stamp, timestamped: bool)
    requires CopyOutcome(fs, a, stamp, timestamped).Copied?
    ensures var fs', d, b := CopyOutcome(fs, a, stamp, timestamped).fs, a.destinationPath, BackupPath(a.destinationPath, stamp);
      && (forall q :: q in fs && q != d && q != TempPath(d) && q != b ==> q in fs' && fs'[q] == fs[q])
      && (forall q :: q in fs' && q !in fs ==> q == d || q == b || (fs'[q] == Dir && IsPrefix(q, Parent(d))))
  {
    var s, d := a.sourcePath, a.destinationPath;
    var fs1 := BackedUp(fs, d, stamp, timestamped).value;
    BackedUpResult(fs, d, stamp, timestamped);
    InstalledResult(fs1, s, d);
    StagesKeepTheRest(fs, fs1, Install(fs1, s, d).fs, d, BackupPath(d, stamp));
  }

  /** The two stages of a copy, composed: a backup rename and an install that keeps all but the temp file. */
  lemma StagesKeepTheRest(fs: Fs, fs1: Fs, fs': Fs, d: Path, b: Path)
    requires fs1 == fs || (d in fs && fs1 == (fs - {d})[b := fs[d]])
    requires forall q :: q in fs1 && q != d && q != TempPath(d) ==> q in fs' && fs'[q] == fs1[q]
    requires forall q :: q in fs' && q !in fs1 ==> q == d || (fs'[q] == Dir && IsPrefix(q, Parent(d)))
    ensures forall q :: q in fs && q != d && q != TempPath(d) && q != b ==> q in fs' && fs'[q] == fs[q]
    ensures forall q :: q in fs' && q !in fs ==> q == d || q == b || (fs'[q] == Dir && IsPrefix(q, Parent(d)))
  {
    forall q | q in fs && q != d && q != TempPath(d) && q != b
      ensures q in fs' && fs'[q] == fs[q]
    {
      assert q in fs1 && fs1[q] == fs[q];
    }
    forall q | q in fs' && q !in fs
      ensures q == d || q == b || (fs'[q] == Dir && IsPrefix(q, Parent(d)))
    {
      if q in fs1 {
        assert q == b;
      }
    }
  }

  /** What the backup step leaves: the destination's node under the backup name, or nothing changed. */
  lemma BackedUpResult(fs: Fs, d: Path, stamp: Stamp, timestamped: bool)
    requires BackedUp(fs, d, stamp, timestamped).Success?
    ensures var fs1, b := BackedUp(fs, d, stamp, timestamped).value, BackupPath(d, stamp);
      && b != d
      && (timestamped && Exists(fs, d) ==> d in fs && fs1 == (fs - {d})[b := fs[d]])
      && (!(timestamped && Exists(fs, d)) ==> fs1 == fs)
  {
    assert Name(BackupPath(d, stamp)) != Name(d);
  }

  /**
   * What a completed install leaves: the file `stat` of the source showed at
   * the destination, no temp file, every other entry kept, and only
   * directories above the destination added.
   */
  lemma InstalledResult(fs1: Fs, s: Path, d: Path)
    requires Install(fs1, s, d).Copied?
    ensures var fs', t := Install(fs1, s, d).fs, TempPath(d);
      && IsFile(fs1, s) && s != t
      && d in fs' && fs'[d] == Stat(fs1, s).value
      && t !in fs'
      && (forall q :: q in fs1 && q != d && q != t ==> q in fs' && fs'[q] == fs1[q])
      && (forall q :: q in fs' && q !in fs1 ==> q == d || (fs'[q] == Dir && IsPrefix(q, Parent(d))))
  {
    var t := TempPath(d);
    assert Name(t) != Name(d);
    var fs2 := MakeDirs(fs1, Parent(d)).value;
    FollowIntoNewDirs(fs1, fs2, s, MaxSymlinkHops);
    var fs3 := Copy2(fs2, s, t).value;
    assert fs3 == fs2[t := Stat(fs1, s).value];
  }

  /**
   * The copy is not atomic with a backup: once the destination has been
   * moved to its backup, a later failure leaves no entry at the destination,
   * only the backup.
   */
  lemma FailureAfterBackupLeavesOnlyBackup(fs: Fs, a: Action, stamp: Stamp)
    requires CopyOutcome(fs, a, stamp, true).Failed?
    requires Lstat(fs, a.destinationPath).Some? && Lstat(fs, a.destinationPath).value.File?
    requires Lstat(fs, BackupPath(a.destinationPath, stamp)) != Some(Dir)
    ensures var fs', d, b := CopyOutcome(fs, a, stamp, true).fs, a.destinationPath, BackupPath(a.destinationPath, stamp);
      d !in fs' && b in fs' && fs'[b] == fs[d]
  {
    var d, b, t := a.destinationPath, BackupPath(a.destinationPath, stamp), TempPath(a.destinationPath);
    assert Name(b) != Name(d) && Name(t) != Name(d) && Name(t) != Name(b);
    assert b != d && t != d && t != b;
    StatOfPlainNode(fs, d);
    var fs1 := Rename(fs, d, b).value;
    assert d !in fs1 && fs1[b] == fs[d];
    assert !IsPrefix(d, Parent(d));
  }
}
