/** scanner.py: the drive list, the two backends wrapped into a `ScanResult`,
    and the dispatcher `scan_path` that falls back from the MFT backend to
    the `os.scandir` walk. */
module Scanner {
  import opened Wrappers
  import opened Dicts
  import opened Text
  import opened Hierarchy
  import opened Models
  import opened FileStats
  import opened FsModel
  import opened Accounting
  import opened Walker
  import opened Usn
  import opened DirTree
  import opened MftScan

  // ---------------------------------------------------------------------
  // list_disks

  /** `2 ** i` */
  function Pow2(i: nat): (r: nat)
    ensures r >= 1
  {
    if i == 0 then 1 else 2 * Pow2(i - 1)
  }

  /** `mask & (1 << i) != 0` */
  predicate Bit(mask: nat, i: nat)
  {
    (mask / Pow2(i)) % 2 == 1
  }

  /** `(chr(ord("A") + i) + ":", chr(ord("A") + i) + ":\\")` */
  function DriveOf(i: nat): (string, string)
    requires i < 26
  {
    var drive := [('A' as int + i) as char, ':'];
    (drive, drive + "\\")
  }

  /** The drives among the first `n` letters whose bit is set, in letter
      order. */
  function DrivesIn(mask: nat, n: nat): seq<(string, string)>
    requires n <= 26
  {
    if n == 0 then [] else DrivesIn(mask, n - 1) + if Bit(mask, n - 1) then [DriveOf(n - 1)] else []
  }

  /** The loop over `range(26)` that lists the drives whose bit is set in
      `mask`. The same loop shape, over a mask of the mounts that exist,
      is the `os.path.exists` fallback. */
  method DrivesPresent(mask: nat) returns (result: seq<(string, string)>)
    ensures result == DrivesIn(mask, 26)
  {
    result := [];
    for i := 0 to 26
      invariant result == DrivesIn(mask, i)
    {
      if (mask / Pow2(i)) % 2 == 1 {
        result := result + [DriveOf(i)];
      }
    }
  }

  /** A drive is listed exactly when its bit is set; the mount is the drive
      followed by a backslash; the letters ascend. */
  lemma {:induction false} DrivesInShape(mask: nat, n: nat)
    requires n <= 26
    ensures forall d :: d in DrivesIn(mask, n) <==> exists i | 0 <= i < n :: Bit(mask, i) && d == DriveOf(i)
    ensures forall j | 0 <= j < |DrivesIn(mask, n)| ::
              var d := DrivesIn(mask, n)[j];
              |d.0| == 2 && d.0[1] == ':' && d.1 == d.0 + "\\" && 'A' <= d.0[0] < ('A' as int + n) as char
    ensures forall j, k | 0 <= j < k < |DrivesIn(mask, n)| :: DrivesIn(mask, n)[j].0[0] < DrivesIn(mask, n)[k].0[0]
  {
    if n > 0 {
      DrivesInShape(mask, n - 1);
      var prev := DrivesIn(mask, n - 1);
      var more := if Bit(mask, n - 1) then [DriveOf(n - 1)] else [];
      assert DrivesIn(mask, n) == prev + more;
      forall d ensures d in DrivesIn(mask, n) <==> exists i | 0 <= i < n :: Bit(mask, i) && d == DriveOf(i) {
        if d in DrivesIn(mask, n) && d !in prev {
          assert Bit(mask, n - 1) && d == DriveOf(n - 1);
        }
      }
    }
  }

  /** No bit set among the 26 letters lists no drive. */
  lemma {:induction false} NoBitNoDrive(mask: nat, n: nat)
    requires n <= 26 && forall i | 0 <= i < n :: !Bit(mask, i)
    ensures DrivesIn(mask, n) == []
  {
    if n > 0 {
      NoBitNoDrive(mask, n - 1);
    }
  }

  /** `list_disks()`. `windows` is `platform.system() == "Windows"`,
      `logicalDrives` what `GetLogicalDrives()` returned (None when the call
      raised), `mounted` the mask of letters whose mount `os.path.exists`. */
  method ListDisks(windows: bool, logicalDrives: Option<nat>, mounted: nat) returns (disks: seq<(string, string)>)
    ensures windows && logicalDrives.Some? && DrivesIn(logicalDrives.value, 26) != [] ==>
              disks == DrivesIn(logicalDrives.value, 26)
    ensures !(windows && logicalDrives.Some? && DrivesIn(logicalDrives.value, 26) != []) ==>
              disks == DrivesIn(mounted, 26)
  {
    if windows && logicalDrives.Some? {
      var result := DrivesPresent(logicalDrives.value);
      if result != [] {
        return result;
      }
    }
    disks := DrivesPresent(mounted);
  }

  // ---------------------------------------------------------------------
  // The two backends

  /** What a scan gives back: a result, or the exception that left it. */
  datatype ScanOutcome = Raises | Returns(result: ScanResult)

  /** The `DiskStats` both backends build: the disk usage (all 0 when
      `shutil.disk_usage` raised), the tally, the folder count, and
      `datetime.now()` as both times. */
  function StatsOf(path: string, usage: Usage, t: Tally, folders: nat, now: Timestamp): (s: DiskStats)
    ensures s.fileCount == t.fileCount && s.folderCount == folders
    ensures usage.UsageFails? ==> s.totalSize == 0 && s.usedSize == 0 && s.freeSize == 0
    ensures usage.Usage? ==> s.totalSize == usage.total && s.usedSize == usage.used && s.freeSize == usage.free
  {
    match usage
    case UsageFails => DiskStats(path, 0, 0, 0, t.fileCount, folders, t.largest, t.typeStats, now, now)
    case Usage(total, used, free) => DiskStats(path, total, used, free, t.fileCount, folders, t.largest, t.typeStats, now, now)
  }

  /** The disk's total size as the walk's progress ratio uses it. */
  function TotalOf(usage: Usage): nat
  {
    if usage.UsageFails? then 0 else usage.total
  }

  /** The statistics of a scan over the accepted files `files`: one count
      and the size of each file, and per-type counters summing to the same
      totals. */
  lemma StatsFromFiles(path: string, usage: Usage, files: seq<FileFacts>, folders: nat, now: Timestamp)
    ensures var s := StatsOf(path, usage, TallyOf(files), folders, now);
      && s.fileCount == |files|
      && StatSum(s.fileTypeStats.keys, s.fileTypeStats.items, false) == |files|
      && StatSum(s.fileTypeStats.keys, s.fileTypeStats.items, true) == SizeTotal(files)
  {
    TypeStatsSumUp(files);
  }

  /** The final progress call of either backend. */
  function FinalEvent(path: string, t: Tally, folders: nat): Event
  {
    Event(t.fileCount, folders, AtPath(path), 1.0)
  }

  /** What `_scan_via_scandir` returned after a walk with the visits
      `trace` that did not raise. */
  ghost predicate WalkReport(o: ScanOptions, usage: Usage, clock: Clock, fs: FileSystem, trace: seq<Visit>,
                             r: ScanResult, events: seq<Event>)
  {
    var files := TraceFiles(trace, o);
    var folders := |TraceDirs(trace, o)|;
    && WalkOrder(fs, o, trace)
    && r.files == []
    && r.stats == StatsOf(o.path, usage, TallyOf(files), folders, clock.now)
    && r.scanDurationMs == DurationMs(clock)
    && r.errorCount == TraceErrors(trace, o)
    && r.scanMethod == "scandir"
    && events == WalkEvents(o, TotalOf(usage), trace) + [FinalEvent(o.path, TallyOf(files), folders)]
  }

  /** `_scan_via_scandir(options, progress_callback, shared_hierarchy)`.
      The hierarchy `written` is `shared` when given, else a new one; the
      walk adds the accepted files to it even when it then raises. */
  method ScanViaScandir(o: ScanOptions, usage: Usage, clock: Clock, fs: FileSystem, shared: SizeTree?)
    returns (out: ScanOutcome, events: seq<Event>, ghost written: SizeTree,
             ghost trace: seq<Visit>, ghost accepted: seq<FileFacts>, ghost partial: seq<Outcome>)
    requires shared != null ==> shared.Valid()
    modifies shared
    ensures shared != null ==> written == shared
    ensures shared == null ==> fresh(written)
    ensures written.Valid()
    ensures written.history == (if shared != null then old(shared.history) else []) + AdditionsOf(accepted, |RStripSeps(o.path)|)
    ensures out.Raises? ==> WalkRaised(fs, o, TotalOf(usage), trace, partial, accepted, events)
    ensures out.Returns? ==>
              && accepted == TraceFiles(trace, o) && out.result.hierarchy == written
              && WalkReport(o, usage, clock, fs, trace, out.result, events)
  {
    var tree: SizeTree;
    if shared != null {
      tree := shared;
    } else {
      tree := new SizeTree();
    }
    written := tree;
    var t, folders, errors, raised, walkEvents;
    t, folders, errors, raised, walkEvents, trace, accepted, partial := Walk(o, fs, TotalOf(usage), tree);
    if raised {
      return Raises, walkEvents, written, trace, accepted, partial;
    }
    var stats := StatsOf(o.path, usage, t, folders, clock.now);
    out := Returns(ScanResult([], stats, DurationMs(clock), errors, tree, "scandir"));
    events := walkEvents + [FinalEvent(o.path, t, folders)];
    WalkReported(o, usage, clock, fs, trace, accepted, t, folders, errors, walkEvents, out.result, events);
  }

  /** The result `_scan_via_scandir` builds from a walk that did not raise. */
  lemma WalkReported(o: ScanOptions, usage: Usage, clock: Clock, fs: FileSystem, trace: seq<Visit>,
                     accepted: seq<FileFacts>, t: Tally, folders: nat, errors: nat, walkEvents: seq<Event>,
                     r: ScanResult, events: seq<Event>)
    requires t == TallyOf(accepted)
    requires WalkOrder(fs, o, trace) && accepted == TraceFiles(trace, o)
    requires folders == |TraceDirs(trace, o)| && errors == TraceErrors(trace, o)
    requires walkEvents == WalkEvents(o, TotalOf(usage), trace)
    requires r.files == [] && r.stats == StatsOf(o.path, usage, t, folders, clock.now)
    requires r.scanDurationMs == DurationMs(clock) && r.errorCount == errors && r.scanMethod == "scandir"
    requires events == walkEvents + [FinalEvent(o.path, t, folders)]
    ensures WalkReport(o, usage, clock, fs, trace, r, events)
  {
  }

  /** `_scan_via_mft(options, progress_callback, shared_hierarchy)`: only
      the path and `exclude_patterns` reach `scan_mft`, so `max_depth`,
      `follow_symlinks` and the other options play no part. `progress` are
      the calls `scan_mft` made; on success one final call follows. It
      raises when `scan_mft` does. */
  method ScanViaMft(o: ScanOptions, usage: Usage, clock: Clock, volumeOpens: bool, rs: seq<Response>,
                    fs: FileSystem, shared: SizeTree?)
    returns (out: ScanOutcome, events: seq<Event>, ghost written: SizeTree, ghost progress: seq<Event>,
             ghost mft: MftOutcome, ghost compact: Entries, ghost ps: seq<Pass>)
    requires RootStays(Enumeration(rs).items)
    requires shared != null ==> shared.Valid()
    modifies shared
    ensures shared != null ==> written == shared
    ensures shared == null ==> fresh(written)
    ensures written.Valid()
    ensures !volumeOpens ==>
              && mft == CannotOpenVolume && progress == []
              && written.history == if shared != null then old(shared.history) else []
    ensures volumeOpens ==>
              && MftScanned(o.path, o.excludePatterns, rs, fs, compact, ps, mft, progress)
              && written.history == (if shared != null then old(shared.history) else [])
                                    + AdditionsOf(PassFiles(ps), |RStripSeps(o.path)|)
    ensures out.Raises? <==> !mft.Finished?
    ensures out.Raises? ==> events == progress
    ensures out.Returns? ==>
              && out.result == ScanResult([], StatsOf(o.path, usage, mft.tally, mft.folders, clock.now),
                                          DurationMs(clock), mft.errors, written, "mft")
              && events == progress + [FinalEvent(o.path, mft.tally, mft.folders)]
  {
    var tree: SizeTree;
    if shared != null {
      tree := shared;
    } else {
      tree := new SizeTree();
    }
    written := tree;
    var r, mftEvents;
    r, mftEvents, compact, ps := ScanMft(o.path, o.excludePatterns, volumeOpens, rs, fs, tree);
    mft, progress := r, mftEvents;
    if !r.Finished? {
      return Raises, mftEvents, written, progress, mft, compact, ps;
    }
    var stats := StatsOf(o.path, usage, r.tally, r.folders, clock.now);
    out := Returns(ScanResult([], stats, DurationMs(clock), r.errors, tree, "mft"));
    events := mftEvents + [FinalEvent(o.path, r.tally, r.folders)];
  }

  // ---------------------------------------------------------------------
  // scan_path

  /** `scan_path(options, progress_callback, shared_hierarchy)`: the MFT
      backend when `_can_use_mft` says so and it does not raise, otherwise
      the scandir walk, on the same `shared` hierarchy. Each backend asks
      `shutil.disk_usage` and the clocks itself (`mftUsage`, `mftClock`
      and `usage`, `clock`). Progress calls made by a failed MFT attempt
      stay made; the additions it made to a shared hierarchy stay in it.
      Without a shared hierarchy, as the program itself calls it, each
      backend makes a new one, and the result's is the one of the backend
      that returned: a failed MFT attempt's tree is dropped. */
  method ScanPath(o: ScanOptions, canUseMft: bool, mftUsage: Usage, mftClock: Clock, volumeOpens: bool,
                  rs: seq<Response>, usage: Usage, clock: Clock, fs: FileSystem, shared: SizeTree?)
    returns (out: ScanOutcome, events: seq<Event>, ghost written: SizeTree, ghost mft: Option<MftOutcome>,
             ghost progress: seq<Event>, ghost compact: Entries, ghost ps: seq<Pass>,
             ghost trace: seq<Visit>, ghost accepted: seq<FileFacts>, ghost partial: seq<Outcome>)
    requires canUseMft ==> RootStays(Enumeration(rs).items)
    requires shared != null ==> shared.Valid()
    modifies shared
    ensures mft.Some? <==> canUseMft
    ensures shared != null ==> written == shared
    ensures shared == null ==> fresh(written)
    ensures written.Valid()
    ensures shared == null ==>
              written.history == if mft.Some? && mft.value.Finished? then AdditionsOf(PassFiles(ps), |RStripSeps(o.path)|)
                                 else AdditionsOf(accepted, |RStripSeps(o.path)|)
    ensures shared != null ==>
              shared.history == old(shared.history) + AdditionsOf(PassFiles(ps), |RStripSeps(o.path)|)
                                + AdditionsOf(accepted, |RStripSeps(o.path)|)
    ensures canUseMft && volumeOpens ==>
              MftScanned(o.path, o.excludePatterns, rs, fs, compact, ps, mft.value, progress)
    ensures !(canUseMft && volumeOpens) ==> progress == [] && ps == []
    ensures (out.Returns? && out.result.scanMethod == "mft") <==> mft.Some? && mft.value.Finished?
    ensures mft.Some? && mft.value.Finished? ==>
              && out.result == ScanResult([], StatsOf(o.path, mftUsage, mft.value.tally, mft.value.folders, mftClock.now),
                                          DurationMs(mftClock), mft.value.errors, written, "mft")
              && events == progress + [FinalEvent(o.path, mft.value.tally, mft.value.folders)]
              && accepted == []
    ensures !(mft.Some? && mft.value.Finished?) ==>
              && |events| >= |progress| && events[..|progress|] == progress
              && (out.Raises? ==> WalkRaised(fs, o, TotalOf(usage), trace, partial, accepted, events[|progress|..]))
              && (out.Returns? ==>
                    && accepted == TraceFiles(trace, o) && out.result.hierarchy == written
                    && WalkReport(o, usage, clock, fs, trace, out.result, events[|progress|..]))
  {
    mft, progress, compact, ps, trace, accepted, partial := None, [], Empty(), [], [], [], [];
    ghost var rootLen := |RStripSeps(o.path)|;
    var mftEvents: seq<Event> := [];
    if canUseMft {
      var mftOut;
      ghost var w, m;
      mftOut, mftEvents, w, progress, m, compact, ps := ScanViaMft(o, mftUsage, mftClock, volumeOpens, rs, fs, shared);
      mft := Some(m);
      if !volumeOpens {
        ps := [];
        NoAdditions(if shared != null then old(shared.history) else [], rootLen);
      }
      if mftOut.Returns? {
        written := w;
        NoAdditions(w.history, rootLen);
        return mftOut, mftEvents, written, mft, progress, compact, ps, trace, accepted, partial;
      }
    } else {
      NoAdditions(if shared != null then old(shared.history) else [], rootLen);
    }
    ghost var h1 := if shared != null then shared.history else [];
    var scandirOut, scandirEvents;
    scandirOut, scandirEvents, written, trace, accepted, partial := ScanViaScandir(o, usage, clock, fs, shared);
    out := scandirOut;
    events := mftEvents + scandirEvents;
    assert events[..|progress|] == progress && events[|progress|..] == scandirEvents;
  }

  /** Adding the files of no pass, or no files, leaves a history as it is. */
  lemma NoAdditions(h: seq<Addition>, rootLen: nat)
    ensures h + AdditionsOf(PassFiles([]), rootLen) == h && h + AdditionsOf([], rootLen) + AdditionsOf([], rootLen) == h
    ensures h + AdditionsOf([], rootLen) == h
  {
    assert PassFiles([]) == [] && AdditionsOf([], rootLen) == [];
  }
}
