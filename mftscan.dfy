/** `scan_mft` (mft_scanner.py:266-366): the directories that the MFT
    enumeration and the tree reconstruction found are listed one by one,
    the root first, and their regular files are counted. */
module MftScan {
  import opened Wrappers
  import opened Dicts
  import opened Text
  import opened Hierarchy
  import opened Exclude
  import opened FileStats
  import opened FsModel
  import opened Accounting
  import opened Walker
  import opened Usn
  import opened DirTree

  /** What the size pass does with one entry of a listing
      (mft_scanner.py:325-335): `entry.stat` without following links; a
      failing stat is an error, and anything but a regular file is passed
      over. */
  function SizeJudge(dir: string, e: Entry): Outcome
  {
    match e.statNoFollow
    case StatFails => Fault
    case StatOk(kind, size, _, ctime, mtime, atime, conversion) =>
      if kind != Regular then Skip
      else Accept(FileFacts(JoinPath(dir, e.name), e.name, TypeTag(e.name), size, ctime, mtime, atime, conversion))
  }

  /** Only a failing stat is an error, only regular files are counted, with
      the entry's own path, tag and size, and nothing is descended into: the
      directories to list come from the MFT, not from the listings. */
  lemma SizeJudgeCases(dir: string, e: Entry)
    ensures SizeJudge(dir, e).Fault? <==> e.statNoFollow.StatFails?
    ensures SizeJudge(dir, e).Accept? <==> e.statNoFollow.StatOk? && e.statNoFollow.kind == Regular
    ensures !SizeJudge(dir, e).Descend?
    ensures SizeJudge(dir, e).Accept? ==>
              var f := SizeJudge(dir, e).file;
              f.path == JoinPath(dir, e.name) && f.name == e.name && f.tag == TypeTag(e.name)
              && f.size == e.statNoFollow.size && f.conversion == e.statNoFollow.conversion
  {
  }

  function SizeJudger(dir: string): Entry -> Outcome
  {
    e => SizeJudge(dir, e)
  }

  /** The outcomes of a listing's entries, in listing order. */
  function SizeOutcomes(dir: string, es: seq<Entry>): seq<Outcome>
  {
    MapSeq(es, SizeJudger(dir))
  }

  lemma SizeOutcomesSnoc(dir: string, es: seq<Entry>, j: int)
    requires 0 <= j < |es|
    ensures SizeOutcomes(dir, es[..j + 1]) == SizeOutcomes(dir, es[..j]) + [SizeJudge(dir, es[j])]
  {
    assert es[..j + 1] == es[..j] + [es[j]];
    MapSeqSnoc(es[..j], es[j], SizeJudger(dir));
  }

  /** The size pass never collects subdirectories. */
  lemma {:induction false} SizePushedNone(dir: string, es: seq<Entry>)
    ensures Pushed(SizeOutcomes(dir, es)) == []
  {
    if es != [] {
      var n := |es| - 1;
      assert es == es[..n] + [es[n]];
      MapSeqSnoc(es[..n], es[n], SizeJudger(dir));
      SizePushedNone(dir, es[..n]);
      OutcomeSnoc(SizeOutcomes(dir, es[..n]), SizeJudge(dir, es[n]));
    }
  }

  /** No file among `vs` was a new largest file whose `FileInfo` could not be
      built, the files `prior` having been accepted before them. */
  predicate NoRaise(prior: seq<FileFacts>, vs: seq<Outcome>)
  {
    vs == [] ||
    (NoRaise(prior, vs[..|vs| - 1]) && !(vs[|vs| - 1].Accept? && RaisedAtLast(prior + Accepted(vs))))
  }

  /** The outcomes `vs` a listing of `es` took: all of them when no
      `FileInfo` raised, otherwise those up to the first file whose
      `FileInfo` raised, with that file's exception as `failure`. */
  predicate Taken(prior: seq<FileFacts>, dir: string, es: seq<Entry>, vs: seq<Outcome>, failure: Conversion)
  {
    && |vs| <= |es| && vs == SizeOutcomes(dir, es[..|vs|])
    && (failure == Converts ==> |vs| == |es| && NoRaise(prior, vs))
    && (failure != Converts ==>
          && vs != [] && NoRaise(prior, vs[..|vs| - 1])
          && vs[|vs| - 1].Accept? && RaisedAtLast(prior + Accepted(vs))
          && failure == vs[|vs| - 1].file.conversion)
  }

  /** A listing takes one determined prefix of its outcomes. */
  lemma TakenUnique(prior: seq<FileFacts>, dir: string, es: seq<Entry>,
                    vs: seq<Outcome>, f: Conversion, ws: seq<Outcome>, g: Conversion)
    requires Taken(prior, dir, es, vs, f) && Taken(prior, dir, es, ws, g)
    ensures vs == ws && f == g
  {
    TakenNoShorter(prior, dir, es, vs, f, ws, g);
    TakenNoShorter(prior, dir, es, ws, g, vs, f);
  }

  /** Neither of two takings of the same listing stops before the other. */
  lemma TakenNoShorter(prior: seq<FileFacts>, dir: string, es: seq<Entry>,
                       vs: seq<Outcome>, f: Conversion, ws: seq<Outcome>, g: Conversion)
    requires Taken(prior, dir, es, vs, f) && Taken(prior, dir, es, ws, g)
    ensures |ws| >= |vs|
  {
    if |ws| < |vs| {
      var k := |ws|;
      TakenPrefix(dir, es, vs, k);
      NoRaiseBefore(prior, dir, es, vs, f, k);
      assert false;
    }
  }

  /** A taking raises at its last outcome at the earliest. */
  lemma NoRaiseBefore(prior: seq<FileFacts>, dir: string, es: seq<Entry>, vs: seq<Outcome>, f: Conversion, k: nat)
    requires Taken(prior, dir, es, vs, f) && 0 < k < |vs|
    ensures !(vs[k - 1].Accept? && RaisedAtLast(prior + Accepted(vs[..k])))
  {
    if f == Converts {
      NoRaisePrefix(prior, vs, k);
    } else {
      var init := vs[..|vs| - 1];
      assert init[..k] == vs[..k];
      NoRaisePrefix(prior, init, k);
    }
  }

  lemma TakenPrefix(dir: string, es: seq<Entry>, vs: seq<Outcome>, k: nat)
    requires |vs| <= |es| && vs == SizeOutcomes(dir, es[..|vs|]) && k <= |vs|
    ensures vs[..k] == SizeOutcomes(dir, es[..k])
  {
    MapSeqPrefix(es[..|vs|], SizeJudger(dir), k);
    assert es[..|vs|][..k] == es[..k];
  }

  lemma {:induction false} MapSeqPrefix<A, B>(xs: seq<A>, g: A -> B, k: nat)
    requires k <= |xs|
    ensures MapSeq(xs, g)[..k] == MapSeq(xs[..k], g)
  {
    if k < |xs| {
      var n := |xs| - 1;
      MapSeqPrefix(xs[..n], g, k);
      assert xs[..n][..k] == xs[..k];
    } else {
      assert xs[..k] == xs;
    }
  }

  /** A prefix of outcomes none of which raised has no raising file either;
      in particular the last outcome of a non-empty prefix did not raise. */
  lemma {:induction false} NoRaisePrefix(prior: seq<FileFacts>, vs: seq<Outcome>, k: nat)
    requires NoRaise(prior, vs) && 0 < k <= |vs|
    ensures NoRaise(prior, vs[..k])
    ensures !(vs[k - 1].Accept? && RaisedAtLast(prior + Accepted(vs[..k])))
  {
    if k < |vs| {
      var n := |vs| - 1;
      NoRaisePrefix(prior, vs[..n], k);
      assert vs[..n][..k] == vs[..k];
    } else {
      assert vs[..k] == vs;
    }
  }

  lemma TakenStart(prior: seq<FileFacts>, dir: string, es: seq<Entry>, rootLen: nat, h: seq<Addition>)
    ensures SizeOutcomes(dir, es[..0]) == [] && NoRaise(prior, [])
    ensures prior + Accepted([]) == prior && FaultCount([]) == 0 && Pushed([]) == []
    ensures h + AdditionsOf(Accepted([]), rootLen) == h
  {
  }

  /** One more taken outcome keeps the loop's account. */
  lemma TakenStep(prior: seq<FileFacts>, dir: string, es: seq<Entry>, j: nat, vs: seq<Outcome>, v: Outcome,
                  failure: Conversion)
    requires j < |es| && |vs| == j && vs == SizeOutcomes(dir, es[..j]) && NoRaise(prior, vs)
    requires v == SizeJudge(dir, es[j])
    requires failure == if v.Accept? && RaisedAtLast(prior + Accepted(vs + [v])) then v.file.conversion else Converts
    ensures vs + [v] == SizeOutcomes(dir, es[..j + 1]) && (vs + [v])[..j] == vs
    ensures failure == Converts ==> NoRaise(prior, vs + [v])
    ensures failure != Converts ==> Taken(prior, dir, es, vs + [v], failure)
    ensures Pushed(vs + [v]) == []
  {
    SizeOutcomesSnoc(dir, es, j);
    SizePushedNone(dir, es[..j + 1]);
    assert (vs + [v])[..j] == vs;
  }

  /** One listing of mft_scanner.py:323-358: the entries are taken in
      order until a `FileInfo` raises. */
  method SizeListing(dir: string, es: seq<Entry>, rootLen: nat, t: Tally, tree: SizeTree, ghost prior: seq<FileFacts>)
    returns (t': Tally, faults: nat, failure: Conversion, ghost vs: seq<Outcome>)
    requires tree.Valid() && t == TallyOf(prior)
    modifies tree
    ensures tree.Valid() && Taken(prior, dir, es, vs, failure)
    ensures t' == TallyOf(prior + Accepted(vs)) && faults == FaultCount(vs)
    ensures tree.history == old(tree.history) + AdditionsOf(Accepted(vs), rootLen)
  {
    t', faults, failure, vs := t, 0, Converts, [];
    TakenStart(prior, dir, es, rootLen, tree.history);
    var j := 0;
    while j < |es|
      invariant 0 <= j <= |es| && |vs| == j && vs == SizeOutcomes(dir, es[..j]) && NoRaise(prior, vs)
      invariant tree.Valid() && failure == Converts
      invariant t' == TallyOf(prior + Accepted(vs)) && faults == FaultCount(vs)
      invariant tree.history == old(tree.history) + AdditionsOf(Accepted(vs), rootLen)
    {
      var v := SizeJudge(dir, es[j]);
      SizePushedNone(dir, es[..j]);
      var subdirs;
      t', subdirs, faults, failure := TakeOutcome(v, rootLen, t', [], faults, tree, prior, vs, old(tree.history));
      TakenStep(prior, dir, es, j, vs, v, failure);
      vs := vs + [v];
      if failure != Converts {
        return;
      }
      j := j + 1;
    }
    assert es[..|es|] == es;
  }

  /** What became of one directory of the size pass. */
  datatype Fate =
    | Skipped                                       // excluded: processed, without an event
    | Unreadable                                    // `os.scandir` raised: one more error
    | Counted(vs: seq<Outcome>, failure: Conversion) // the outcomes taken, and how the listing ended

  datatype Pass = Pass(path: string, fate: Fate)

  /** A `FileInfo` raised an exception other than `OSError`, which leaves
      `scan_mft`. */
  predicate Aborts(p: Pass)
  {
    p.fate.Counted? && p.fate.failure == RaisesOther
  }

  function FateFiles(f: Fate): seq<FileFacts>
  {
    if f.Counted? then Accepted(f.vs) else []
  }

  /** A failing listing, each failing stat, and a `FileInfo` that raised
      `OSError` (caught around the whole listing) are one error each. */
  function FateErrors(f: Fate): nat
  {
    match f
    case Skipped => 0
    case Unreadable => 1
    case Counted(vs, failure) => FaultCount(vs) + (if failure == RaisesOSError then 1 else 0)
  }

  function PassFiles(ps: seq<Pass>): seq<FileFacts>
  {
    if ps == [] then [] else PassFiles(ps[..|ps| - 1]) + FateFiles(ps[|ps| - 1].fate)
  }

  function PassErrors(ps: seq<Pass>): nat
  {
    if ps == [] then 0 else PassErrors(ps[..|ps| - 1]) + FateErrors(ps[|ps| - 1].fate)
  }

  lemma PassSnoc(ps: seq<Pass>, p: Pass)
    ensures PassFiles(ps + [p]) == PassFiles(ps) + FateFiles(p.fate)
    ensures PassErrors(ps + [p]) == PassErrors(ps) + FateErrors(p.fate)
    ensures (ps + [p])[..|ps|] == ps
  {
    assert (ps + [p])[..|ps|] == ps;
  }

  /** The fate the file system dictates for a directory at `path`, the files
      `prior` having been accepted before it. */
  predicate FateOk(fs: FileSystem, patterns: seq<string>, prior: seq<FileFacts>, p: Pass)
  {
    match p.fate
    case Skipped => Excluded(p.path, patterns)
    case Unreadable => !Excluded(p.path, patterns) && !Listable(fs, p.path)
    case Counted(vs, failure) =>
      !Excluded(p.path, patterns) && Listable(fs, p.path) && Taken(prior, p.path, fs[p.path].entries, vs, failure)
  }

  /** The passes `ps` are those of the first `|ps|` directories of `dirs`,
      in order: each at the directory's full path, dictated by the file
      system and the files accepted before it, and none but the last
      aborted the scan. */
  predicate Passed(fs: FileSystem, patterns: seq<string>, c: Entries, root: string, dirs: seq<nat>, ps: seq<Pass>)
    requires c.Valid() && ParentsFirst(c)
  {
    && |ps| <= |dirs|
    && forall j | 0 <= j < |ps| ::
         && ps[j].path == DirPath(c, root, dirs[j])
         && FateOk(fs, patterns, PassFiles(ps[..j]), ps[j])
         && (j + 1 < |ps| ==> !Aborts(ps[j]))
  }

  lemma PassedSnoc(fs: FileSystem, patterns: seq<string>, c: Entries, root: string, dirs: seq<nat>,
                   ps: seq<Pass>, p: Pass)
    requires c.Valid() && ParentsFirst(c) && Passed(fs, patterns, c, root, dirs, ps) && |ps| < |dirs|
    requires ps != [] ==> !Aborts(ps[|ps| - 1])
    requires p.path == DirPath(c, root, dirs[|ps|]) && FateOk(fs, patterns, PassFiles(ps), p)
    ensures Passed(fs, patterns, c, root, dirs, ps + [p])
  {
    var qs := ps + [p];
    forall j | 0 <= j < |qs|
      ensures qs[j].path == DirPath(c, root, dirs[j]) && FateOk(fs, patterns, PassFiles(qs[..j]), qs[j])
      ensures j + 1 < |qs| ==> !Aborts(qs[j])
    {
      if j < |ps| {
        PassedAt(fs, patterns, c, root, dirs, ps, j);
        assert qs[..j] == ps[..j] && qs[j] == ps[j];
      } else {
        assert qs[..j] == ps;
      }
    }
  }

  lemma PassedAt(fs: FileSystem, patterns: seq<string>, c: Entries, root: string, dirs: seq<nat>,
                 ps: seq<Pass>, j: nat)
    requires c.Valid() && ParentsFirst(c) && Passed(fs, patterns, c, root, dirs, ps) && j < |ps|
    ensures j < |dirs| && ps[j].path == DirPath(c, root, dirs[j])
    ensures FateOk(fs, patterns, PassFiles(ps[..j]), ps[j])
    ensures j + 1 < |ps| ==> !Aborts(ps[j])
  {
  }

  /** `min(0.999, 0.03 + 0.969 * (processed_dirs / total_dirs))` */
  function SizeRatio(processed: nat, total: nat): real
    requires total > 0
  {
    Min(0.999, 0.03 + 0.969 * (processed as real / total as real))
  }

  /** The progress calls of the size pass: after every 15th directory
      processed, unless it was excluded or its listing raised out of the
      scan, with the file count so far. */
  function PassEvents(ps: seq<Pass>, folders: nat): seq<Event>
  {
    if ps == [] then []
    else
      var n := |ps| - 1;
      PassEvents(ps[..n], folders) + Progress(ps[n], |ps|, |PassFiles(ps)|, folders)
  }

  /** The progress call after the `count`-th directory, `p`, once
      `fileCount` files are counted: made when the directory was not
      excluded, did not abort the scan, and `count` is a multiple of 15. */
  function Progress(p: Pass, count: nat, fileCount: nat, folders: nat): seq<Event>
  {
    if !p.fate.Skipped? && !Aborts(p) && count % 15 == 0
    then [Event(fileCount, folders, AtPath(p.path), SizeRatio(count, folders + 1))]
    else []
  }

  /** Every progress call of the size pass names a directory, reports the
      folder count, and carries a ratio between 0.03 and 0.999, which never
      decreases from one call to the next. */
  lemma {:induction false} PassEventsBounded(ps: seq<Pass>, folders: nat)
    ensures forall i | 0 <= i < |PassEvents(ps, folders)| ::
              var e := PassEvents(ps, folders)[i];
              e.status.AtPath? && e.folders == folders && 0.03 <= e.ratio <= 0.999
    ensures forall i, j | 0 <= i < j < |PassEvents(ps, folders)| ::
              PassEvents(ps, folders)[i].ratio <= PassEvents(ps, folders)[j].ratio
    ensures forall i | 0 <= i < |PassEvents(ps, folders)| ::
              PassEvents(ps, folders)[i].ratio <= SizeRatio(|ps|, folders + 1)
  {
    if ps != [] {
      var n := |ps| - 1;
      PassEventsBounded(ps[..n], folders);
      RatioGrows(n, |ps|, folders + 1);
      RatioBounds(|ps|, folders + 1);
    }
  }

  lemma RatioBounds(processed: nat, total: nat)
    requires total > 0
    ensures 0.03 <= SizeRatio(processed, total) <= 0.999
  {
    assert processed as real / total as real >= 0.0;
  }

  lemma RatioGrows(a: nat, b: nat, total: nat)
    requires total > 0 && a <= b
    ensures SizeRatio(a, total) <= SizeRatio(b, total)
  {
    assert a as real / total as real <= b as real / total as real;
  }

  /** The directories of the size pass: the NTFS root, then the
      reconstructed directories in the order they were dequeued. */
  function SizeDirs(c: Entries): seq<nat>
  {
    [NtfsRootRef] + c.keys
  }

  /** Each directory is processed once: the list has no repetition and
      holds the root and exactly the reconstructed directories, one more than
      `folder_count`. */
  lemma SizeDirsOnce(c: Entries)
    requires c.Valid() && ParentsFirst(c)
    ensures |SizeDirs(c)| == |c.keys| + 1
    ensures forall i, j | 0 <= i < j < |SizeDirs(c)| :: SizeDirs(c)[i] != SizeDirs(c)[j]
    ensures forall k :: k in SizeDirs(c) <==> k == NtfsRootRef || k in c.items
  {
    SizeDirsDistinct(c);
    SizeDirsCover(c);
  }

  lemma SizeDirsDistinct(c: Entries)
    requires c.Valid() && ParentsFirst(c)
    ensures forall i, j | 0 <= i < j < |SizeDirs(c)| :: SizeDirs(c)[i] != SizeDirs(c)[j]
  {
    forall i, j | 0 <= i < j < |SizeDirs(c)| ensures SizeDirs(c)[i] != SizeDirs(c)[j] {
      if i > 0 {
        assert SizeDirs(c)[i] == c.keys[i - 1] && SizeDirs(c)[j] == c.keys[j - 1];
      } else {
        assert SizeDirs(c)[j] == c.keys[j - 1];
      }
    }
  }

  lemma SizeDirsCover(c: Entries)
    requires c.Valid()
    ensures forall k :: k in SizeDirs(c) <==> k == NtfsRootRef || k in c.items
  {
    forall k ensures k in c.keys <==> k in c.items {
      if k in c.items {
        KeysCover(c, k);
      }
    }
  }

  lemma PassEventsSnoc(ps: seq<Pass>, p: Pass, folders: nat)
    ensures PassEvents(ps + [p], folders) == PassEvents(ps, folders) + Progress(p, |ps| + 1, |PassFiles(ps + [p])|, folders)
  {
    assert (ps + [p])[..|ps|] == ps;
  }

  /** A pass is skipped exactly when the directory's full path is excluded. */
  lemma SkippedIffExcluded(fs: FileSystem, patterns: seq<string>, prior: seq<FileFacts>, p: Pass)
    requires FateOk(fs, patterns, prior, p)
    ensures p.fate.Skipped? <==> Excluded(p.path, patterns)
  {
  }

  /** `k` lies below `a` in the reconstructed tree. */
  predicate Below(c: Entries, a: nat, k: nat)
    requires c.Valid() && ParentsFirst(c)
    decreases if k in c.keys then IndexIn(c.keys, k) + 1 else 0
  {
    k in c.items && (c.items[k].0 == a || (ParentEarlier(c, k); Below(c, a, c.items[k].0)))
  }

  /** Exclusion carries down the tree: when a directory's full path is
      excluded, so is the full path of every directory below it. */
  lemma {:induction false} ExcludedBelow(c: Entries, root: string, patterns: seq<string>, a: nat, k: nat)
    requires c.Valid() && ParentsFirst(c) && Below(c, a, k)
    requires Excluded(DirPath(c, root, a), patterns)
    ensures Excluded(DirPath(c, root, k), patterns)
    decreases if k in c.keys then IndexIn(c.keys, k) + 1 else 0
  {
    ParentEarlier(c, k);
    var (p, name) := c.items[k];
    if p != a {
      ExcludedBelow(c, root, patterns, a, p);
    }
    ChildPath(c, root, k);
    ExcludedExtends(DirPath(c, root, p), "\\" + name, patterns);
    AppendAssoc(DirPath(c, root, p), "\\", name);
  }

  /** In the size pass, every directory below an excluded one is skipped,
      so its listing is never read. */
  lemma PassSkipsBelow(fs: FileSystem, patterns: seq<string>, c: Entries, root: string,
                       ps: seq<Pass>, i: nat, j: nat)
    requires c.Valid() && ParentsFirst(c) && Passed(fs, patterns, c, root, SizeDirs(c), ps)
    requires i < |ps| && j < |ps| && Below(c, SizeDirs(c)[i], SizeDirs(c)[j]) && ps[i].fate.Skipped?
    ensures ps[j].fate.Skipped?
  {
    SkippedIffExcluded(fs, patterns, PassFiles(ps[..i]), ps[i]);
    SkippedIffExcluded(fs, patterns, PassFiles(ps[..j]), ps[j]);
    ExcludedBelow(c, root, patterns, SizeDirs(c)[i], SizeDirs(c)[j]);
  }

  /** The files of one more pass extend the hierarchy's history. */
  lemma HistoryStep(base: seq<Addition>, files: seq<FileFacts>, more: seq<FileFacts>, rootLen: nat)
    ensures base + AdditionsOf(files, rootLen) + AdditionsOf(more, rootLen) == base + AdditionsOf(files + more, rootLen)
  {
    AdditionsConcat(files, more, rootLen);
  }

  /** One directory of the size pass (mft_scanner.py:318-366): its full
      path; skipped when excluded, otherwise listed, with one error when it
      cannot be listed or a `FileInfo` raised `OSError`; then a progress
      call after every 15th directory that was not excluded. */
  method SizeDir(fs: FileSystem, patterns: seq<string>, compact: Entries, root: string, dirs: seq<nat>, i: nat,
                 tree: SizeTree, t: Tally, errors: nat, events: seq<Event>,
                 ghost ps: seq<Pass>, ghost base: seq<Addition>)
    returns (t': Tally, errors': nat, events': seq<Event>, raised: bool, ghost p: Pass)
    requires dirs == SizeDirs(compact) && i == |ps| < |dirs| && tree.Valid()
    requires Sized(fs, patterns, compact, root, dirs, ps, t, errors, events, tree.history, base)
    requires ps != [] ==> !Aborts(ps[|ps| - 1])
    modifies tree
    ensures tree.Valid() && raised == Aborts(p)
    ensures Sized(fs, patterns, compact, root, dirs, ps + [p], t', errors', events', tree.history, base)
  {
    var folders := |compact.keys|;
    var totalDirs := Max(folders + 1, 1);
    var path := GetDirFullPath(dirs[i], compact, root);
    var dirErrors, skipped;
    ghost var fate;
    t', dirErrors, skipped, raised, fate := SizeVisit(fs, patterns, path, |root|, t, tree, PassFiles(ps));
    p := Pass(path, fate);
    errors' := errors + dirErrors;
    var progress: seq<Event> := [];
    if !skipped && !raised && (i + 1) % 15 == 0 {
      progress := [Event(t'.fileCount, folders, AtPath(path), SizeRatio(i + 1, totalDirs))];
    }
    events' := events + progress;
    PassStep(fs, patterns, compact, root, dirs, ps, p, t, errors, events, old(tree.history), base,
             t', errors', progress, tree.history);
  }

  /** The state of the size pass after the passes `ps`: the tally, the
      error count, the hierarchy's history and the progress calls they
      account for. */
  ghost predicate Sized(fs: FileSystem, patterns: seq<string>, c: Entries, root: string, dirs: seq<nat>,
                        ps: seq<Pass>, t: Tally, errors: nat, events: seq<Event>, h: seq<Addition>, base: seq<Addition>)
  {
    && c.Valid() && ParentsFirst(c) && Passed(fs, patterns, c, root, dirs, ps)
    && t == TallyOf(PassFiles(ps)) && errors == PassErrors(ps)
    && h == base + AdditionsOf(PassFiles(ps), |root|)
    && events == PassEvents(ps, |c.keys|)
  }

  /** The bookkeeping of one more pass. */
  lemma PassStep(fs: FileSystem, patterns: seq<string>, c: Entries, root: string, dirs: seq<nat>,
                 ps: seq<Pass>, p: Pass, t: Tally, errors: nat, events: seq<Event>, h: seq<Addition>,
                 base: seq<Addition>, t': Tally, errors': nat, progress: seq<Event>, h': seq<Addition>)
    requires |ps| < |dirs| && Sized(fs, patterns, c, root, dirs, ps, t, errors, events, h, base)
    requires ps != [] ==> !Aborts(ps[|ps| - 1])
    requires p.path == DirPath(c, root, dirs[|ps|]) && FateOk(fs, patterns, PassFiles(ps), p)
    requires t' == TallyOf(PassFiles(ps) + FateFiles(p.fate)) && errors' == errors + FateErrors(p.fate)
    requires h' == h + AdditionsOf(FateFiles(p.fate), |root|)
    requires progress == Progress(p, |ps| + 1, t'.fileCount, |c.keys|)
    ensures Sized(fs, patterns, c, root, dirs, ps + [p], t', errors', events + progress, h', base)
  {
    PassedSnoc(fs, patterns, c, root, dirs, ps, p);
    PassCounts(ps, p, errors, t', errors');
    PassTrail(ps, p, base, h, h', |root|, |c.keys|, events, progress, t');
  }

  lemma PassCounts(ps: seq<Pass>, p: Pass, errors: nat, t': Tally, errors': nat)
    requires errors == PassErrors(ps)
    requires t' == TallyOf(PassFiles(ps) + FateFiles(p.fate)) && errors' == errors + FateErrors(p.fate)
    ensures t' == TallyOf(PassFiles(ps + [p])) && errors' == PassErrors(ps + [p])
  {
    PassSnoc(ps, p);
  }

  lemma PassTrail(ps: seq<Pass>, p: Pass, base: seq<Addition>, h: seq<Addition>, h': seq<Addition>, rootLen: nat,
                  folders: nat, events: seq<Event>, progress: seq<Event>, t': Tally)
    requires h == base + AdditionsOf(PassFiles(ps), rootLen) && h' == h + AdditionsOf(FateFiles(p.fate), rootLen)
    requires events == PassEvents(ps, folders) && t' == TallyOf(PassFiles(ps) + FateFiles(p.fate))
    requires progress == Progress(p, |ps| + 1, t'.fileCount, folders)
    ensures h' == base + AdditionsOf(PassFiles(ps + [p]), rootLen)
    ensures events + progress == PassEvents(ps + [p], folders)
  {
    PassSnoc(ps, p);
    PassEventsSnoc(ps, p, folders);
    HistoryStep(base, PassFiles(ps), FateFiles(p.fate), rootLen);
  }

  /** What one directory at `path` yields: skipped when excluded, one error
      when it cannot be listed, otherwise its listing taken, with one more
      error when a `FileInfo` raised `OSError`. */
  method SizeVisit(fs: FileSystem, patterns: seq<string>, path: string, rootLen: nat, t: Tally, tree: SizeTree,
                   ghost prior: seq<FileFacts>)
    returns (t': Tally, dirErrors: nat, skipped: bool, raised: bool, ghost fate: Fate)
    requires tree.Valid() && t == TallyOf(prior)
    modifies tree
    ensures tree.Valid() && FateOk(fs, patterns, prior, Pass(path, fate))
    ensures skipped == fate.Skipped? && raised == Aborts(Pass(path, fate))
    ensures t' == TallyOf(prior + FateFiles(fate)) && dirErrors == FateErrors(fate)
    ensures tree.history == old(tree.history) + AdditionsOf(FateFiles(fate), rootLen)
  {
    var excluded := MatchExclude(path, patterns);
    t', dirErrors, skipped, raised := t, 0, false, false;
    if excluded {
      fate := Skipped;
      skipped := true;
      NothingAdded(prior, old(tree.history), rootLen);
    } else if !Listable(fs, path) {
      fate := Unreadable;
      dirErrors := 1;
      NothingAdded(prior, old(tree.history), rootLen);
    } else {
      var faults, failure;
      ghost var vs;
      t', faults, failure, vs := SizeListing(path, fs[path].entries, rootLen, t, tree, prior);
      fate := Counted(vs, failure);
      dirErrors := faults + if failure == RaisesOSError then 1 else 0;
      raised := failure == RaisesOther;
      CountedFate(fs, patterns, prior, path, vs, failure);
    }
  }

  /** A listed directory's fate follows from the listing taken. */
  lemma CountedFate(fs: FileSystem, patterns: seq<string>, prior: seq<FileFacts>, path: string,
                    vs: seq<Outcome>, failure: Conversion)
    requires !Excluded(path, patterns) && Listable(fs, path) && Taken(prior, path, fs[path].entries, vs, failure)
    ensures FateOk(fs, patterns, prior, Pass(path, Counted(vs, failure)))
    ensures Aborts(Pass(path, Counted(vs, failure))) == (failure == RaisesOther)
    ensures FateFiles(Counted(vs, failure)) == Accepted(vs)
    ensures FateErrors(Counted(vs, failure)) == FaultCount(vs) + if failure == RaisesOSError then 1 else 0
  {
  }

  lemma NothingAdded(prior: seq<FileFacts>, h: seq<Addition>, rootLen: nat)
    ensures prior + FateFiles(Skipped) == prior && h + AdditionsOf(FateFiles(Skipped), rootLen) == h
  {
    assert AdditionsOf([], rootLen) == [];
  }

  /** The loop of mft_scanner.py:316-366 over the NTFS root and the
      reconstructed directories, left when a `FileInfo` raises an exception
      other than `OSError`. */
  method SizePass(fs: FileSystem, patterns: seq<string>, compact: Entries, root: string, tree: SizeTree)
    returns (t: Tally, errors: nat, raised: bool, events: seq<Event>, ghost ps: seq<Pass>)
    requires compact.Valid() && ParentsFirst(compact) && tree.Valid()
    modifies tree
    ensures tree.Valid() && Sized(fs, patterns, compact, root, SizeDirs(compact), ps, t, errors, events, tree.history, old(tree.history))
    ensures raised <==> ps != [] && Aborts(ps[|ps| - 1])
    ensures !raised ==> |ps| == |compact.keys| + 1
  {
    var dirs := [NtfsRootRef] + compact.keys;
    t, errors, raised, events, ps := FileStats.Start(), 0, false, [], [];
    assert tree.history == old(tree.history) + AdditionsOf([], |root|);
    var i := 0;
    while i < |dirs|
      invariant i == |ps| <= |dirs| && tree.Valid()
      invariant Sized(fs, patterns, compact, root, dirs, ps, t, errors, events, tree.history, old(tree.history))
      invariant ps != [] ==> !Aborts(ps[|ps| - 1])
      invariant !raised
    {
      ghost var p;
      t, errors, events, raised, p := SizeDir(fs, patterns, compact, root, dirs, i, tree, t, errors, events, ps, old(tree.history));
      ps := ps + [p];
      if raised {
        return;
      }
      i := i + 1;
    }
  }

  /** How `scan_mft` ends. */
  datatype MftOutcome =
    | CannotOpenVolume                               // `_open_volume` failed: `OSError` before any call
    | Raised                                         // an exception other than `OSError` left the size pass
    | Finished(tally: Tally, folders: nat, errors: nat)

  /** The progress calls before the size pass: reading the MFT at 0, those
      of the enumeration, building the tree at 0.02 and starting the sizes at
      0.03. */
  function LeadEvents(rs: seq<Response>, folders: nat): seq<Event>
  {
    var n := BatchCount(rs);
    BatchesDecode(rs, n);
    [Event(0, 0, ReadingMft, 0.0)] + EventsOf(rs, n)
    + [Event(0, 0, BuildingTree(|Enumeration(rs).keys|), 0.02), Event(0, folders, StartingSizes(folders), 0.03)]
  }

  /** The calls `scan_mft` makes before the size pass, as it makes them. */
  lemma LeadEventsAre(rs: seq<Response>, batchEvents: seq<Event>, folders: nat, events: seq<Event>)
    requires forall j | 0 <= j < BatchCount(rs) :: !Stops(rs[j])
    requires batchEvents == EventsOf(rs, BatchCount(rs))
    requires events == [Event(0, 0, ReadingMft, 0.0)] + batchEvents
                       + [Event(0, 0, BuildingTree(|Enumeration(rs).keys|), 0.02)]
                       + [Event(0, folders, StartingSizes(folders), 0.03)]
    ensures events == LeadEvents(rs, folders)
  {
  }

  /** `scan_mft(path, exclude_patterns, progress_callback, shared_hierarchy)`.
      `volumeOpens` is whether `_open_volume` gets a handle, `rs` the answers
      of the enumeration calls, `fs` the listings, `tree` the hierarchy
      written to. The reconstruction terminates only when the root record,
      if any, does not lead back into the tree (see `RootStays`). */
  method ScanMft(path: string, patterns: seq<string>, volumeOpens: bool, rs: seq<Response>, fs: FileSystem,
                 tree: SizeTree)
    returns (r: MftOutcome, events: seq<Event>, ghost compact: Entries, ghost ps: seq<Pass>)
    requires tree.Valid() && RootStays(Enumeration(rs).items)
    modifies tree
    ensures tree.Valid()
    ensures !volumeOpens ==> r == CannotOpenVolume && events == [] && tree.history == old(tree.history)
    ensures volumeOpens ==> MftScanned(path, patterns, rs, fs, compact, ps, r, events)
    ensures volumeOpens ==> tree.history == old(tree.history) + AdditionsOf(PassFiles(ps), |RStripSeps(path)|)
  {
    if !volumeOpens {
      return CannotOpenVolume, [], Empty(), [];
    }
    events := [Event(0, 0, ReadingMft, 0.0)];
    var entries, batchEvents, cursors := EnumerateMft(rs);
    assert entries == Enumeration(rs);
    events := events + batchEvents + [Event(0, 0, BuildingTree(|entries.keys|), 0.02)];
    var c, root := BuildDirPathsCompact(entries, path);
    compact := c;
    var folders := |c.keys|;
    events := events + [Event(0, folders, StartingSizes(folders), 0.03)];
    LeadEventsAre(rs, batchEvents, folders, events);
    var t, errors, raised, passEvents;
    t, errors, raised, passEvents, ps := SizePass(fs, patterns, c, root, tree);
    events := events + passEvents;
    r := if raised then Raised else Finished(t, folders, errors);
    MftReported(path, patterns, rs, fs, compact, ps, r, events, t, errors, raised, passEvents,
                tree.history, old(tree.history));
  }

  /** How the outcome and the progress calls of `scan_mft` follow from
      the reconstruction and the size pass. */
  lemma MftReported(path: string, patterns: seq<string>, rs: seq<Response>, fs: FileSystem, compact: Entries,
                    ps: seq<Pass>, r: MftOutcome, events: seq<Event>, t: Tally, errors: nat, raised: bool,
                    passEvents: seq<Event>, h: seq<Addition>, base: seq<Addition>)
    requires compact.Valid() && ParentsFirst(compact)
    requires forall k :: k in compact.items <==> k != NtfsRootRef && Reachable(Enumeration(rs).items, k)
    requires forall k | k in compact.items :: k in Enumeration(rs).items && compact.items[k] == Enumeration(rs).items[k]
    requires BfsKeys(Enumeration(rs), compact.keys)
    requires Sized(fs, patterns, compact, RStripSeps(path), SizeDirs(compact), ps, t, errors, passEvents, h, base)
    requires raised <==> ps != [] && Aborts(ps[|ps| - 1])
    requires !raised ==> |ps| == |compact.keys| + 1
    requires events == LeadEvents(rs, |compact.keys|) + passEvents
    requires r == if raised then Raised else Finished(t, |compact.keys|, errors)
    ensures MftScanned(path, patterns, rs, fs, compact, ps, r, events)
  {
  }

  /** What `scan_mft` did once the volume opened: `compact` holds exactly
      the directories reachable from the NTFS root, with the records the
      enumeration read, in the order the breadth-first walk takes them; `ps` are the passes over them, the root first; the
      progress calls are those before the size pass followed by those of the
      size pass; and the scan
      finished with the tally, the folder count and the errors of the passes
      unless the last pass aborted it. */
  ghost predicate MftScanned(path: string, patterns: seq<string>, rs: seq<Response>, fs: FileSystem,
                             compact: Entries, ps: seq<Pass>, r: MftOutcome, events: seq<Event>)
  {
    && compact.Valid() && ParentsFirst(compact)
    && (forall k :: k in compact.items <==> k != NtfsRootRef && Reachable(Enumeration(rs).items, k))
    && (forall k | k in compact.items :: k in Enumeration(rs).items && compact.items[k] == Enumeration(rs).items[k])
    && BfsKeys(Enumeration(rs), compact.keys)
    && Passed(fs, patterns, compact, RStripSeps(path), SizeDirs(compact), ps)
    && events == LeadEvents(rs, |compact.keys|) + PassEvents(ps, |compact.keys|)
    && (r.Raised? <==> ps != [] && Aborts(ps[|ps| - 1]))
    && (r.Finished? <==> !r.Raised?)
    && (r.Finished? ==>
          && |ps| == |compact.keys| + 1 && r.tally == TallyOf(PassFiles(ps))
          && r.folders == |compact.keys| && r.errors == PassErrors(ps))
  }
}
