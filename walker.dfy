/** `_scan_via_scandir` (scanner.py:143-282): a depth-first walk with an
    explicit stack of directory paths over the file system of `FsModel`. */
module Walker {
  import opened Wrappers
  import opened Text
  import opened Hierarchy
  import opened Models
  import opened Exclude
  import opened FileStats
  import opened FsModel
  import opened Accounting

  /** What the walk does with one entry of a listing. */
  datatype Outcome =
    | Skip              // excluded, a junction not followed, or a directory by its stat
    | Fault             // `is_dir` or `stat` raised: one more error
    | Descend(dir: string)
    | Accept(file: FileFacts)

  /** The decision of scanner.py:191-244 for one entry of `dir`. */
  function Judge(dir: string, e: Entry, o: ScanOptions): Outcome
  {
    var path := JoinPath(dir, e.name);
    var probe := if o.followSymlinks then e.dirFollow else e.dirNoFollow;
    if probe.ProbeFails? then Fault
    else if probe.isDir then
      if Excluded(path, o.excludePatterns) then Skip
      else if !o.followSymlinks && IsJunctionOrSymlink(e) then Skip
      else Descend(path)
    else if Excluded(path, o.excludePatterns) then Skip
    else
      var st := if o.followSymlinks then e.statFollow else e.statNoFollow;
      if st.StatFails? then Fault
      else if st.kind == Directory then Skip
      else Accept(FileFacts(path, e.name, TypeTag(e.name), st.size, st.ctime, st.mtime, st.atime, st.conversion))
  }

  /** The loop body of scanner.py:191-222 up to the point where a file is
      counted. */
  method JudgeEntry(dir: string, e: Entry, o: ScanOptions) returns (v: Outcome)
    ensures v == Judge(dir, e, o)
  {
    var path := JoinPath(dir, e.name);
    var probe := if o.followSymlinks then e.dirFollow else e.dirNoFollow;
    if probe.ProbeFails? {
      return Fault;
    }
    var excluded := MatchExclude(path, o.excludePatterns);
    if probe.isDir {
      if !excluded {
        if !o.followSymlinks && IsJunctionOrSymlink(e) {
          return Skip;
        }
        return Descend(path);
      }
      return Skip;
    }
    if excluded {
      return Skip;
    }
    var st := if o.followSymlinks then e.statFollow else e.statNoFollow;
    if st.StatFails? {
      return Fault;
    }
    if st.kind == Directory {
      return Skip;
    }
    var ext := TypeTag(e.name);
    v := Accept(FileFacts(path, e.name, ext, st.size, st.ctime, st.mtime, st.atime, st.conversion));
  }

  /** An accepted file is the entry's own path, is not excluded, and its
      stat did not say directory; the stat consulted follows links exactly
      when the options say so. */
  lemma JudgeAccept(dir: string, e: Entry, o: ScanOptions)
    requires Judge(dir, e, o).Accept?
    ensures var f := Judge(dir, e, o).file;
      var st := if o.followSymlinks then e.statFollow else e.statNoFollow;
      && f.path == JoinPath(dir, e.name) && f.name == e.name && f.tag == TypeTag(e.name)
      && !Excluded(f.path, o.excludePatterns)
      && st.StatOk? && st.kind != Directory && f.size == st.size
      && (if o.followSymlinks then e.dirFollow else e.dirNoFollow) == Answers(false)
  {
  }

  /** A subdirectory is pushed exactly when `is_dir` says so, its path is not
      excluded, and (unless links are followed) it is not a junction or
      symbolic link. */
  lemma JudgeDescend(dir: string, e: Entry, o: ScanOptions)
    ensures Judge(dir, e, o).Descend? <==>
              && (if o.followSymlinks then e.dirFollow else e.dirNoFollow) == Answers(true)
              && !Excluded(JoinPath(dir, e.name), o.excludePatterns)
              && (o.followSymlinks || !IsJunctionOrSymlink(e))
    ensures Judge(dir, e, o).Descend? ==> Judge(dir, e, o).dir == JoinPath(dir, e.name)
  {
  }

  /** The outcomes of a listing's entries, in listing order. */
  function Outcomes(dir: string, es: seq<Entry>, o: ScanOptions): seq<Outcome>
  {
    MapSeq(es, Judger(dir, o))
  }

  function Judger(dir: string, o: ScanOptions): Entry -> Outcome
  {
    e => Judge(dir, e, o)
  }

  /** `[g(x) for x in xs]` */
  function MapSeq<A, B>(xs: seq<A>, g: A -> B): (ys: seq<B>)
    ensures |ys| == |xs|
  {
    if xs == [] then [] else MapSeq(xs[..|xs| - 1], g) + [g(xs[|xs| - 1])]
  }

  lemma MapSeqSnoc<A, B>(xs: seq<A>, x: A, g: A -> B)
    ensures MapSeq(xs + [x], g) == MapSeq(xs, g) + [g(x)]
  {
    assert (xs + [x])[..|xs|] == xs;
  }

  lemma {:induction false} MapSeqAt<A, B>(xs: seq<A>, g: A -> B, k: int)
    requires 0 <= k < |xs|
    ensures MapSeq(xs, g)[k] == g(xs[k])
  {
    var n := |xs| - 1;
    if k < n {
      MapSeqAt(xs[..n], g, k);
    }
  }

  /** The files, the subdirectories and the number of errors among some
      outcomes, in order. */
  function Accepted(vs: seq<Outcome>): seq<FileFacts>
  {
    if vs == [] then [] else Accepted(vs[..|vs| - 1]) + (if vs[|vs| - 1].Accept? then [vs[|vs| - 1].file] else [])
  }

  function Pushed(vs: seq<Outcome>): seq<string>
  {
    if vs == [] then [] else Pushed(vs[..|vs| - 1]) + (if vs[|vs| - 1].Descend? then [vs[|vs| - 1].dir] else [])
  }

  function FaultCount(vs: seq<Outcome>): nat
  {
    if vs == [] then 0 else FaultCount(vs[..|vs| - 1]) + (if vs[|vs| - 1].Fault? then 1 else 0)
  }

  lemma OutcomeSnoc(vs: seq<Outcome>, v: Outcome)
    ensures Accepted(vs + [v]) == Accepted(vs) + (if v.Accept? then [v.file] else [])
    ensures Pushed(vs + [v]) == Pushed(vs) + (if v.Descend? then [v.dir] else [])
    ensures FaultCount(vs + [v]) == FaultCount(vs) + (if v.Fault? then 1 else 0)
  {
    assert (vs + [v])[..|vs|] == vs;
  }

  /** Every accepted file comes from an outcome that accepts it. */
  lemma {:induction false} AcceptedFrom(vs: seq<Outcome>, i: int)
    requires 0 <= i < |Accepted(vs)|
    ensures exists k | 0 <= k < |vs| :: vs[k] == Accept(Accepted(vs)[i])
  {
    var n := |vs| - 1;
    var init := Accepted(vs[..n]);
    if i < |init| {
      AcceptedFrom(vs[..n], i);
      var k :| 0 <= k < n && vs[..n][k] == Accept(init[i]);
    } else {
      assert vs[n] == Accept(Accepted(vs)[i]);
    }
  }

  /** Every file of a listing is one of its entries, judged acceptable, and
      so is not excluded. */
  lemma ListingFilesNotExcluded(dir: string, es: seq<Entry>, o: ScanOptions, i: int)
    requires 0 <= i < |Accepted(Outcomes(dir, es, o))|
    ensures exists k | 0 <= k < |es| :: Judge(dir, es[k], o) == Accept(Accepted(Outcomes(dir, es, o))[i])
    ensures !Excluded(Accepted(Outcomes(dir, es, o))[i].path, o.excludePatterns)
  {
    var vs := Outcomes(dir, es, o);
    AcceptedFrom(vs, i);
    var k :| 0 <= k < |vs| && vs[k] == Accept(Accepted(vs)[i]);
    MapSeqAt(es, Judger(dir, o), k);
    JudgeAccept(dir, es[k], o);
  }

  /** What one outcome does to the counters of scanner.py:193-244. */
  method TakeOutcome(v: Outcome, rootLen: nat, t: Tally, subdirs: seq<string>, faults: nat, tree: SizeTree,
                     ghost prior: seq<FileFacts>, ghost vs: seq<Outcome>, ghost base: seq<Addition>)
    returns (t': Tally, subdirs': seq<string>, faults': nat, failure: Conversion)
    requires tree.Valid() && t == TallyOf(prior + Accepted(vs))
    requires subdirs == Pushed(vs) && faults == FaultCount(vs)
    requires tree.history == base + AdditionsOf(Accepted(vs), rootLen)
    modifies tree
    ensures tree.Valid() && t' == TallyOf(prior + Accepted(vs + [v]))
    ensures subdirs' == Pushed(vs + [v]) && faults' == FaultCount(vs + [v])
    ensures tree.history == base + AdditionsOf(Accepted(vs + [v]), rootLen)
    ensures failure == if v.Accept? && RaisedAtLast(prior + Accepted(vs + [v])) then v.file.conversion else Converts
  {
    OutcomeSnoc(vs, v);
    t', subdirs', faults', failure := t, subdirs, faults, Converts;
    match v {
      case Skip =>
        KeptHistory(t, prior, vs, v, rootLen, base);
      case Fault =>
        KeptHistory(t, prior, vs, v, rootLen, base);
        faults' := faults + 1;
      case Descend(p) =>
        KeptHistory(t, prior, vs, v, rootLen, base);
        subdirs' := subdirs + [p];
      case Accept(f) =>
        t', failure := TakeFile(v, rootLen, t, tree, prior, vs, base);
    }
  }

  /** An accepted file: counted, added to the hierarchy, and the one whose
      `FileInfo` raised when it is a new largest file that cannot be built. */
  method TakeFile(v: Outcome, rootLen: nat, t: Tally, tree: SizeTree,
                  ghost prior: seq<FileFacts>, ghost vs: seq<Outcome>, ghost base: seq<Addition>)
    returns (t': Tally, failure: Conversion)
    requires v.Accept? && tree.Valid() && t == TallyOf(prior + Accepted(vs))
    requires tree.history == base + AdditionsOf(Accepted(vs), rootLen)
    modifies tree
    ensures tree.Valid() && t' == TallyOf(prior + Accepted(vs + [v]))
    ensures tree.history == base + AdditionsOf(Accepted(vs + [v]), rootLen)
    ensures failure == if RaisedAtLast(prior + Accepted(vs + [v])) then v.file.conversion else Converts
  {
    TallyStep(t, prior, vs, v);
    AcceptedHistory(vs, v, rootLen);
    AppendAssoc(base, AdditionsOf(Accepted(vs), rootLen), AdditionFor(v.file, rootLen));
    t', failure := CountFile(t, v.file, rootLen, tree);
  }

  /** An outcome that accepts no file adds nothing to the hierarchy. */
  lemma KeptHistory(t: Tally, prior: seq<FileFacts>, vs: seq<Outcome>, v: Outcome, rootLen: nat, base: seq<Addition>)
    requires !v.Accept? && t == TallyOf(prior + Accepted(vs))
    ensures t == TallyOf(prior + Accepted(vs + [v]))
    ensures base + AdditionsOf(Accepted(vs + [v]), rootLen) == base + AdditionsOf(Accepted(vs), rootLen)
  {
    OutcomeSnoc(vs, v);
    assert Accepted(vs + [v]) == Accepted(vs);
  }

  /** The counters after one more outcome, and whether it is the file whose
      `FileInfo` raised. */
  lemma TallyStep(t: Tally, prior: seq<FileFacts>, vs: seq<Outcome>, v: Outcome)
    requires t == TallyOf(prior + Accepted(vs))
    ensures (if v.Accept? then Step(t, v.file) else t) == TallyOf(prior + Accepted(vs + [v]))
    ensures v.Accept? ==>
              (RaisedAtLast(prior + Accepted(vs + [v])) <==> Replaces(t, v.file.size) && v.file.conversion != Converts)
  {
    OutcomeSnoc(vs, v);
    if v.Accept? {
      assert prior + Accepted(vs + [v]) == (prior + Accepted(vs)) + [v.file];
      TallySnoc(prior + Accepted(vs), v.file);
      RaisedAtLastSnoc(prior + Accepted(vs), v.file);
    } else {
      assert Accepted(vs + [v]) == Accepted(vs);
    }
  }

  /** One listing's worth of scanner.py:190-244: the outcomes `vs` of the
      entries taken, which are all of them unless building a `FileInfo`
      raised (`failure` other than `Converts`) and the listing was left at
      that entry. */
  method ScanListing(dir: string, es: seq<Entry>, o: ScanOptions, rootLen: nat, t: Tally, tree: SizeTree,
                     ghost prior: seq<FileFacts>)
    returns (t': Tally, subdirs: seq<string>, faults: nat, failure: Conversion, ghost vs: seq<Outcome>)
    requires tree.Valid() && t == TallyOf(prior)
    modifies tree
    ensures tree.Valid()
    ensures |vs| <= |es| && vs == Outcomes(dir, es[..|vs|], o)
    ensures failure == Converts ==> vs == Outcomes(dir, es, o)
    ensures t' == TallyOf(prior + Accepted(vs)) && subdirs == Pushed(vs) && faults == FaultCount(vs)
    ensures tree.history == old(tree.history) + AdditionsOf(Accepted(vs), rootLen)
    ensures failure != Converts ==> RaisedAtLast(prior + Accepted(vs))
  {
    t', subdirs, faults, failure, vs := t, [], 0, Converts, [];
    NoOutcomes(dir, es, o, prior, rootLen, tree.history);
    var j := 0;
    while j < |es|
      invariant 0 <= j <= |es| && |vs| == j && vs == Outcomes(dir, es[..j], o)
      invariant tree.Valid() && failure == Converts
      invariant t' == TallyOf(prior + Accepted(vs)) && subdirs == Pushed(vs) && faults == FaultCount(vs)
      invariant tree.history == old(tree.history) + AdditionsOf(Accepted(vs), rootLen)
    {
      var v := JudgeEntry(dir, es[j], o);
      OutcomesSnoc(dir, es, j, o);
      t', subdirs, faults, failure := TakeOutcome(v, rootLen, t', subdirs, faults, tree, prior, vs, old(tree.history));
      vs := vs + [v];
      if failure != Converts {
        return;
      }
      j := j + 1;
    }
    OutcomesAll(dir, es, o);
  }

  lemma NoOutcomes(dir: string, es: seq<Entry>, o: ScanOptions, prior: seq<FileFacts>, rootLen: nat, h: seq<Addition>)
    ensures Outcomes(dir, es[..0], o) == [] && prior + Accepted([]) == prior
    ensures h + AdditionsOf(Accepted([]), rootLen) == h
  {
  }

  lemma OutcomesSnoc(dir: string, es: seq<Entry>, j: int, o: ScanOptions)
    requires 0 <= j < |es|
    ensures Outcomes(dir, es[..j + 1], o) == Outcomes(dir, es[..j], o) + [Judge(dir, es[j], o)]
  {
    assert es[..j + 1] == es[..j] + [es[j]];
    MapSeqSnoc(es[..j], es[j], Judger(dir, o));
  }

  lemma OutcomesAll(dir: string, es: seq<Entry>, o: ScanOptions)
    ensures Outcomes(dir, es[..|es|], o) == Outcomes(dir, es, o)
  {
    assert es[..|es|] == es;
  }

  lemma AppendAssoc<T>(a: seq<T>, b: seq<T>, c: seq<T>)
    ensures (a + b) + c == a + (b + c)
  {
  }

  lemma AcceptedHistory(vs: seq<Outcome>, v: Outcome, rootLen: nat)
    ensures AdditionsOf(Accepted(vs + [v]), rootLen)
            == AdditionsOf(Accepted(vs), rootLen) + (if v.Accept? then AdditionFor(v.file, rootLen) else [])
  {
    OutcomeSnoc(vs, v);
    if v.Accept? {
      AdditionsSnoc(Accepted(vs), v.file, rootLen);
    } else {
      assert Accepted(vs + [v]) == Accepted(vs);
    }
  }

  /** What became of one directory popped from the stack. */
  datatype Visit =
    | TooDeep(dir: string)                        // deeper than `max_depth`: skipped, no error
    | Unlisted(dir: string)                       // `os.scandir` raised: one more error
    | Scanned(dir: string, entries: seq<Entry>)   // listed and taken entry by entry

  /** `current_dir.rstrip("\\/").count(os.sep) - root_sep_count > max_depth` */
  predicate BeyondDepth(o: ScanOptions, dir: string)
  {
    o.maxDepth.Some? && CountChar(RStripSeps(dir), '\\') - CountChar(RStripSeps(o.path), '\\') > o.maxDepth.value
  }

  /** The visit the file system dictates for a popped directory. */
  function VisitOf(fs: FileSystem, o: ScanOptions, dir: string): Visit
  {
    if BeyondDepth(o, dir) then TooDeep(dir)
    else if Listable(fs, dir) then Scanned(dir, fs[dir].entries)
    else Unlisted(dir)
  }

  function VisitFiles(v: Visit, o: ScanOptions): seq<FileFacts>
  {
    if v.Scanned? then Accepted(Outcomes(v.dir, v.entries, o)) else []
  }

  function VisitDirs(v: Visit, o: ScanOptions): seq<string>
  {
    if v.Scanned? then Pushed(Outcomes(v.dir, v.entries, o)) else []
  }

  function VisitErrors(v: Visit, o: ScanOptions): nat
  {
    match v
    case TooDeep(_) => 0
    case Unlisted(_) => 1
    case Scanned(dir, es) => FaultCount(Outcomes(dir, es, o))
  }

  /** The files accepted, the subdirectories pushed (`folder_count` of them)
      and the errors counted over a sequence of visits. */
  function TraceFiles(trace: seq<Visit>, o: ScanOptions): seq<FileFacts>
  {
    if trace == [] then [] else TraceFiles(trace[..|trace| - 1], o) + VisitFiles(trace[|trace| - 1], o)
  }

  function TraceDirs(trace: seq<Visit>, o: ScanOptions): seq<string>
  {
    if trace == [] then [] else TraceDirs(trace[..|trace| - 1], o) + VisitDirs(trace[|trace| - 1], o)
  }

  function TraceErrors(trace: seq<Visit>, o: ScanOptions): nat
  {
    if trace == [] then 0 else TraceErrors(trace[..|trace| - 1], o) + VisitErrors(trace[|trace| - 1], o)
  }

  function Popped(trace: seq<Visit>): seq<string>
  {
    if trace == [] then [] else Popped(trace[..|trace| - 1]) + [trace[|trace| - 1].dir]
  }

  function ScannedCount(trace: seq<Visit>): nat
  {
    if trace == [] then 0 else ScannedCount(trace[..|trace| - 1]) + (if trace[|trace| - 1].Scanned? then 1 else 0)
  }

  lemma TraceSnoc(trace: seq<Visit>, v: Visit, o: ScanOptions)
    ensures TraceFiles(trace + [v], o) == TraceFiles(trace, o) + VisitFiles(v, o)
    ensures TraceDirs(trace + [v], o) == TraceDirs(trace, o) + VisitDirs(v, o)
    ensures TraceErrors(trace + [v], o) == TraceErrors(trace, o) + VisitErrors(v, o)
    ensures Popped(trace + [v]) == Popped(trace) + [v.dir]
    ensures ScannedCount(trace + [v]) == ScannedCount(trace) + (if v.Scanned? then 1 else 0)
  {
    assert (trace + [v])[..|trace|] == trace;
  }

  /** Each visit is the one the file system dictates. */
  predicate Dictated(fs: FileSystem, o: ScanOptions, trace: seq<Visit>)
  {
    forall i | 0 <= i < |trace| :: trace[i] == VisitOf(fs, o, trace[i].dir)
  }

  /** The walk starts at the scan path and pops only directories an earlier
      visit pushed. */
  predicate PushedBeforePopped(o: ScanOptions, trace: seq<Visit>)
  {
    && (trace != [] ==> trace[0].dir == o.path)
    && (forall i | 1 <= i < |trace| :: trace[i].dir in TraceDirs(trace[..i], o))
  }

  /** A finished walk: every visit is dictated by the file system and pops
      the last directory of the stack the earlier visits left, the stack is
      empty at the end, every later directory was pushed before it was
      popped, and every push was popped exactly once. */
  predicate WalkOrder(fs: FileSystem, o: ScanOptions, trace: seq<Visit>)
  {
    && |trace| >= 1
    && Dictated(fs, o, trace)
    && InStackOrder(o, trace) && StackAfter(o, trace) == []
    && PushedBeforePopped(o, trace)
    && multiset(Popped(trace)) == multiset([o.path] + TraceDirs(trace, o))
  }

  lemma VisitDir(fs: FileSystem, o: ScanOptions, dir: string)
    ensures VisitOf(fs, o, dir).dir == dir
  {
  }

  lemma DictatedSnoc(fs: FileSystem, o: ScanOptions, trace: seq<Visit>, v: Visit)
    requires Dictated(fs, o, trace) && v == VisitOf(fs, o, v.dir)
    ensures Dictated(fs, o, trace + [v])
  {
  }

  /** The stack after the visits `trace`: the scan path at first; each visit
      takes the last directory off (`stack.pop()`) and appends the
      subdirectories its listing found, in listing order (`stack.extend`). */
  function StackAfter(o: ScanOptions, trace: seq<Visit>): seq<string>
  {
    if trace == [] then [o.path]
    else
      var s := StackAfter(o, trace[..|trace| - 1]);
      (if s == [] then [] else s[..|s| - 1]) + VisitDirs(trace[|trace| - 1], o)
  }

  /** `dir` is the last directory of `stack`, the one `stack.pop()` takes. */
  predicate OnTop(dir: string, stack: seq<string>)
  {
    stack != [] && stack[|stack| - 1] == dir
  }

  /** Last in, first out: each visit is of the directory on top of the
      stack that the earlier visits left. */
  predicate InStackOrder(o: ScanOptions, trace: seq<Visit>)
  {
    forall i | 0 <= i < |trace| :: OnTop(trace[i].dir, StackAfter(o, trace[..i]))
  }

  lemma StackAfterSnoc(o: ScanOptions, trace: seq<Visit>, rest: seq<string>, dir: string, v: Visit)
    requires StackAfter(o, trace) == rest + [dir]
    ensures StackAfter(o, trace + [v]) == rest + VisitDirs(v, o)
  {
    assert (trace + [v])[..|trace|] == trace;
    assert (rest + [dir])[..|rest|] == rest;
  }

  lemma InStackOrderSnoc(o: ScanOptions, trace: seq<Visit>, v: Visit)
    requires InStackOrder(o, trace) && OnTop(v.dir, StackAfter(o, trace))
    ensures InStackOrder(o, trace + [v])
  {
    var t := trace + [v];
    assert t[..|trace|] == trace;
    forall i | 0 <= i < |trace| ensures t[..i] == trace[..i] {
    }
  }

  lemma InStackOrderPrefix(o: ScanOptions, trace: seq<Visit>, k: nat)
    requires InStackOrder(o, trace) && k <= |trace|
    ensures InStackOrder(o, trace[..k])
  {
    forall i | 0 <= i < k ensures trace[..k][..i] == trace[..i] {
    }
  }

  /** After the first visit the stack holds only directories some visit
      pushed. */
  lemma {:induction false} StackAfterFrom(o: ScanOptions, trace: seq<Visit>)
    requires trace != []
    ensures forall d | d in StackAfter(o, trace) :: d in TraceDirs(trace, o)
  {
    var n := |trace| - 1;
    var s := StackAfter(o, trace[..n]);
    var init := if s == [] then [] else s[..|s| - 1];
    assert StackAfter(o, trace) == init + VisitDirs(trace[n], o);
    if n > 0 {
      StackAfterFrom(o, trace[..n]);
      forall d | d in init ensures d in TraceDirs(trace[..n], o) {
        assert d in s;
      }
    } else {
      assert trace[..n] == [];
    }
  }

  /** Popping in stack order starts at the scan path and pops only
      directories an earlier visit pushed. */
  lemma InStackOrderPushed(o: ScanOptions, trace: seq<Visit>)
    requires InStackOrder(o, trace)
    ensures PushedBeforePopped(o, trace)
  {
    if trace != [] {
      assert OnTop(trace[0].dir, StackAfter(o, trace[..0]));
      assert trace[..0] == [];
    }
    forall i | 1 <= i < |trace| ensures trace[i].dir in TraceDirs(trace[..i], o) {
      assert OnTop(trace[i].dir, StackAfter(o, trace[..i]));
      StackAfterFrom(o, trace[..i]);
    }
  }

  /** Popping in stack order pops every directory pushed, and the scan
      path, at most once: those not popped yet are on the stack. */
  lemma {:induction false} StackMultiset(o: ScanOptions, trace: seq<Visit>)
    requires InStackOrder(o, trace)
    ensures multiset(Popped(trace)) + multiset(StackAfter(o, trace)) == multiset([o.path] + TraceDirs(trace, o))
  {
    if trace != [] {
      var n := |trace| - 1;
      var p := trace[..n];
      InStackOrderPrefix(o, trace, n);
      StackMultiset(o, p);
      var s := StackAfter(o, p);
      assert OnTop(trace[n].dir, s);
      SplitLast(s);
      MultisetStep(Popped(p), s[..|s| - 1], trace[n].dir, VisitDirs(trace[n], o), o.path, TraceDirs(p, o));
    }
  }

  // Termination. Every entry path is longer than its directory, so the
  // weight of a directory, one more than the weights of its entries' paths,
  // is well defined; a pop replaces a directory by some of its entries.

  ghost function Above(fs: FileSystem, p: string): set<string>
  {
    set k | k in fs && |k| >= |p|
  }

  lemma AboveShrinks(fs: FileSystem, p: string, c: string)
    requires p in fs && |c| > |p|
    ensures Above(fs, c) < Above(fs, p)
  {
    assert p in Above(fs, p) && p !in Above(fs, c);
  }

  ghost function Weight(fs: FileSystem, p: string): nat
    decreases Above(fs, p), 1, 0
  {
    if Listable(fs, p) then 1 + EntriesWeight(fs, p, fs[p].entries) else 1
  }

  ghost function EntriesWeight(fs: FileSystem, p: string, es: seq<Entry>): nat
    requires p in fs
    decreases Above(fs, p), 0, |es|
  {
    if es == [] then 0
    else
      var c := JoinPath(p, es[|es| - 1].name);
      AboveShrinks(fs, p, c);
      EntriesWeight(fs, p, es[..|es| - 1]) + Weight(fs, c)
  }

  ghost function StackWeight(fs: FileSystem, s: seq<string>): nat
  {
    if s == [] then 0 else StackWeight(fs, s[..|s| - 1]) + Weight(fs, s[|s| - 1])
  }

  lemma {:induction false} StackWeightConcat(fs: FileSystem, a: seq<string>, b: seq<string>)
    ensures StackWeight(fs, a + b) == StackWeight(fs, a) + StackWeight(fs, b)
  {
    if b != [] {
      var n := |b| - 1;
      assert (a + b)[..|a + b| - 1] == a + b[..n];
      StackWeightConcat(fs, a, b[..n]);
    } else {
      assert a + b == a;
    }
  }

  /** The directories a listing pushes weigh no more than all its entries. */
  lemma {:induction false} PushedWeight(fs: FileSystem, d: string, es: seq<Entry>, o: ScanOptions)
    requires d in fs
    ensures StackWeight(fs, Pushed(Outcomes(d, es, o))) <= EntriesWeight(fs, d, es)
  {
    if es != [] {
      PushedWeight(fs, d, es[..|es| - 1], o);
      PushedStep(fs, d, es, o);
    }
  }

  /** The last entry of a listing pushes at most its own weight. */
  lemma PushedStep(fs: FileSystem, d: string, es: seq<Entry>, o: ScanOptions)
    requires d in fs && es != []
    ensures StackWeight(fs, Pushed(Outcomes(d, es, o)))
            <= StackWeight(fs, Pushed(Outcomes(d, es[..|es| - 1], o))) + Weight(fs, JoinPath(d, es[|es| - 1].name))
  {
    var n := |es| - 1;
    var e := es[n];
    assert es == es[..n] + [e];
    MapSeqSnoc(es[..n], e, Judger(d, o));
    var v := Judge(d, e, o);
    OutcomeSnoc(Outcomes(d, es[..n], o), v);
    JudgeDescend(d, e, o);
    StackWeightConcat(fs, Pushed(Outcomes(d, es[..n], o)), if v.Descend? then [v.dir] else []);
    if v.Descend? {
      assert StackWeight(fs, [v.dir]) == Weight(fs, v.dir) by {
        assert [v.dir][..0] == [];
      }
    }
  }

  lemma PopWeight(fs: FileSystem, rest: seq<string>, dir: string)
    ensures StackWeight(fs, rest) < StackWeight(fs, rest + [dir])
  {
    assert (rest + [dir])[..|rest|] == rest;
  }

  lemma ScannedWeight(fs: FileSystem, o: ScanOptions, rest: seq<string>, dir: string)
    requires Listable(fs, dir)
    ensures StackWeight(fs, rest + Pushed(Outcomes(dir, fs[dir].entries, o))) < StackWeight(fs, rest + [dir])
  {
    assert (rest + [dir])[..|rest|] == rest;
    StackWeightConcat(fs, rest, Pushed(Outcomes(dir, fs[dir].entries, o)));
    PushedWeight(fs, dir, fs[dir].entries, o);
  }

  /** Every event of the walk names a directory and carries a ratio that is
      at least 0 and at most 0.999. */
  predicate EventsBounded(events: seq<Event>)
  {
    forall i | 0 <= i < |events| :: events[i].status.AtPath? && 0.0 <= events[i].ratio <= 0.999
  }

  /** The progress call made after the last visit of `trace`, a listed
      directory: the files and folders counted so far, that directory, and
      the share of `total` that the sizes of the files so far make up. */
  function ListedEvent(o: ScanOptions, total: nat, trace: seq<Visit>): Event
    requires trace != []
  {
    var files := TraceFiles(trace, o);
    Event(|files|, |TraceDirs(trace, o)|, AtPath(trace[|trace| - 1].dir), WalkRatio(SizeTotal(files), total))
  }

  /** The progress calls of a walk with the visits `trace`: one after each
      listed directory, none after a skipped or unlistable one. */
  function WalkEvents(o: ScanOptions, total: nat, trace: seq<Visit>): seq<Event>
  {
    if trace == [] then []
    else
      WalkEvents(o, total, trace[..|trace| - 1])
      + (if trace[|trace| - 1].Scanned? then [ListedEvent(o, total, trace)] else [])
  }

  lemma WalkEventsSnoc(o: ScanOptions, total: nat, trace: seq<Visit>, v: Visit)
    ensures WalkEvents(o, total, trace + [v])
            == WalkEvents(o, total, trace) + (if v.Scanned? then [ListedEvent(o, total, trace + [v])] else [])
  {
    assert (trace + [v])[..|trace|] == trace;
  }

  /** One progress call per listed directory, each naming a directory and
      carrying a ratio in [0, 0.999]. */
  lemma {:induction false} WalkEventsFacts(o: ScanOptions, total: nat, trace: seq<Visit>)
    ensures |WalkEvents(o, total, trace)| == ScannedCount(trace)
    ensures EventsBounded(WalkEvents(o, total, trace))
  {
    if trace != [] {
      WalkEventsFacts(o, total, trace[..|trace| - 1]);
    }
  }

  /** One listed directory, `ScanListing` seen from the walk: the accepted
      files so far grow by those of the outcomes `vs` of the entries taken,
      which are all of them unless a `FileInfo` raised. */
  method ScanDirectory(dir: string, es: seq<Entry>, o: ScanOptions, rootLen: nat, t: Tally, tree: SizeTree,
                       ghost accepted: seq<FileFacts>, ghost base: seq<Addition>)
    returns (t': Tally, subdirs: seq<string>, faults: nat, failure: Conversion,
             ghost accepted': seq<FileFacts>, ghost vs: seq<Outcome>)
    requires tree.Valid() && t == TallyOf(accepted)
    requires tree.history == base + AdditionsOf(accepted, rootLen)
    modifies tree
    ensures tree.Valid() && t' == TallyOf(accepted')
    ensures tree.history == base + AdditionsOf(accepted', rootLen)
    ensures accepted' == accepted + Accepted(vs)
    ensures |vs| <= |es| && vs == Outcomes(dir, es[..|vs|], o)
    ensures failure != Converts ==> RaisedAtLast(accepted')
    ensures failure == Converts ==>
              && accepted' == accepted + VisitFiles(Scanned(dir, es), o)
              && subdirs == VisitDirs(Scanned(dir, es), o)
              && faults == VisitErrors(Scanned(dir, es), o)
  {
    t', subdirs, faults, failure, vs := ScanListing(dir, es, o, rootLen, t, tree, accepted);
    AdditionsConcat(accepted, Accepted(vs), rootLen);
    AppendAssoc(base, AdditionsOf(accepted, rootLen), AdditionsOf(Accepted(vs), rootLen));
    accepted' := accepted + Accepted(vs);
  }

  /** What the walk has done after the visits `trace`, with `stack` still to
      pop: the accepted files, the pushes, the errors and the progress calls
      are those of the visits, each visit is dictated by the file system and
      pops the top of the stack, `stack` is what the pops and pushes left,
      and every directory pushed (and the scan path) is either popped or on
      the stack. */
  ghost predicate Walked(fs: FileSystem, o: ScanOptions, total: nat, trace: seq<Visit>, stack: seq<string>,
                         accepted: seq<FileFacts>, folders: nat, errors: nat, events: seq<Event>)
  {
    Tallied(o, total, trace, accepted, folders, errors, events) && Ordered(fs, o, trace, stack)
  }

  /** The counters and the progress calls are those of the visits. */
  ghost predicate Tallied(o: ScanOptions, total: nat, trace: seq<Visit>,
                          accepted: seq<FileFacts>, folders: nat, errors: nat, events: seq<Event>)
  {
    && accepted == TraceFiles(trace, o)
    && folders == |TraceDirs(trace, o)| && errors == TraceErrors(trace, o)
    && events == WalkEvents(o, total, trace)
  }

  /** The visits and the stack are those the pops and pushes dictate. */
  ghost predicate Ordered(fs: FileSystem, o: ScanOptions, trace: seq<Visit>, stack: seq<string>)
  {
    Dictated(fs, o, trace) && InStackOrder(o, trace) && stack == StackAfter(o, trace)
  }

  lemma WalkedStart(fs: FileSystem, o: ScanOptions, total: nat)
    ensures Walked(fs, o, total, [], [o.path], [], 0, 0, [])
  {
  }

  lemma WalkedEnd(fs: FileSystem, o: ScanOptions, total: nat, trace: seq<Visit>,
                  accepted: seq<FileFacts>, folders: nat, errors: nat, events: seq<Event>)
    requires Walked(fs, o, total, trace, [], accepted, folders, errors, events)
    ensures WalkOrder(fs, o, trace) && EventsBounded(events)
  {
    InStackOrderPushed(o, trace);
    StackMultiset(o, trace);
    WalkEventsFacts(o, total, trace);
  }

  lemma RaisedEvents(fs: FileSystem, o: ScanOptions, total: nat, trace: seq<Visit>,
                     partial: seq<Outcome>, accepted: seq<FileFacts>, events: seq<Event>)
    requires WalkRaised(fs, o, total, trace, partial, accepted, events)
    ensures EventsBounded(events)
  {
    WalkEventsFacts(o, total, trace);
  }

  /** A walk that an exception left: the visits `trace` happened as in
      `Walked`; then the directory on top of the stack was listed and its
      entries taken up to the file whose `FileInfo` raised (`partial` are
      their outcomes), and that file is the last one accepted. */
  ghost predicate WalkRaised(fs: FileSystem, o: ScanOptions, total: nat, trace: seq<Visit>,
                             partial: seq<Outcome>, accepted: seq<FileFacts>, events: seq<Event>)
  {
    var stack := StackAfter(o, trace);
    && Dictated(fs, o, trace) && InStackOrder(o, trace)
    && events == WalkEvents(o, total, trace)
    && stack != []
    && var dir := stack[|stack| - 1];
       && !BeyondDepth(o, dir) && Listable(fs, dir)
       && |partial| <= |fs[dir].entries| && partial == Outcomes(dir, fs[dir].entries[..|partial|], o)
       && accepted == TraceFiles(trace, o) + Accepted(partial)
       && RaisedAtLast(accepted)
  }

  /** The stack loop of scanner.py:171-252. `total` is the disk's total
      size, used for the progress ratio. On `raised` the `FileInfo` of a new
      largest file could not be built and the exception leaves the walk. */
  method Walk(o: ScanOptions, fs: FileSystem, total: nat, tree: SizeTree)
    returns (t: Tally, folders: nat, errors: nat, raised: bool, events: seq<Event>,
             ghost trace: seq<Visit>, ghost accepted: seq<FileFacts>, ghost partial: seq<Outcome>)
    requires tree.Valid()
    modifies tree
    ensures tree.Valid() && t == TallyOf(accepted)
    ensures tree.history == old(tree.history) + AdditionsOf(accepted, |RStripSeps(o.path)|)
    ensures EventsBounded(events)
    ensures raised ==> WalkRaised(fs, o, total, trace, partial, accepted, events)
    ensures !raised ==>
              && WalkOrder(fs, o, trace) && accepted == TraceFiles(trace, o)
              && folders == |TraceDirs(trace, o)| && errors == TraceErrors(trace, o)
              && events == WalkEvents(o, total, trace)
  {
    var rootPath := RStripSeps(o.path);
    var rootLen := |rootPath|;
    var rootSeps := CountChar(rootPath, '\\');
    var stack := [o.path];
    t, folders, errors, raised, events, trace, accepted, partial := Start(), 0, 0, false, [], [], [], [];
    assert AdditionsOf([], rootLen) == [];
    WalkedStart(fs, o, total);
    while stack != []
      invariant tree.Valid() && t == TallyOf(accepted)
      invariant tree.history == old(tree.history) + AdditionsOf(accepted, rootLen)
      invariant Walked(fs, o, total, trace, stack, accepted, folders, errors, events)
      decreases StackWeight(fs, stack)
    {
      stack, t, folders, errors, raised, events, trace, accepted, partial :=
        WalkStep(o, fs, total, tree, rootLen, rootSeps, stack, t, folders, errors, events, trace, accepted,
                 old(tree.history));
      if raised {
        RaisedEvents(fs, o, total, trace, partial, accepted, events);
        return;
      }
    }
    WalkedEnd(fs, o, total, trace, accepted, folders, errors, events);
  }

  /** One turn of the stack loop: pop the last directory and visit it. */
  method WalkStep(o: ScanOptions, fs: FileSystem, total: nat, tree: SizeTree, rootLen: nat, rootSeps: nat,
                  stack: seq<string>, t: Tally, folders: nat, errors: nat, events: seq<Event>,
                  ghost trace: seq<Visit>, ghost accepted: seq<FileFacts>, ghost base: seq<Addition>)
    returns (stack': seq<string>, t': Tally, folders': nat, errors': nat, raised: bool, events': seq<Event>,
             ghost trace': seq<Visit>, ghost accepted': seq<FileFacts>, ghost partial: seq<Outcome>)
    requires rootLen == |RStripSeps(o.path)| && rootSeps == CountChar(RStripSeps(o.path), '\\')
    requires stack != []
    requires tree.Valid() && t == TallyOf(accepted) && tree.history == base + AdditionsOf(accepted, rootLen)
    requires Walked(fs, o, total, trace, stack, accepted, folders, errors, events)
    modifies tree
    ensures tree.Valid() && t' == TallyOf(accepted') && tree.history == base + AdditionsOf(accepted', rootLen)
    ensures raised ==> trace' == trace && WalkRaised(fs, o, total, trace, partial, accepted', events')
    ensures !raised ==>
              && trace' == trace + [VisitOf(fs, o, stack[|stack| - 1])]
              && stack' == stack[..|stack| - 1] + VisitDirs(VisitOf(fs, o, stack[|stack| - 1]), o)
              && Walked(fs, o, total, trace', stack', accepted', folders', errors', events')
              && StackWeight(fs, stack') < StackWeight(fs, stack)
  {
    t', folders', errors', raised, events', accepted', partial := t, folders, errors, false, events, accepted, [];
    var dir := stack[|stack| - 1];
    stack' := stack[..|stack| - 1];
    if o.maxDepth.Some? {
      var depth := CountChar(RStripSeps(dir), '\\') - rootSeps;
      if depth > o.maxDepth.value {
        assert BeyondDepth(o, dir);
        Skipping(fs, o, total, trace, stack, accepted, folders, errors, events);
        trace' := trace + [VisitOf(fs, o, dir)];
        return;
      }
    }
    assert !BeyondDepth(o, dir);
    if !Listable(fs, dir) {
      Skipping(fs, o, total, trace, stack, accepted, folders, errors, events);
      errors' := errors + 1;
      trace' := trace + [VisitOf(fs, o, dir)];
      return;
    }
    SplitLast(stack);
    stack', t', folders', errors', raised, events', trace', accepted', partial :=
      WalkListed(o, fs, total, tree, rootLen, stack', dir, t, folders, errors, events, trace, accepted, base);
  }

  /** Popping a directory that is too deep or cannot be listed: nothing is
      pushed, accepted or reported, and an unlisted one counts one error. */
  lemma Skipping(fs: FileSystem, o: ScanOptions, total: nat, trace: seq<Visit>, stack: seq<string>,
                 accepted: seq<FileFacts>, folders: nat, errors: nat, events: seq<Event>)
    requires stack != [] && Walked(fs, o, total, trace, stack, accepted, folders, errors, events)
    requires !VisitOf(fs, o, stack[|stack| - 1]).Scanned?
    ensures var v := VisitOf(fs, o, stack[|stack| - 1]);
            && VisitDirs(v, o) == []
            && Walked(fs, o, total, trace + [v], stack[..|stack| - 1], accepted, folders, errors + VisitErrors(v, o),
                      events)
            && StackWeight(fs, stack[..|stack| - 1]) < StackWeight(fs, stack)
  {
    var rest, dir := stack[..|stack| - 1], stack[|stack| - 1];
    var v := VisitOf(fs, o, dir);
    SplitLast(stack);
    PopWeight(fs, rest, dir);
    assert VisitDirs(v, o) == [];
    AppendNil(rest);
    AppendNil(accepted);
    AppendNil(events);
    Popping(fs, o, total, trace, rest, dir, v, accepted, folders, errors, events,
            rest, accepted, folders, errors + VisitErrors(v, o), events);
  }

  /** The rest of a turn once the popped directory `dir` could be listed:
      scan its listing, then push its subdirectories and make a progress
      call, unless building a `FileInfo` raised. */
  method WalkListed(o: ScanOptions, fs: FileSystem, total: nat, tree: SizeTree, rootLen: nat,
                    rest: seq<string>, dir: string, t: Tally, folders: nat, errors: nat, events: seq<Event>,
                    ghost trace: seq<Visit>, ghost accepted: seq<FileFacts>, ghost base: seq<Addition>)
    returns (stack': seq<string>, t': Tally, folders': nat, errors': nat, raised: bool, events': seq<Event>,
             ghost trace': seq<Visit>, ghost accepted': seq<FileFacts>, ghost partial: seq<Outcome>)
    requires rootLen == |RStripSeps(o.path)| && Listable(fs, dir) && !BeyondDepth(o, dir)
    requires tree.Valid() && t == TallyOf(accepted) && tree.history == base + AdditionsOf(accepted, rootLen)
    requires Walked(fs, o, total, trace, rest + [dir], accepted, folders, errors, events)
    modifies tree
    ensures tree.Valid() && t' == TallyOf(accepted') && tree.history == base + AdditionsOf(accepted', rootLen)
    ensures raised ==> trace' == trace && WalkRaised(fs, o, total, trace, partial, accepted', events')
    ensures !raised ==>
              && trace' == trace + [VisitOf(fs, o, dir)]
              && stack' == rest + VisitDirs(VisitOf(fs, o, dir), o)
              && events' == events + [ListedEvent(o, total, trace')]
              && Walked(fs, o, total, trace', stack', accepted', folders', errors', events')
              && StackWeight(fs, stack') < StackWeight(fs, rest + [dir])
  {
    ghost var v := VisitOf(fs, o, dir);
    var es := fs[dir].entries;
    assert v == Scanned(dir, es);
    var subdirs, faults, failure;
    t', subdirs, faults, failure, accepted', partial := ScanDirectory(dir, es, o, rootLen, t, tree, accepted, base);
    stack', folders', errors', raised, events', trace' := rest, folders, errors, false, events, trace;
    if failure != Converts {
      raised := true;
      return;
    }
    var e := Event(t'.fileCount, folders + |subdirs|, AtPath(dir), WalkRatio(t'.scannedSize, total));
    ListedStep(fs, o, total, trace, rest, dir, accepted, folders, errors, events, accepted', subdirs, faults, e);
    folders' := folders + |subdirs|;
    errors' := errors + faults;
    stack' := rest + subdirs;
    trace' := trace + [v];
    events' := events + [e];
  }

  /** Recording the visit of a listed directory with its progress call `e`
      keeps `Walked` and lightens the stack. */
  lemma ListedStep(fs: FileSystem, o: ScanOptions, total: nat, trace: seq<Visit>, rest: seq<string>, dir: string,
                   accepted: seq<FileFacts>, folders: nat, errors: nat, events: seq<Event>,
                   accepted': seq<FileFacts>, subdirs: seq<string>, faults: nat, e: Event)
    requires Listable(fs, dir) && !BeyondDepth(o, dir)
    requires Walked(fs, o, total, trace, rest + [dir], accepted, folders, errors, events)
    requires accepted' == accepted + VisitFiles(Scanned(dir, fs[dir].entries), o)
    requires subdirs == VisitDirs(Scanned(dir, fs[dir].entries), o)
    requires faults == VisitErrors(Scanned(dir, fs[dir].entries), o)
    requires e == Event(|accepted'|, folders + |subdirs|, AtPath(dir), WalkRatio(SizeTotal(accepted'), total))
    ensures e == ListedEvent(o, total, trace + [Scanned(dir, fs[dir].entries)])
    ensures Walked(fs, o, total, trace + [Scanned(dir, fs[dir].entries)], rest + subdirs, accepted',
                   folders + |subdirs|, errors + faults, events + [e])
    ensures StackWeight(fs, rest + subdirs) < StackWeight(fs, rest + [dir])
  {
    var v := VisitOf(fs, o, dir);
    assert v == Scanned(dir, fs[dir].entries);
    ScannedWeight(fs, o, rest, dir);
    ListedEventIs(o, total, trace, v, accepted, folders, accepted', subdirs, e);
    Popping(fs, o, total, trace, rest, dir, v, accepted, folders, errors, events,
            rest + subdirs, accepted', folders + |subdirs|, errors + faults, events + [e]);
  }

  lemma ListedEventIs(o: ScanOptions, total: nat, trace: seq<Visit>, v: Visit, accepted: seq<FileFacts>,
                      folders: nat, accepted': seq<FileFacts>, subdirs: seq<string>, e: Event)
    requires accepted == TraceFiles(trace, o) && folders == |TraceDirs(trace, o)|
    requires accepted' == accepted + VisitFiles(v, o) && subdirs == VisitDirs(v, o)
    requires e == Event(|accepted'|, folders + |subdirs|, AtPath(v.dir), WalkRatio(SizeTotal(accepted'), total))
    ensures e == ListedEvent(o, total, trace + [v])
  {
    TraceSnoc(trace, v, o);
  }

  /** Popping `dir` and recording its visit keeps `Walked`. */
  lemma Popping(fs: FileSystem, o: ScanOptions, total: nat, trace: seq<Visit>, stack: seq<string>, dir: string,
                v: Visit, accepted: seq<FileFacts>, folders: nat, errors: nat, events: seq<Event>,
                stack': seq<string>, accepted': seq<FileFacts>, folders': nat, errors': nat, events': seq<Event>)
    requires v == VisitOf(fs, o, dir)
    requires Walked(fs, o, total, trace, stack + [dir], accepted, folders, errors, events)
    requires stack' == stack + VisitDirs(v, o) && accepted' == accepted + VisitFiles(v, o)
    requires folders' == folders + |VisitDirs(v, o)| && errors' == errors + VisitErrors(v, o)
    requires events' == events + (if v.Scanned? then [ListedEvent(o, total, trace + [v])] else [])
    ensures Walked(fs, o, total, trace + [v], stack', accepted', folders', errors', events')
  {
    TalliedStep(o, total, trace, v, accepted, folders, errors, events, accepted', folders', errors', events');
    OrderedStep(fs, o, trace, stack, dir, v, stack');
  }

  lemma TalliedStep(o: ScanOptions, total: nat, trace: seq<Visit>, v: Visit,
                    accepted: seq<FileFacts>, folders: nat, errors: nat, events: seq<Event>,
                    accepted': seq<FileFacts>, folders': nat, errors': nat, events': seq<Event>)
    requires Tallied(o, total, trace, accepted, folders, errors, events)
    requires accepted' == accepted + VisitFiles(v, o)
    requires folders' == folders + |VisitDirs(v, o)| && errors' == errors + VisitErrors(v, o)
    requires events' == events + (if v.Scanned? then [ListedEvent(o, total, trace + [v])] else [])
    ensures Tallied(o, total, trace + [v], accepted', folders', errors', events')
  {
    TraceSnoc(trace, v, o);
    WalkEventsSnoc(o, total, trace, v);
  }

  lemma OrderedStep(fs: FileSystem, o: ScanOptions, trace: seq<Visit>, stack: seq<string>, dir: string,
                    v: Visit, stack': seq<string>)
    requires v == VisitOf(fs, o, dir)
    requires Ordered(fs, o, trace, stack + [dir])
    requires stack' == stack + VisitDirs(v, o)
    ensures Ordered(fs, o, trace + [v], stack')
  {
    StackAfterSnoc(o, trace, stack, dir, v);
    VisitDir(fs, o, dir);
    DictatedSnoc(fs, o, trace, v);
    InStackOrderSnoc(o, trace, v);
  }

  lemma MultisetStep<T>(popped: seq<T>, stack: seq<T>, x: T, pushed: seq<T>, r: T, q: seq<T>)
    requires multiset(popped) + multiset(stack + [x]) == multiset([r] + q)
    ensures multiset(popped + [x]) + multiset(stack + pushed) == multiset([r] + (q + pushed))
  {
    assert [r] + (q + pushed) == ([r] + q) + pushed;
  }

  lemma SplitLast<T>(s: seq<T>)
    requires s != []
    ensures s == s[..|s| - 1] + [s[|s| - 1]]
  {
  }

  lemma AppendNil<T>(s: seq<T>)
    ensures s + [] == s
  {
  }

  /** Every pushed directory comes from an outcome that descends into it. */
  lemma {:induction false} PushedFrom(vs: seq<Outcome>, i: int)
    requires 0 <= i < |Pushed(vs)|
    ensures exists k | 0 <= k < |vs| :: vs[k] == Descend(Pushed(vs)[i])
  {
    var n := |vs| - 1;
    var init := Pushed(vs[..n]);
    if i < |init| {
      PushedFrom(vs[..n], i);
      var k :| 0 <= k < n && vs[..n][k] == Descend(init[i]);
    } else {
      assert vs[n] == Descend(Pushed(vs)[i]);
    }
  }

  /** Every subdirectory a listing pushes is the path of one of its entries
      and is not excluded. */
  lemma ListingDirsNotExcluded(dir: string, es: seq<Entry>, o: ScanOptions, i: int)
    requires 0 <= i < |Pushed(Outcomes(dir, es, o))|
    ensures exists k | 0 <= k < |es| :: Pushed(Outcomes(dir, es, o))[i] == JoinPath(dir, es[k].name)
    ensures !Excluded(Pushed(Outcomes(dir, es, o))[i], o.excludePatterns)
  {
    var vs := Outcomes(dir, es, o);
    PushedFrom(vs, i);
    var k :| 0 <= k < |vs| && vs[k] == Descend(Pushed(vs)[i]);
    MapSeqAt(es, Judger(dir, o), k);
    JudgeDescend(dir, es[k], o);
  }

  /** No file the walk accepts is excluded. */
  lemma {:induction false} TraceFilesNotExcluded(trace: seq<Visit>, o: ScanOptions, i: int)
    requires 0 <= i < |TraceFiles(trace, o)|
    ensures !Excluded(TraceFiles(trace, o)[i].path, o.excludePatterns)
  {
    var n := |trace| - 1;
    var init := TraceFiles(trace[..n], o);
    if i < |init| {
      TraceFilesNotExcluded(trace[..n], o, i);
    } else {
      var v := trace[n];
      assert TraceFiles(trace, o)[i] == Accepted(Outcomes(v.dir, v.entries, o))[i - |init|];
      ListingFilesNotExcluded(v.dir, v.entries, o, i - |init|);
    }
  }

  /** No directory the walk pushes is excluded. */
  lemma {:induction false} TraceDirsNotExcluded(trace: seq<Visit>, o: ScanOptions, i: int)
    requires 0 <= i < |TraceDirs(trace, o)|
    ensures !Excluded(TraceDirs(trace, o)[i], o.excludePatterns)
  {
    var n := |trace| - 1;
    var init := TraceDirs(trace[..n], o);
    if i < |init| {
      TraceDirsNotExcluded(trace[..n], o, i);
    } else {
      var v := trace[n];
      assert TraceDirs(trace, o)[i] == Pushed(Outcomes(v.dir, v.entries, o))[i - |init|];
      ListingDirsNotExcluded(v.dir, v.entries, o, i - |init|);
    }
  }

  /** Apart from the scan path itself, the walk never visits an excluded
      directory, so nothing below one is counted. */
  lemma WalkSkipsExcluded(fs: FileSystem, o: ScanOptions, trace: seq<Visit>, i: int)
    requires WalkOrder(fs, o, trace) && 1 <= i < |trace|
    ensures !Excluded(trace[i].dir, o.excludePatterns)
  {
    var dirs := TraceDirs(trace[..i], o);
    assert trace[i].dir in dirs;
    var k :| 0 <= k < |dirs| && dirs[k] == trace[i].dir;
    TraceDirsNotExcluded(trace[..i], o, k);
  }

  /** Two walks whose visits are dictated and in stack order agree on as
      many visits as both have. */
  lemma {:induction false} TracesAgree(fs: FileSystem, o: ScanOptions, t1: seq<Visit>, t2: seq<Visit>, k: nat)
    requires Dictated(fs, o, t1) && InStackOrder(o, t1)
    requires Dictated(fs, o, t2) && InStackOrder(o, t2)
    requires k <= |t1| && k <= |t2|
    ensures t1[..k] == t2[..k]
  {
    if k > 0 {
      var j := k - 1;
      TracesAgree(fs, o, t1, t2, j);
      VisitAt(fs, o, t1, j);
      VisitAt(fs, o, t2, j);
      assert t1[j] == t2[j];
      SplitAt(t1, j);
      SplitAt(t2, j);
    }
  }

  /** The `j`-th visit of a dictated walk in stack order is fixed by the
      visits before it. */
  lemma VisitAt(fs: FileSystem, o: ScanOptions, t: seq<Visit>, j: nat)
    requires Dictated(fs, o, t) && InStackOrder(o, t) && j < |t|
    ensures var s := StackAfter(o, t[..j]); s != [] && t[j] == VisitOf(fs, o, s[|s| - 1])
  {
    assert OnTop(t[j].dir, StackAfter(o, t[..j]));
  }

  lemma SplitAt<T>(t: seq<T>, j: nat)
    requires j < |t|
    ensures t[..j + 1] == t[..j] + [t[j]]
  {
  }

  /** A walk that emptied its stack cannot be followed by a further visit. */
  lemma ShorterWalkEqual(fs: FileSystem, o: ScanOptions, t1: seq<Visit>, t2: seq<Visit>)
    requires Dictated(fs, o, t1) && InStackOrder(o, t1) && StackAfter(o, t1) == []
    requires Dictated(fs, o, t2) && InStackOrder(o, t2) && |t1| <= |t2|
    ensures t1 == t2
  {
    TracesAgree(fs, o, t1, t2, |t1|);
    assert t1[..|t1|] == t1;
    if |t1| < |t2| {
      VisitAt(fs, o, t2, |t1|);
      assert false;
    }
    assert t2[..|t2|] == t2;
  }

  /** A finished walk is fixed by the file system and the options: two
      traces that both satisfy `WalkOrder` are equal, so which files the
      walk accepts, in which order, and which progress calls it makes are
      determined. */
  lemma WalkOrderUnique(fs: FileSystem, o: ScanOptions, t1: seq<Visit>, t2: seq<Visit>)
    requires WalkOrder(fs, o, t1) && WalkOrder(fs, o, t2)
    ensures t1 == t2
  {
    if |t1| <= |t2| {
      ShorterWalkEqual(fs, o, t1, t2);
    } else {
      ShorterWalkEqual(fs, o, t2, t1);
    }
  }
}
