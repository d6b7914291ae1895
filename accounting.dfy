/** What both size loops do with one accepted file (scanner.py:224-244 and
    mft_scanner.py:338-358): count it, add its size to the hierarchy under
    its path relative to the root, and consider it for the largest file. */
module Accounting {
  import opened Wrappers
  import opened Dicts
  import opened Text
  import opened Hierarchy
  import opened Models
  import opened FileStats

  /** `entry.path[root_len:].lstrip("\\/")` */
  function RelPath(path: string, rootLen: nat): string
  {
    LStripSeps(Drop(path, rootLen))
  }

  /** The hierarchy addition one file makes: none when its relative path is
      empty. */
  function AdditionFor(f: FileFacts, rootLen: nat): seq<Addition>
  {
    var rel := RelPath(f.path, rootLen);
    if rel != [] then [Addition(Components(rel), f.size)] else []
  }

  /** The hierarchy additions of the files, in order. */
  function AdditionsOf(files: seq<FileFacts>, rootLen: nat): seq<Addition>
  {
    FlatMap(files, Adder(rootLen))
  }

  function Adder(rootLen: nat): FileFacts -> seq<Addition>
  {
    f => AdditionFor(f, rootLen)
  }

  /** `g(xs[0]) + g(xs[1]) + ...` */
  function FlatMap<A, B>(xs: seq<A>, g: A -> seq<B>): seq<B>
  {
    if xs == [] then [] else FlatMap(xs[..|xs| - 1], g) + g(xs[|xs| - 1])
  }

  lemma {:induction false} FlatMapConcat<A, B>(a: seq<A>, b: seq<A>, g: A -> seq<B>)
    ensures FlatMap(a + b, g) == FlatMap(a, g) + FlatMap(b, g)
  {
    if b != [] {
      var n := |b| - 1;
      assert (a + b)[..|a + b| - 1] == a + b[..n];
      FlatMapConcat(a, b[..n], g);
    } else {
      assert a + b == a;
    }
  }

  lemma AdditionsConcat(a: seq<FileFacts>, b: seq<FileFacts>, rootLen: nat)
    ensures AdditionsOf(a + b, rootLen) == AdditionsOf(a, rootLen) + AdditionsOf(b, rootLen)
  {
    FlatMapConcat(a, b, Adder(rootLen));
  }

  lemma AdditionsSnoc(files: seq<FileFacts>, f: FileFacts, rootLen: nat)
    ensures AdditionsOf(files + [f], rootLen) == AdditionsOf(files, rootLen) + AdditionFor(f, rootLen)
  {
    assert (files + [f])[..|files|] == files;
  }

  /** The sizes the hierarchy receives are the scanned bytes of the files
      whose relative path is not empty; a file directly named by the root
      path adds nothing. */
  lemma AdditionsSize(files: seq<FileFacts>, rootLen: nat)
    ensures SizeSum(AdditionsOf(files, rootLen)) <= SizeTotal(files)
    ensures (forall i | 0 <= i < |files| :: RelPath(files[i].path, rootLen) != []) ==>
              SizeSum(AdditionsOf(files, rootLen)) == SizeTotal(files)
  {
    AdditionsAtMost(files, rootLen);
    if forall i | 0 <= i < |files| :: RelPath(files[i].path, rootLen) != [] {
      AdditionsExact(files, rootLen);
    }
  }

  lemma {:induction false} AdditionsAtMost(files: seq<FileFacts>, rootLen: nat)
    ensures SizeSum(AdditionsOf(files, rootLen)) <= SizeTotal(files)
  {
    if files != [] {
      var n := |files| - 1;
      AdditionsAtMost(files[..n], rootLen);
      AdditionStep(files, rootLen);
    }
  }

  lemma {:induction false} AdditionsExact(files: seq<FileFacts>, rootLen: nat)
    requires forall i | 0 <= i < |files| :: RelPath(files[i].path, rootLen) != []
    ensures SizeSum(AdditionsOf(files, rootLen)) == SizeTotal(files)
  {
    if files != [] {
      var n := |files| - 1;
      assert forall i | 0 <= i < n :: files[..n][i] == files[i];
      AdditionsExact(files[..n], rootLen);
      AdditionStep(files, rootLen);
    }
  }

  /** The last file's share of the additions. */
  lemma AdditionStep(files: seq<FileFacts>, rootLen: nat)
    requires files != []
    ensures var n := |files| - 1;
      SizeSum(AdditionsOf(files, rootLen))
      == SizeSum(AdditionsOf(files[..n], rootLen)) + SizeSum(AdditionFor(files[n], rootLen))
    ensures SizeTotal(files) == SizeTotal(files[..|files| - 1]) + files[|files| - 1].size
    ensures var f := files[|files| - 1];
      SizeSum(AdditionFor(f, rootLen)) == if RelPath(f.path, rootLen) != [] then f.size else 0
  {
    var n := |files| - 1;
    assert AdditionsOf(files, rootLen) == AdditionsOf(files[..n], rootLen) + AdditionFor(files[n], rootLen);
    SizeSumConcat(AdditionsOf(files[..n], rootLen), AdditionFor(files[n], rootLen));
    AdditionForSize(files[n], rootLen);
  }

  lemma AdditionForSize(f: FileFacts, rootLen: nat)
    ensures SizeSum(AdditionFor(f, rootLen)) == if RelPath(f.path, rootLen) != [] then f.size else 0
  {
    var a := AdditionFor(f, rootLen);
    if a != [] {
      assert a[..0] == [];
    }
  }

  lemma {:induction false} SizeSumConcat(a: seq<Addition>, b: seq<Addition>)
    ensures SizeSum(a + b) == SizeSum(a) + SizeSum(b)
  {
    if b != [] {
      var n := |b| - 1;
      assert (a + b)[..|a + b| - 1] == a + b[..n];
      SizeSumConcat(a, b[..n]);
    } else {
      assert a + b == a;
    }
  }

  /** Counts one accepted file. `failure` says whether building the
      `FileInfo` of a new largest file raised, and which kind of exception;
      the counters and the hierarchy are updated before that point. */
  method CountFile(t: Tally, f: FileFacts, rootLen: nat, tree: SizeTree) returns (r: Tally, failure: Conversion)
    requires t.typeStats.Valid() && tree.Valid()
    modifies tree
    ensures tree.Valid()
    ensures r == Step(t, f)
    ensures failure == if Replaces(t, f.size) then f.conversion else Converts
    ensures tree.history == old(tree.history) + AdditionFor(f, rootLen)
  {
    var fileCount := t.fileCount + 1;
    var scannedSize := t.scannedSize + f.size;
    var typeStats := CountTypeIn(t.typeStats, f.tag, f.size);
    var rel := LStripSeps(Drop(f.path, rootLen));
    AdditionForIs(f, rootLen, rel);
    AddFileSize(rel, f.size, tree);
    var largest;
    largest, failure := LargestAfter(t, f);
    r := Tally(fileCount, scannedSize, typeStats, largest);
    StepParts(t, f);
  }

  /** Step(t, f) taken apart. */
  lemma StepParts(t: Tally, f: FileFacts)
    requires t.typeStats.Valid()
    ensures Step(t, f) == Tally(t.fileCount + 1, t.scannedSize + f.size, CountType(t.typeStats, f.tag, f.size),
                                if Replaces(t, f.size) && f.conversion == Converts then Some(Record(f)) else t.largest)
  {
  }

  /** `te = file_type_stats.setdefault(ext, ...); te["total_size"] += size; te["file_count"] += 1` */
  method CountTypeIn(d: Dict<string, TypeStat>, tag: string, size: nat) returns (d': Dict<string, TypeStat>)
    requires d.Valid()
    ensures d' == CountType(d, tag, size)
  {
    var entry := d.Get(tag, TypeStat(0, 0));
    d' := d.Put(tag, TypeStat(entry.totalSize + size, entry.fileCount + 1));
  }

  /** `if largest_file is None or size > largest_file.size: largest_file = FileInfo(...)`,
      where building the `FileInfo` may raise. */
  method LargestAfter(t: Tally, f: FileFacts) returns (largest: Option<FileInfo>, failure: Conversion)
    ensures largest == if Replaces(t, f.size) && f.conversion == Converts then Some(Record(f)) else t.largest
    ensures failure == if Replaces(t, f.size) then f.conversion else Converts
  {
    largest := t.largest;
    failure := Converts;
    if largest == None || f.size > largest.value.size {
      if f.conversion == Converts {
        largest := Some(Record(f));
      } else {
        failure := f.conversion;
      }
    }
  }

  /** `if rel: _add_size_to_hierarchy(hierarchy, rel, size)` */
  method AddFileSize(rel: string, size: nat, tree: SizeTree)
    requires tree.Valid()
    modifies tree
    ensures tree.Valid()
    ensures tree.history == old(tree.history) + if rel != [] then [Addition(Components(rel), size)] else []
  {
    if rel != [] {
      tree.AddSize(rel, size);
    }
  }

  lemma AdditionForIs(f: FileFacts, rootLen: nat, rel: string)
    requires rel == RelPath(f.path, rootLen)
    ensures AdditionFor(f, rootLen) == if rel != [] then [Addition(Components(rel), f.size)] else []
  {
  }

  lemma RaisedAtLastSnoc(files: seq<FileFacts>, f: FileFacts)
    ensures RaisedAtLast(files + [f]) <==> Replaces(TallyOf(files), f.size) && f.conversion != Converts
  {
    assert (files + [f])[..|files|] == files;
  }

  /** The file that ends `files` made building its `FileInfo` raise. */
  predicate RaisedAtLast(files: seq<FileFacts>)
  {
    && files != []
    && Replaces(TallyOf(files[..|files| - 1]), files[|files| - 1].size)
    && files[|files| - 1].conversion != Converts
  }
}
