/** The per-file statistics both scan loops keep (scanner.py and the size
    pass of mft_scanner.py): the file count, the bytes counted, the counters
    per extension and the largest file. */
module FileStats {
  import opened Wrappers
  import opened Dicts
  import opened Text
  import opened Models

  /** `os.path.splitext(name)[1]` with Windows separators: the suffix from
      the last dot of the last path component, provided a character other
      than a dot comes before that dot in the component (so ".bashrc" has
      none). */
  function Extension(name: string): string
  {
    var sep := LastSep(name);
    var dot := LastIndexOf(name, '.');
    if dot > sep && (exists k | sep + 1 <= k < dot :: name[k] != '.') then name[dot..] else []
  }

  /** The index of the last separator of `name`, or -1. */
  function LastSep(name: string): (r: int)
    ensures -1 <= r < |name| && (r >= 0 ==> IsSep(name[r]))
    ensures forall i | r < i < |name| :: !IsSep(name[i])
  {
    Max(LastIndexOf(name, '\\'), LastIndexOf(name, '/'))
  }

  /** The extension is empty or a dot followed by neither dots nor
      separators, and ends the name. */
  lemma ExtensionForm(name: string)
    ensures var ext := Extension(name);
      && (ext == [] || (ext[0] == '.' && |ext| <= |name| && ext == name[|name| - |ext|..]))
      && (forall i | 1 <= i < |ext| :: ext[i] != '.' && !IsSep(ext[i]))
  {
    var sep := LastSep(name);
    var dot := LastIndexOf(name, '.');
    if Extension(name) != [] {
      assert Extension(name) == name[dot..];
    }
  }

  /** The extension is not empty exactly when a dot follows some character
      other than a dot within the last component (the part of the name after
      the last separator). */
  lemma ExtensionPresent(name: string)
    ensures Extension(name) != [] <==>
              exists k, j | 0 <= k < j < |name| :: name[k] != '.' && name[j] == '.' && NoSep(name[k..])
  {
    var sep := LastSep(name);
    var dot := LastIndexOf(name, '.');
    if dot > sep && (exists k | sep + 1 <= k < dot :: name[k] != '.') {
      ExtensionWitness(name, sep, dot);
    } else {
      ExtensionAbsent(name, sep, dot);
    }
  }

  predicate NoSep(s: string)
  {
    forall i | 0 <= i < |s| :: !IsSep(s[i])
  }

  function Max(a: int, b: int): int
  {
    if a < b then b else a
  }

  lemma ExtensionWitness(name: string, sep: int, dot: int)
    requires sep == LastSep(name)
    requires dot == LastIndexOf(name, '.') && dot > sep
    requires exists k | sep + 1 <= k < dot :: name[k] != '.'
    ensures exists k, j | 0 <= k < j < |name| :: name[k] != '.' && name[j] == '.' && NoSep(name[k..])
  {
    var k :| sep + 1 <= k < dot && name[k] != '.';
    assert NoSep(name[k..]);
    assert name[dot] == '.';
  }

  lemma ExtensionAbsent(name: string, sep: int, dot: int)
    requires sep == LastSep(name)
    requires dot == LastIndexOf(name, '.')
    requires !(dot > sep && exists k | sep + 1 <= k < dot :: name[k] != '.')
    ensures !exists k, j | 0 <= k < j < |name| :: name[k] != '.' && name[j] == '.' && NoSep(name[k..])
  {
    forall k, j | 0 <= k < j < |name| && name[k] != '.' && name[j] == '.' && NoSep(name[k..])
      ensures false
    {
    }
  }

  /** `os.path.splitext(name)[1].lower() or "unknown"` */
  function TypeTag(name: string): string
  {
    var e := Lower(Extension(name));
    if e == [] then "unknown" else e
  }

  /** The tag is "unknown" exactly when the name has no extension, and the
      lowercased extension otherwise. */
  lemma TypeTagShape(name: string)
    ensures TypeTag(name) == "unknown" <==> Extension(name) == []
    ensures TypeTag(name) != "unknown" ==> TypeTag(name) == Lower(Extension(name))
  {
    ExtensionForm(name);
    if Extension(name) != [] {
      assert Lower(Extension(name))[0] == '.';
    }
  }

  /** Whether `datetime.fromtimestamp` accepts the three times of a stat
      result, or which kind of exception it raises. Only the size pass of
      mft_scanner.py catches the `OSError` kind. */
  datatype Conversion = Converts | RaisesOSError | RaisesOther

  /** What the loops know of a file they accept: its path, name, type tag
      (`ext`, which the loops compute as `TypeTag(name)`), `st_size` and
      times. */
  datatype FileFacts = FileFacts(
    path: string, name: string, tag: string, size: nat,
    ctime: Timestamp, mtime: Timestamp, atime: Timestamp, conversion: Conversion)

  datatype Tally = Tally(
    fileCount: nat,
    scannedSize: nat,
    typeStats: Dict<string, TypeStat>,
    largest: Option<FileInfo>)

  function Start(): (t: Tally)
    ensures t.fileCount == 0 && t.scannedSize == 0 && t.largest == None
    ensures t.typeStats.Valid() && t.typeStats.keys == []
  {
    Tally(0, 0, Empty(), None)
  }

  /** The `FileInfo` built for a new largest file. */
  function Record(f: FileFacts): FileInfo
  {
    FileInfo(f.path, f.name, f.size, f.ctime, f.mtime, f.atime, f.tag, false, "", "")
  }

  /** Whether `f` takes the place of the largest file so far: only a
      strictly greater size does. */
  predicate Replaces(t: Tally, size: int)
  {
    t.largest == None || size > t.largest.value.size
  }

  /** The counters after one accepted file, before the largest file is
      considered: one more file, its size counted, and its extension's
      counters created if missing (`setdefault`) and increased. */
  function Bump(t: Tally, f: FileFacts): (r: Tally)
    requires t.typeStats.Valid()
    ensures r.typeStats.Valid() && r.largest == t.largest
  {
    Tally(t.fileCount + 1, t.scannedSize + f.size, CountType(t.typeStats, f.tag, f.size), t.largest)
  }

  /** `te = file_type_stats.setdefault(ext, {...}); te["total_size"] += size;
      te["file_count"] += 1` */
  function CountType(d: Dict<string, TypeStat>, tag: string, size: nat): (r: Dict<string, TypeStat>)
    requires d.Valid()
    ensures r.Valid()
  {
    var o := d.Get(tag, TypeStat(0, 0));
    d.Put(tag, TypeStat(o.totalSize + size, o.fileCount + 1))
  }

  /** One accepted file. When `f` would become the largest file but building
      its `FileInfo` raises, the largest file stays as it was (the exception
      leaves the loop after the counters were updated). */
  function Step(t: Tally, f: FileFacts): (r: Tally)
    requires t.typeStats.Valid()
    ensures r.typeStats.Valid()
  {
    var b := Bump(t, f);
    if Replaces(t, f.size) && f.conversion == Converts then b.(largest := Some(Record(f))) else b
  }

  function SizeTotal(files: seq<FileFacts>): nat
  {
    if files == [] then 0 else SizeTotal(files[..|files| - 1]) + files[|files| - 1].size
  }

  /** The counters after the accepted files `files`, in order. */
  function TallyOf(files: seq<FileFacts>): (t: Tally)
    ensures t.typeStats.Valid()
    ensures t.fileCount == |files| && t.scannedSize == SizeTotal(files)
  {
    if files == [] then Start() else Step(TallyOf(files[..|files| - 1]), files[|files| - 1])
  }

  lemma TallySnoc(files: seq<FileFacts>, f: FileFacts)
    ensures TallyOf(files + [f]) == Step(TallyOf(files), f)
  {
    assert (files + [f])[..|files|] == files;
  }

  /** The number and the bytes of the files in `files` whose tag is `tag`. */
  function CountOfTag(files: seq<FileFacts>, tag: string): nat
  {
    if files == [] then 0
    else CountOfTag(files[..|files| - 1], tag) + (if files[|files| - 1].tag == tag then 1 else 0)
  }

  function SizeOfTag(files: seq<FileFacts>, tag: string): nat
  {
    if files == [] then 0
    else SizeOfTag(files[..|files| - 1], tag) + (if files[|files| - 1].tag == tag then files[|files| - 1].size else 0)
  }

  /** Whether some file in `files` has the tag `tag`. */
  predicate HasTag(files: seq<FileFacts>, tag: string)
  {
    files != [] && (HasTag(files[..|files| - 1], tag) || files[|files| - 1].tag == tag)
  }

  /** `file_type_stats` holds a key for exactly the tags of the accepted
      files, and each key's counters are the number and the bytes of the
      files with that tag. */
  lemma {:induction false} TypeStatsContents(files: seq<FileFacts>, tag: string)
    ensures tag in TallyOf(files).typeStats.items <==> HasTag(files, tag)
    ensures tag in TallyOf(files).typeStats.items ==>
              TallyOf(files).typeStats.items[tag] == TypeStat(SizeOfTag(files, tag), CountOfTag(files, tag))
  {
    if files != [] {
      var init := files[..|files| - 1];
      var f := files[|files| - 1];
      var d := TallyOf(init).typeStats;
      TypeStatsContents(init, tag);
      assert TallyOf(files).typeStats == CountType(d, f.tag, f.size);
      CountTypeAt(d, f.tag, f.size, tag);
      if !HasTag(init, tag) {
        TagAbsentCounts(init, tag);
      }
    }
  }

  lemma {:induction false} HasTagIff(files: seq<FileFacts>, tag: string)
    ensures HasTag(files, tag) <==> exists i | 0 <= i < |files| :: files[i].tag == tag
  {
    if files != [] {
      var init := files[..|files| - 1];
      HasTagIff(init, tag);
      assert forall i | 0 <= i < |init| :: init[i] == files[i];
    }
  }

  lemma {:induction false} TagAbsentCounts(files: seq<FileFacts>, tag: string)
    requires !HasTag(files, tag)
    ensures CountOfTag(files, tag) == 0 && SizeOfTag(files, tag) == 0
  {
    if files != [] {
      TagAbsentCounts(files[..|files| - 1], tag);
    }
  }

  /** The sum of one counter over the keys `keys`. */
  function StatSum(keys: seq<string>, items: map<string, TypeStat>, sizes: bool): int
    requires forall i | 0 <= i < |keys| :: keys[i] in items
  {
    if keys == [] then 0
    else StatSum(keys[..|keys| - 1], items, sizes) + Field(items[keys[|keys| - 1]], sizes)
  }

  function Field(s: TypeStat, sizes: bool): int
  {
    if sizes then s.totalSize else s.fileCount
  }

  lemma {:induction false} StatSumOther(keys: seq<string>, items: map<string, TypeStat>, k: string, v: TypeStat, sizes: bool)
    requires forall i | 0 <= i < |keys| :: keys[i] in items && keys[i] != k
    ensures StatSum(keys, items[k := v], sizes) == StatSum(keys, items, sizes)
  {
    if keys != [] {
      StatSumOther(keys[..|keys| - 1], items, k, v, sizes);
    }
  }

  lemma {:induction false} StatSumReplace(keys: seq<string>, items: map<string, TypeStat>, j: nat, v: TypeStat, sizes: bool)
    requires forall i | 0 <= i < |keys| :: keys[i] in items
    requires j < |keys| && forall i | 0 <= i < |keys| && i != j :: keys[i] != keys[j]
    ensures StatSum(keys, items[keys[j] := v], sizes) == StatSum(keys, items, sizes) - Field(items[keys[j]], sizes) + Field(v, sizes)
  {
    var n := |keys| - 1;
    var init := keys[..n];
    if j == n {
      StatSumOther(init, items, keys[j], v, sizes);
    } else {
      StatSumReplace(init, items, j, v, sizes);
    }
  }

  lemma PutStatSum(d: Dict<string, TypeStat>, k: string, v: TypeStat, sizes: bool)
    requires d.Valid()
    ensures StatSum(d.Put(k, v).keys, d.Put(k, v).items, sizes)
            == StatSum(d.keys, d.items, sizes) - (if k in d.items then Field(d.items[k], sizes) else 0) + Field(v, sizes)
  {
    if k in d.items {
      KeysCover(d, k);
      var j :| 0 <= j < |d.keys| && d.keys[j] == k;
      StatSumReplace(d.keys, d.items, j, v, sizes);
    } else {
      var keys' := d.keys + [k];
      assert keys'[..|keys'| - 1] == d.keys;
      StatSumOther(d.keys, d.items, k, v, sizes);
    }
  }

  lemma CountTypeAt(d: Dict<string, TypeStat>, tag: string, size: nat, k: string)
    requires d.Valid()
    ensures k in CountType(d, tag, size).items <==> k in d.items || k == tag
    ensures k in CountType(d, tag, size).items ==>
              CountType(d, tag, size).items[k]
              == if k == tag then TypeStat(d.Get(tag, TypeStat(0, 0)).totalSize + size, d.Get(tag, TypeStat(0, 0)).fileCount + 1)
                 else d.items[k]
  {
  }

  lemma CountTypeSum(d: Dict<string, TypeStat>, tag: string, size: nat, sizes: bool)
    requires d.Valid()
    ensures StatSum(CountType(d, tag, size).keys, CountType(d, tag, size).items, sizes)
            == StatSum(d.keys, d.items, sizes) + (if sizes then size else 1)
  {
    var o := d.Get(tag, TypeStat(0, 0));
    PutStatSum(d, tag, TypeStat(o.totalSize + size, o.fileCount + 1), sizes);
  }

  /** The per-extension counts add up to the file count and the
      per-extension bytes to the bytes counted. */
  lemma {:induction false} TypeStatsSumUp(files: seq<FileFacts>)
    ensures StatSum(TallyOf(files).typeStats.keys, TallyOf(files).typeStats.items, false) == |files|
    ensures StatSum(TallyOf(files).typeStats.keys, TallyOf(files).typeStats.items, true) == SizeTotal(files)
  {
    if files != [] {
      var init := files[..|files| - 1];
      var f := files[|files| - 1];
      var t := TallyOf(init);
      TypeStatsSumUp(init);
      CountTypeSum(t.typeStats, f.tag, f.size, false);
      CountTypeSum(t.typeStats, f.tag, f.size, true);
    }
  }

  predicate Convertible(f: FileFacts)
  {
    f.conversion == Converts
  }

  /** `files[i]` could be recorded, no file that could is larger, and every
      earlier one that could is smaller. */
  predicate FirstMaximal(files: seq<FileFacts>, i: int)
  {
    && 0 <= i < |files| && Convertible(files[i])
    && (forall j | 0 <= j < |files| && Convertible(files[j]) :: files[j].size <= files[i].size)
    && (forall j | 0 <= j < i && Convertible(files[j]) :: files[j].size < files[i].size)
  }

  predicate NoneConvertible(files: seq<FileFacts>)
  {
    forall i | 0 <= i < |files| :: !Convertible(files[i])
  }

  lemma StepLargest(t: Tally, f: FileFacts)
    requires t.typeStats.Valid()
    ensures Step(t, f).largest == if Replaces(t, f.size) && Convertible(f) then Some(Record(f)) else t.largest
  {
  }

  /** A first maximal file stays first maximal when a file that is not
      larger, or cannot be recorded, is appended. */
  lemma FirstMaximalKept(files: seq<FileFacts>, f: FileFacts, i: int)
    requires FirstMaximal(files, i)
    requires !Convertible(f) || f.size <= files[i].size
    ensures FirstMaximal(files + [f], i)
  {
    var fs := files + [f];
    assert forall j | 0 <= j < |files| :: fs[j] == files[j];
  }

  /** An appended file that could be recorded and is larger than every
      earlier one is the first maximal file. */
  lemma FirstMaximalNew(files: seq<FileFacts>, f: FileFacts)
    requires Convertible(f)
    requires forall j | 0 <= j < |files| && Convertible(files[j]) :: files[j].size < f.size
    ensures FirstMaximal(files + [f], |files|)
  {
    var fs := files + [f];
    assert forall j | 0 <= j < |files| :: fs[j] == files[j];
  }

  /** `largest_file` is None exactly when no accepted file could be
      recorded; otherwise it is the record of the first file of greatest size
      among those that could: later files of equal size do not replace it. */
  lemma {:induction false} LargestIsFirstMaximal(files: seq<FileFacts>)
    ensures TallyOf(files).largest == None <==> NoneConvertible(files)
    ensures TallyOf(files).largest != None ==>
              exists i :: FirstMaximal(files, i) && TallyOf(files).largest == Some(Record(files[i]))
  {
    if files != [] {
      var n := |files| - 1;
      var init := files[..n];
      var f := files[n];
      assert files == init + [f];
      LargestIsFirstMaximal(init);
      var t := TallyOf(init);
      StepLargest(t, f);
      if t.largest != None {
        var i :| FirstMaximal(init, i) && t.largest == Some(Record(init[i]));
        if Replaces(t, f.size) && Convertible(f) {
          FirstMaximalNew(init, f);
        } else {
          FirstMaximalKept(init, f, i);
        }
      } else {
        if Convertible(f) {
          FirstMaximalNew(init, f);
        } else {
          assert forall j | 0 <= j < n :: files[j] == init[j];
        }
      }
    }
  }
}
