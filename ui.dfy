/** The arithmetic of main.py's window: the progress state the scan thread
    reports into and the timer reads, the size text, the aggregation and
    grouping that feed the treemap, the label truncation, and the options
    each scan mode builds. Widgets, drawing and threads are not modelled. */
module Ui {
  import opened Wrappers
  import opened Dicts
  import opened Text
  import opened Models
  import opened FsModel
  import Treemap

  // ---------------------------------------------------------------------
  // Progress

  /** `ttk.Progressbar(..., maximum=1000)` */
  const BarMaximum: int := 1000

  /** The ratio clamped into [0, 1]. */
  function Clamp(ratio: real): (r: real)
    ensures 0.0 <= r <= 1.0
    ensures 0.0 <= ratio <= 1.0 ==> r == ratio
    ensures ratio < 0.0 ==> r == 0.0
    ensures ratio > 1.0 ==> r == 1.0
  {
    var low := if ratio < 0.0 then 0.0 else ratio;
    if low > 1.0 then 1.0 else low
  }

  /** `int(ratio * self.progress["maximum"])` */
  function BarValue(ratio: real): (v: int)
    ensures 0.0 <= ratio <= 1.0 ==> 0 <= v <= BarMaximum
    ensures 0.0 <= ratio ==> v as real <= ratio * BarMaximum as real < v as real + 1.0
  {
    Trunc(ratio * BarMaximum as real)
  }

  /** `max(0.0, time.time() - self._scan_start_time)` */
  function Elapsed(start: real, now: real): (e: real)
    ensures e >= 0.0 && e >= now - start
  {
    if now - start >= 0.0 then now - start else 0.0
  }

  /** The remaining-time text: still estimating, seconds only, or minutes
      and seconds. */
  datatype Eta = Estimating | Seconds(secs: int) | Minutes(mins: int, secs: int)

  /** `elapsed * (1.0 - ratio) / ratio`, raised to 0 when negative. */
  function RemainingSeconds(ratio: real, elapsed: real): (r: real)
    requires ratio > 0.0
    ensures r >= 0.0
  {
    var remaining := elapsed * (1.0 - ratio) / ratio;
    if remaining < 0.0 then 0.0 else remaining
  }

  /** The ETA block of `_update_progress_ui`: `mins = int(remaining // 60)`,
      `secs = int(remaining % 60)`. */
  function EtaOf(ratio: real, elapsed: real): Eta
  {
    if ratio > 0.01 && elapsed > 1.0 then
      var remaining := RemainingSeconds(ratio, elapsed);
      var mins := (remaining / 60.0).Floor;
      var secs := Trunc(remaining - 60.0 * mins as real);
      if mins > 0 then Minutes(mins, secs) else Seconds(secs)
    else Estimating
  }

  /** The whole seconds an ETA shows. */
  function ShownSeconds(e: Eta): int
  {
    match e
    case Estimating => 0
    case Seconds(s) => s
    case Minutes(m, s) => 60 * m + s
  }

  /** An estimate is shown exactly when more than 1% is done and more
      than a second has passed; it shows the whole seconds left, with
      seconds below 60 and minutes only when there is at least one. */
  lemma EtaFacts(ratio: real, elapsed: real)
    ensures !EtaOf(ratio, elapsed).Estimating? <==> ratio > 0.01 && elapsed > 1.0
    ensures !EtaOf(ratio, elapsed).Estimating? ==>
              && ShownSeconds(EtaOf(ratio, elapsed)) == RemainingSeconds(ratio, elapsed).Floor
              && 0 <= EtaOf(ratio, elapsed).secs < 60
              && (EtaOf(ratio, elapsed).Minutes? ==> EtaOf(ratio, elapsed).mins > 0)
              && (EtaOf(ratio, elapsed).Seconds? ==> RemainingSeconds(ratio, elapsed) < 60.0)
  {
    if ratio > 0.01 && elapsed > 1.0 {
      var remaining := RemainingSeconds(ratio, elapsed);
      var mins := (remaining / 60.0).Floor;
      assert mins as real <= remaining / 60.0 < mins as real + 1.0;
      var rest := remaining - 60.0 * mins as real;
      assert 0.0 <= rest < 60.0;
      var secs := Trunc(rest);
      assert (60 * mins + secs) as real <= remaining < (60 * mins + secs) as real + 1.0;
    }
  }

  /** What one tick of `_update_progress_ui` shows: the bar value, the
      percentage, the counters and the ETA. */
  datatype View = View(bar: int, percent: real, files: int, folders: int, eta: Eta)

  /** The progress fields of the window (main.py:50-55): the scan thread
      writes them through `_on_scan_progress`, the timer reads them. */
  class Progress {
    var files: int
    var folders: int
    var ratio: real
    var lastPath: string
    var startTime: real
    var running: bool
    var bar: int

    /** The stored ratio is in [0, 1] and the bar within its maximum. */
    predicate Valid()
      reads this
    {
      0.0 <= ratio <= 1.0 && 0 <= bar <= BarMaximum
    }

    constructor ()
      ensures Valid()
      ensures files == 0 && folders == 0 && ratio == 0.0 && lastPath == "" && startTime == 0.0
      ensures !running && bar == 0
    {
      files, folders, ratio, lastPath, startTime := 0, 0, 0.0, "", 0.0;
      running, bar := false, 0;
    }

    /** The reset `on_scan_clicked` does before starting the scan thread. */
    method StartScan(now: real)
      modifies this
      ensures Valid()
      ensures files == 0 && folders == 0 && ratio == 0.0 && lastPath == "" && startTime == now
      ensures running && bar == 0
    {
      startTime := now;
      files, folders, ratio, lastPath := 0, 0, 0.0, "";
      running := true;
      bar := 0;
    }

    /** `_on_scan_progress`: store the counters and the path, and the ratio
        clamped into [0, 1]. */
    method OnScanProgress(files: int, folders: int, currentPath: string, ratio: real)
      requires Valid()
      modifies this
      ensures Valid()
      ensures this.files == files && this.folders == folders && lastPath == currentPath
      ensures this.ratio == Clamp(ratio)
      ensures startTime == old(startTime) && running == old(running) && bar == old(bar)
    {
      this.files := files;
      this.folders := folders;
      lastPath := currentPath;
      var r := ratio;
      if r < 0.0 {
        r := 0.0;
      }
      if r > 1.0 {
        r := 1.0;
      }
      this.ratio := r;
    }

    /** `_update_progress_ui` at time `now`: nothing once the scan is over;
        otherwise the bar follows the ratio and the view is shown. */
    method UpdateProgressUi(now: real) returns (view: Option<View>)
      requires Valid()
      modifies this
      ensures Valid()
      ensures !old(running) ==> view == None && bar == old(bar)
      ensures old(running) ==>
                bar == BarValue(ratio) && view == Some(View(bar, ratio * 100.0, files, folders, EtaOf(ratio, Elapsed(startTime, now))))
      ensures files == old(files) && folders == old(folders) && ratio == old(ratio) && lastPath == old(lastPath)
      ensures startTime == old(startTime) && running == old(running)
    {
      if !running {
        return None;
      }
      bar := BarValue(ratio);
      var elapsed := Elapsed(startTime, now);
      view := Some(View(bar, ratio * 100.0, files, folders, EtaOf(ratio, elapsed)));
    }

    /** `on_scan_finished`: the timer stops and the bar is full. */
    method OnScanFinished()
      requires Valid()
      modifies this
      ensures Valid() && !running && bar == BarMaximum
      ensures files == old(files) && folders == old(folders) && ratio == old(ratio) && lastPath == old(lastPath)
      ensures startTime == old(startTime)
    {
      running := false;
      bar := BarMaximum;
    }

    /** `on_scan_failed`: the timer stops. */
    method OnScanFailed()
      requires Valid()
      modifies this
      ensures Valid() && !running && bar == old(bar)
      ensures files == old(files) && folders == old(folders) && ratio == old(ratio) && lastPath == old(lastPath)
      ensures startTime == old(startTime)
    {
      running := false;
    }
  }

  // ---------------------------------------------------------------------
  // _format_size

  const Units: seq<string> := ["B", "KB", "MB", "GB", "TB"]

  /** `"0 B"`, or a value with the index of its unit in `Units`; the
      `%.2f` formatting is not modelled. */
  datatype SizeText = ZeroBytes | Scaled(value: real, unit: nat)

  function Pow1024(n: nat): (p: real)
    ensures p >= 1.0
  {
    if n == 0 then 1.0 else 1024.0 * Pow1024(n - 1)
  }

  /** The value `_format_size` shows for a positive size: the size in the
      largest unit up to TB in which it is still at least 1. */
  predicate ScaledFor(size: int, value: real, unit: nat)
  {
    && unit < |Units|
    && value * Pow1024(unit) == size as real
    && 1.0 <= value
    && (value < 1024.0 || unit == |Units| - 1)
  }

  /** `_format_size(size)` */
  method FormatSize(size: int) returns (t: SizeText)
    ensures size <= 0 <==> t == ZeroBytes
    ensures t.Scaled? ==> ScaledFor(size, t.value, t.unit)
  {
    if size <= 0 {
      return ZeroBytes;
    }
    var idx: nat := 0;
    var value := size as real;
    while value >= 1024.0 && idx < |Units| - 1
      invariant idx < |Units|
      invariant value * Pow1024(idx) == size as real
      invariant 1.0 <= value
      decreases |Units| - idx
    {
      DivideStep(value, idx);
      value := value / 1024.0;
      idx := idx + 1;
    }
    t := Scaled(value, idx);
  }

  lemma DivideStep(value: real, idx: nat)
    ensures (value / 1024.0) * Pow1024(idx + 1) == value * Pow1024(idx)
  {
  }

  /** Only one value and unit fit a size, so `_format_size` shows the size
      in the largest unit that keeps the value at least 1. */
  lemma ScaledUnique(size: int, v1: real, u1: nat, v2: real, u2: nat)
    requires ScaledFor(size, v1, u1) && ScaledFor(size, v2, u2)
    ensures v1 == v2 && u1 == u2
  {
    if u1 < u2 {
      ScaledBelow(v1, u1, v2, u2);
      assert false;
    } else if u2 < u1 {
      ScaledBelow(v2, u2, v1, u1);
      assert false;
    } else {
      assert v1 * Pow1024(u1) == v2 * Pow1024(u1);
    }
  }

  /** A smaller unit than another fitting one leaves a value of at least
      1024. */
  lemma ScaledBelow(v1: real, u1: nat, v2: real, u2: nat)
    requires v1 * Pow1024(u1) == v2 * Pow1024(u2) && 1.0 <= v2 && u1 < u2
    ensures v1 >= 1024.0
  {
    PowSplit(u1, u2 - u1);
    var q := Pow1024(u2 - u1);
    assert v1 * Pow1024(u1) == (v2 * q) * Pow1024(u1);
    assert v1 == v2 * q;
  }

  lemma {:induction false} PowSplit(a: nat, b: nat)
    ensures Pow1024(a + b) == Pow1024(b) * Pow1024(a)
    ensures b > 0 ==> Pow1024(b) >= 1024.0
  {
    if b > 0 {
      PowSplit(a, b - 1);
      assert Pow1024(a + b) == 1024.0 * Pow1024(a + b - 1);
    }
  }

  // ---------------------------------------------------------------------
  // _draw_treemap: totals per root component

  /** `rel.split("\\", 1)[0] if rel else fi.name` */
  function RootComponent(fi: FileInfo, rootLen: nat): string
  {
    var rel := LStripSeps(Drop(fi.path, rootLen));
    if rel != [] then Split(rel, '\\')[0] else fi.name
  }

  /** Each file's root component with its size. */
  function Components(files: seq<FileInfo>, rootLen: nat): (ps: seq<(string, int)>)
    ensures |ps| == |files|
    ensures forall i | 0 <= i < |files| :: ps[i] == (RootComponent(files[i], rootLen), files[i].size)
  {
    seq(|files|, i requires 0 <= i < |files| => (RootComponent(files[i], rootLen), files[i].size))
  }

  /** The dict of totals after adding up the first pairs. */
  function Totals(ps: seq<(string, int)>): (d: Dict<string, int>)
    ensures d.Valid()
  {
    if ps == [] then Empty()
    else
      var n := |ps| - 1;
      Accumulate(Totals(ps[..n]), ps[n].0, ps[n].1)
  }

  /** `size_by_root[c] = size_by_root.get(c, 0) + size` */
  function Accumulate(d: Dict<string, int>, c: string, size: int): (d': Dict<string, int>)
    requires d.Valid()
    ensures d'.Valid()
  {
    d.Put(c, d.Get(c, 0) + size)
  }

  /** `size_by_root` after the loop over the files. */
  function SizesByRoot(files: seq<FileInfo>, rootLen: nat): Dict<string, int>
  {
    Totals(Components(files, rootLen))
  }

  /** The totals per root component built by the `for fi in result.files`
      loop. */
  method SizeByRoot(files: seq<FileInfo>, rootLen: nat) returns (d: Dict<string, int>)
    ensures d == SizesByRoot(files, rootLen)
  {
    d := Empty();
    for k := 0 to |files|
      invariant d == Totals(Components(files, rootLen)[..k])
    {
      d := AddFile(d, files, rootLen, k);
    }
    assert Components(files, rootLen)[..|files|] == Components(files, rootLen);
  }

  /** One turn of the loop: add file `k`'s size to its root component. */
  method AddFile(d: Dict<string, int>, files: seq<FileInfo>, rootLen: nat, k: nat) returns (d': Dict<string, int>)
    requires k < |files| && d == Totals(Components(files, rootLen)[..k])
    ensures d' == Totals(Components(files, rootLen)[..k + 1])
  {
    var fi := files[k];
    var component := RootComponent(fi, rootLen);
    SizesStep(files, rootLen, k);
    d' := Accumulate(d, component, fi.size);
  }

  /** One more file adds its size to its root component's total. */
  lemma SizesStep(files: seq<FileInfo>, rootLen: nat, k: nat)
    requires k < |files|
    ensures Totals(Components(files, rootLen)[..k + 1])
         == Accumulate(Totals(Components(files, rootLen)[..k]), RootComponent(files[k], rootLen), files[k].size)
  {
    var ps := Components(files, rootLen);
    assert ps[..k + 1][..k] == ps[..k];
  }

  /** The sum of a dict's values, in key order. */
  function ValueSum(keys: seq<string>, items: map<string, int>): int
    requires forall i | 0 <= i < |keys| :: keys[i] in items
  {
    if keys == [] then 0 else ValueSum(keys[..|keys| - 1], items) + items[keys[|keys| - 1]]
  }

  /** Changing one value changes the sum by the difference, when the key
      occurs once. */
  lemma {:induction false} ValueSumUpdate(keys: seq<string>, items: map<string, int>, k: string, v: int)
    requires forall i | 0 <= i < |keys| :: keys[i] in items
    requires forall i, j | 0 <= i < j < |keys| :: keys[i] != keys[j]
    ensures ValueSum(keys, items[k := v]) == ValueSum(keys, items) + (if k in keys then v - items[k] else 0)
  {
    if keys != [] {
      var n := |keys| - 1;
      var init := keys[..n];
      assert forall i | 0 <= i < |init| :: init[i] == keys[i];
      ValueSumUpdate(init, items, k, v);
      assert k in keys <==> k in init || keys[n] == k;
      if keys[n] == k {
        assert k !in init;
      }
    }
  }

  lemma ValueSumAppend(keys: seq<string>, items: map<string, int>, k: string)
    requires forall i | 0 <= i < |keys| :: keys[i] in items
    requires k in items
    ensures ValueSum(keys + [k], items) == ValueSum(keys, items) + items[k]
  {
    assert (keys + [k])[..|keys|] == keys;
  }

  /** Adding a size to one component adds it to the sum of the totals. */
  lemma AccumulateSum(d: Dict<string, int>, c: string, size: int)
    requires d.Valid()
    ensures ValueSum(Accumulate(d, c, size).keys, Accumulate(d, c, size).items) == ValueSum(d.keys, d.items) + size
  {
    if c in d.items {
      AccumulateOld(d, c, d.items[c] + size);
    } else {
      AccumulateNew(d, c, size);
    }
  }

  lemma AccumulateOld(d: Dict<string, int>, c: string, v: int)
    requires d.Valid() && c in d.items
    ensures ValueSum(d.keys, d.items[c := v]) == ValueSum(d.keys, d.items) + v - d.items[c]
  {
    KeysCover(d, c);
    ValueSumUpdate(d.keys, d.items, c, v);
  }

  lemma AccumulateNew(d: Dict<string, int>, c: string, v: int)
    requires d.Valid() && c !in d.items
    ensures ValueSum(d.keys + [c], d.items[c := v]) == ValueSum(d.keys, d.items) + v
  {
    ValueSumUpdate(d.keys, d.items, c, v);
    ValueSumAppend(d.keys, d.items[c := v], c);
  }

  /** The totals add up to the sizes of all the pairs. */
  lemma {:induction false} TotalsSum(ps: seq<(string, int)>)
    ensures ValueSum(Totals(ps).keys, Totals(ps).items) == SizeSum(ps)
  {
    if ps != [] {
      var n := |ps| - 1;
      TotalsSum(ps[..n]);
      AccumulateSum(Totals(ps[..n]), ps[n].0, ps[n].1);
    }
  }

  /** The components that get a total are exactly those of the pairs. */
  lemma {:induction false} TotalsKeys(ps: seq<(string, int)>, c: string)
    ensures c in Totals(ps).items <==> exists i | 0 <= i < |ps| :: ps[i].0 == c
  {
    if ps != [] {
      var n := |ps| - 1;
      var init := ps[..n];
      TotalsKeys(init, c);
      assert c in Totals(ps).items <==> c in Totals(init).items || ps[n].0 == c;
      if c in Totals(init).items {
        var i :| 0 <= i < n && init[i].0 == c;
        assert ps[i] == init[i];
      }
      if exists i | 0 <= i < |ps| :: ps[i].0 == c {
        var i :| 0 <= i < |ps| && ps[i].0 == c;
        if i < n {
          assert init[i] == ps[i];
        }
      }
    }
  }

  /** The root-component totals add up to the sizes of all files, and
      there is a total for exactly the components some file has. */
  lemma SizesByRootFacts(files: seq<FileInfo>, rootLen: nat, c: string)
    ensures var d := SizesByRoot(files, rootLen);
      ValueSum(d.keys, d.items) == SizeSum(Components(files, rootLen))
    ensures c in SizesByRoot(files, rootLen).items <==> exists i | 0 <= i < |files| :: RootComponent(files[i], rootLen) == c
  {
    var ps := Components(files, rootLen);
    TotalsSum(ps);
    TotalsKeys(ps, c);
    if exists i | 0 <= i < |files| :: RootComponent(files[i], rootLen) == c {
      var i :| 0 <= i < |files| && RootComponent(files[i], rootLen) == c;
      assert ps[i].0 == c;
    }
  }

  // ---------------------------------------------------------------------
  // _draw_treemap: the largest 50

  /** `size_by_root.items()`, in insertion order. */
  function Pairs(keys: seq<string>, items: map<string, int>): (ps: seq<(string, int)>)
    requires forall i | 0 <= i < |keys| :: keys[i] in items
    ensures |ps| == |keys|
    ensures forall i | 0 <= i < |keys| :: ps[i] == (keys[i], items[keys[i]])
  {
    if keys == [] then [] else Pairs(keys[..|keys| - 1], items) + [(keys[|keys| - 1], items[keys[|keys| - 1]])]
  }

  predicate SortedDown(s: seq<(string, int)>)
  {
    forall i, j | 0 <= i < j < |s| :: s[i].1 >= s[j].1
  }

  /** `x` placed after every element at least as large, as a stable
      descending sort places a later element. */
  function Insert(x: (string, int), s: seq<(string, int)>): (r: seq<(string, int)>)
    ensures multiset(r) == multiset(s) + multiset{x}
    ensures |r| == |s| + 1
  {
    if s == [] then [x]
    else if s[0].1 >= x.1 then
      assert s == [s[0]] + s[1..];
      [s[0]] + Insert(x, s[1..])
    else [x] + s
  }

  predicate AllAtMost(s: seq<(string, int)>, v: int)
  {
    forall i | 0 <= i < |s| :: s[i].1 <= v
  }

  lemma {:induction false} InsertAtMost(x: (string, int), s: seq<(string, int)>, v: int)
    requires AllAtMost(s, v) && x.1 <= v
    ensures AllAtMost(Insert(x, s), v)
  {
    if s != [] && s[0].1 >= x.1 {
      InsertAtMost(x, s[1..], v);
      assert Insert(x, s) == [s[0]] + Insert(x, s[1..]);
    }
  }

  lemma {:induction false} InsertSorted(x: (string, int), s: seq<(string, int)>)
    requires SortedDown(s)
    ensures SortedDown(Insert(x, s))
  {
    if s != [] && s[0].1 >= x.1 {
      var tail := s[1..];
      assert SortedDown(tail) && AllAtMost(tail, s[0].1) by {
        forall i | 0 <= i < |tail| ensures tail[i] == s[i + 1] {
        }
      }
      InsertSorted(x, tail);
      InsertAtMost(x, tail, s[0].1);
      var r := Insert(x, s);
      var it := Insert(x, tail);
      assert r == [s[0]] + it;
      assert forall j | 0 < j < |r| :: r[j] == it[j - 1];
    }
  }

  /** `sorted(pairs, key=lambda x: x[1], reverse=True)`: stable, so equal
      sizes keep their insertion order. */
  function SortDown(s: seq<(string, int)>): (r: seq<(string, int)>)
    ensures multiset(r) == multiset(s)
    ensures |r| == |s|
  {
    if s == [] then []
    else
      var n := |s| - 1;
      assert s == s[..n] + [s[n]];
      Insert(s[n], SortDown(s[..n]))
  }

  lemma {:induction false} SortDownSorted(s: seq<(string, int)>)
    ensures SortedDown(SortDown(s))
  {
    if s != [] {
      var n := |s| - 1;
      SortDownSorted(s[..n]);
      InsertSorted(s[n], SortDown(s[..n]));
    }
  }

  /** `sorted(...)[:50]` */
  function Top50(pairs: seq<(string, int)>): seq<(string, int)>
  {
    var s := SortDown(pairs);
    if |s| <= 50 then s else s[..50]
  }

  /** At most 50 components are kept, the largest ones, sorted by size
      descending, each one of the totals. */
  lemma Top50Facts(pairs: seq<(string, int)>)
    ensures |Top50(pairs)| == if |pairs| <= 50 then |pairs| else 50
    ensures SortedDown(Top50(pairs))
    ensures multiset(Top50(pairs)) <= multiset(pairs)
    ensures forall i, j | 0 <= i < |Top50(pairs)| <= j < |pairs| :: Top50(pairs)[i].1 >= SortDown(pairs)[j].1
  {
    var s := SortDown(pairs);
    SortDownSorted(pairs);
    if |s| > 50 {
      assert s == s[..50] + s[50..];
      assert multiset(s) == multiset(s[..50]) + multiset(s[50..]);
    }
  }

  // ---------------------------------------------------------------------
  // _draw_treemap: grouping

  /** `MIN_RATIO` */
  const MinRatio: real := 0.015

  /** `size / total_size >= MIN_RATIO` */
  predicate Major(size: int, total: int)
    requires total > 0
  {
    size as real / total as real >= MinRatio
  }

  /** The items given their own box, labelled `root_path + "\\" + component`. */
  function KeptItems(items: seq<(string, int)>, rootPath: string, total: int): seq<(string, int)>
    requires total > 0
  {
    if items == [] then []
    else
      var n := |items| - 1;
      KeptItems(items[..n], rootPath, total)
        + if Major(items[n].1, total) then [(rootPath + "\\" + items[n].0, items[n].1)] else []
  }

  /** The items folded into "other". */
  function MinorItems(items: seq<(string, int)>, total: int): seq<(string, int)>
    requires total > 0
  {
    if items == [] then []
    else
      var n := |items| - 1;
      MinorItems(items[..n], total) + if Major(items[n].1, total) then [] else [items[n]]
  }

  function SizeSum(items: seq<(string, int)>): int
  {
    if items == [] then 0 else SizeSum(items[..|items| - 1]) + items[|items| - 1].1
  }

  /** The label of the "other" box; the text is `其他 (<count> 个文件夹)`. */
  function OtherLabel(count: nat): string
  {
    "其他 (" + NatToString(count) + " 个文件夹)"
  }

  /** `main_items` after the loop and the "other" append. */
  function Grouped(items: seq<(string, int)>, rootPath: string, total: int): seq<(string, int)>
    requires total > 0
  {
    var minor := MinorItems(items, total);
    KeptItems(items, rootPath, total)
      + if |minor| > 0 && SizeSum(minor) > 0 then [(OtherLabel(|minor|), SizeSum(minor))] else []
  }

  /** The `for component, size in sorted_items` loop and the "other"
      append. */
  method GroupItems(items: seq<(string, int)>, rootPath: string, total: int) returns (main: seq<(string, int)>)
    requires total > 0
    ensures main == Grouped(items, rootPath, total)
  {
    main := [];
    var otherSize := 0;
    var otherCount: nat := 0;
    ghost var minor: seq<(string, int)> := [];
    for k := 0 to |items|
      invariant main == KeptItems(items[..k], rootPath, total)
      invariant minor == MinorItems(items[..k], total)
      invariant otherSize == SizeSum(minor) && otherCount == |minor|
    {
      var (component, size) := items[k];
      assert items[..k + 1][..k] == items[..k];
      if size as real / total as real >= MinRatio {
        var fullPath := rootPath + "\\" + component;
        main := main + [(fullPath, size)];
      } else {
        otherSize := otherSize + size;
        otherCount := otherCount + 1;
        assert (minor + [items[k]])[..|minor|] == minor;
        minor := minor + [items[k]];
      }
    }
    assert items[..|items|] == items;
    if otherCount > 0 && otherSize > 0 {
      main := main + [(OtherLabel(otherCount), otherSize)];
    } else {
      assert main + [] == main;
    }
  }

  /** Every kept item has at least the minimum share and every other item
      less; the kept and other sizes together are the total of the items,
      so the boxes drawn account for the whole of it. */
  lemma {:induction false} GroupFacts(items: seq<(string, int)>, rootPath: string, total: int)
    requires total > 0
    ensures forall i | 0 <= i < |KeptItems(items, rootPath, total)| :: Major(KeptItems(items, rootPath, total)[i].1, total)
    ensures forall i | 0 <= i < |MinorItems(items, total)| :: !Major(MinorItems(items, total)[i].1, total)
    ensures SizeSum(KeptItems(items, rootPath, total)) + SizeSum(MinorItems(items, total)) == SizeSum(items)
    ensures |KeptItems(items, rootPath, total)| + |MinorItems(items, total)| == |items|
  {
    if items != [] {
      var n := |items| - 1;
      GroupFacts(items[..n], rootPath, total);
      var kept := KeptItems(items[..n], rootPath, total);
      var minor := MinorItems(items[..n], total);
      if Major(items[n].1, total) {
        var e := (rootPath + "\\" + items[n].0, items[n].1);
        assert (kept + [e])[..|kept|] == kept;
        assert minor + [] == minor;
        assert forall i | 0 <= i < |kept| :: (kept + [e])[i] == kept[i];
      } else {
        assert (minor + [items[n]])[..|minor|] == minor;
        assert kept + [] == kept;
        assert forall i | 0 <= i < |minor| :: (minor + [items[n]])[i] == minor[i];
      }
    }
  }

  /** One "other" box exactly when some item was folded and their sizes are
      positive; when the folded sizes are not negative, all boxes together
      carry the total of the items. */
  lemma GroupedFacts(items: seq<(string, int)>, rootPath: string, total: int)
    requires total > 0
    ensures var minor := MinorItems(items, total);
      |Grouped(items, rootPath, total)| == |KeptItems(items, rootPath, total)| + (if |minor| > 0 && SizeSum(minor) > 0 then 1 else 0)
    ensures SizeSum(MinorItems(items, total)) >= 0 ==> SizeSum(Grouped(items, rootPath, total)) == SizeSum(items)
  {
    GroupFacts(items, rootPath, total);
    var kept := KeptItems(items, rootPath, total);
    var minor := MinorItems(items, total);
    if |minor| > 0 && SizeSum(minor) > 0 {
      var g := kept + [(OtherLabel(|minor|), SizeSum(minor))];
      assert g[..|g| - 1] == kept;
    } else {
      assert kept + [] == kept;
      if |minor| == 0 {
        assert minor == [];
      }
    }
  }

  // ---------------------------------------------------------------------
  // _draw_treemap: labels

  /** `label if len(label) <= max_chars else label[:max_chars - 2] + ".."` */
  function Truncate(text: string, maxChars: int): (r: string)
    requires maxChars >= 2
    ensures |r| <= maxChars
    ensures |text| <= maxChars ==> r == text
    ensures |text| > maxChars ==> |r| == maxChars && r == text[..maxChars - 2] + ".."
  {
    if |text| <= maxChars then text else text[..maxChars - 2] + ".."
  }

  function IMax(a: int, b: int): int
  {
    if a >= b then a else b
  }

  /** The number of characters a box of width `bw` and height `bh` shows:
      none for a small box, otherwise by the three size tiers. */
  function LabelLimit(bw: real, bh: real): (m: Option<int>)
    ensures m.Some? ==> m.value >= 2
    ensures m.Some? <==> (bw > 100.0 && bh > 48.0) || (bw > 50.0 && bh > 22.0) || (bw > 24.0 && bh > 14.0)
  {
    if bw > 100.0 && bh > 48.0 then Some(IMax(4, Trunc((bw - 5.0 * 2.0) / 8.0)))
    else if bw > 50.0 && bh > 22.0 then Some(IMax(3, Trunc((bw - 8.0) / 7.0)))
    else if bw > 24.0 && bh > 14.0 then Some(IMax(2, Trunc((bw - 4.0) / 6.0)))
    else None
  }

  /** The label text drawn in a box, if any. */
  function DisplayLabel(caption: string, bw: real, bh: real): Option<string>
  {
    match LabelLimit(bw, bh)
    case None => None
    case Some(m) => Some(Truncate(caption, m))
  }

  /** A drawn label is never longer than its box's limit, and is the label
      itself when that fits. */
  lemma DisplayLabelFacts(caption: string, bw: real, bh: real)
    ensures DisplayLabel(caption, bw, bh).Some? <==> LabelLimit(bw, bh).Some?
    ensures DisplayLabel(caption, bw, bh).Some? ==>
              && |DisplayLabel(caption, bw, bh).value| <= LabelLimit(bw, bh).value
              && (|caption| <= LabelLimit(bw, bh).value ==> DisplayLabel(caption, bw, bh).value == caption)
  {
  }

  // ---------------------------------------------------------------------
  // _draw_treemap: the whole aggregation

  /** The `(label, size, None)` items `_draw_treemap` passes to
      `build_treemap`: none when there are no files, no components or a
      non-positive total. */
  function DrawItems(files: seq<FileInfo>, diskPath: string): seq<Treemap.Item<()>>
  {
    if files == [] then []
    else
      var rootPath := RStripSeps(diskPath);
      var d := SizesByRoot(files, |rootPath|);
      var top := Top50(Pairs(d.keys, d.items));
      var total := SizeSum(top);
      if top == [] || total <= 0 then [] else AsItems(Grouped(top, rootPath, total))
  }

  function AsItems(main: seq<(string, int)>): (r: seq<Treemap.Item<()>>)
    ensures |r| == |main|
    ensures forall i | 0 <= i < |main| :: r[i] == Treemap.Item(main[i].0, main[i].1 as real, None)
  {
    if main == [] then [] else AsItems(main[..|main| - 1]) + [Treemap.Item(main[|main| - 1].0, main[|main| - 1].1 as real, None)]
  }

  /** At most 51 boxes are drawn: the 50 largest components at most, and
      one "other" box. */
  lemma DrawItemsBound(files: seq<FileInfo>, diskPath: string)
    ensures |DrawItems(files, diskPath)| <= 51
  {
    if files != [] {
      var rootPath := RStripSeps(diskPath);
      var d := SizesByRoot(files, |rootPath|);
      var top := Top50(Pairs(d.keys, d.items));
      Top50Facts(Pairs(d.keys, d.items));
      var total := SizeSum(top);
      if top != [] && total > 0 {
        GroupFacts(top, rootPath, total);
        GroupedFacts(top, rootPath, total);
      }
    }
  }

  /** `_draw_treemap(result)` up to drawing: the nodes laid out on a canvas
      at least 800 by 500. */
  method DrawTreemap(result: ScanResult, canvasWidth: int, canvasHeight: int) returns (nodes: seq<Treemap.TreemapNode<()>>)
    ensures result.files == [] ==> nodes == []
    ensures var items := DrawItems(result.files, result.stats.diskPath);
      var layout := Treemap.Layout(items, IMax(canvasWidth, 800), IMax(canvasHeight, 500));
      && |nodes| == Treemap.Min(|layout|, |Treemap.Positive(items)|)
      && forall i | 0 <= i < |nodes| ::
           && nodes[i].caption == Treemap.Positive(items)[i].caption
           && nodes[i].size == Treemap.Positive(items)[i].size
           && nodes[i].data == Treemap.Positive(items)[i].data
           && nodes[i].Box() == layout[i].box
  {
    if result.files == [] {
      return [];
    }
    var rootPath := RStripSeps(result.stats.diskPath);
    var sizeByRoot := SizeByRoot(result.files, |rootPath|);
    var sortedItems := Top50(Pairs(sizeByRoot.keys, sizeByRoot.items));
    if sortedItems == [] {
      return [];
    }
    var totalSize := SizeSum(sortedItems);
    if totalSize <= 0 {
      return [];
    }
    var mainItems := GroupItems(sortedItems, rootPath, totalSize);
    var width := IMax(canvasWidth, 800);
    var height := IMax(canvasHeight, 500);
    nodes := Treemap.BuildTreemap(AsItems(mainItems), width, height);
  }

  // ---------------------------------------------------------------------
  // on_scan_clicked

  datatype Mode = Fast | Full

  /** The exclusions of a fast scan; a full scan keeps only the first two. */
  const FastExclusions: seq<string> := [
    "$Recycle.Bin",
    "System Volume Information",
    "\\Windows\\WinSxS",
    "\\Windows\\Temp",
    "\\Windows\\Installer",
    "\\Program Files\\WindowsApps",
    "\\AppData\\Local\\Temp",
    ".git",
    "node_modules",
    "__pycache__"]

  const FullExclusions: seq<string> := ["$Recycle.Bin", "System Volume Information"]

  /** The `ScanOptions` each mode builds for the selected mount. */
  function OptionsFor(mode: Mode, mount: string): ScanOptions
  {
    match mode
    case Fast => ScanOptions(path := mount, recursive := true, followSymlinks := false, calculateHash := false,
                             excludePatterns := FastExclusions, maxDepth := Some(4))
    case Full => ScanOptions(path := mount, recursive := true, followSymlinks := false, calculateHash := false,
                             excludePatterns := FullExclusions, maxDepth := None)
  }

  /** A fast scan stops below depth 4 and has ten exclusions; a full scan
      is unbounded and has two, which a fast scan has too; neither follows
      links nor hashes, and both skip the recycle bin and the volume
      information folder. */
  lemma ScanModes(mount: string)
    ensures OptionsFor(Fast, mount).maxDepth == Some(4) && |OptionsFor(Fast, mount).excludePatterns| == 10
    ensures OptionsFor(Full, mount).maxDepth == None && |OptionsFor(Full, mount).excludePatterns| == 2
    ensures OptionsFor(Full, mount).excludePatterns == OptionsFor(Fast, mount).excludePatterns[..2]
    ensures forall m: Mode ::
              && OptionsFor(m, mount).path == mount
              && !OptionsFor(m, mount).followSymlinks && !OptionsFor(m, mount).calculateHash
              && OptionsFor(m, mount).recursive && OptionsFor(m, mount).collectFileDetails
              && "$Recycle.Bin" in OptionsFor(m, mount).excludePatterns
              && "System Volume Information" in OptionsFor(m, mount).excludePatterns
  {
  }

  /** What a click on "scan" does. */
  datatype Click = AlreadyScanning | NoDiskSelected | StartScan(options: ScanOptions)

  /** `on_scan_clicked`: refused while a scan thread is alive or when no
      disk is selected; otherwise the options for the selected mount. */
  function OnScanClicked(threadAlive: bool, idx: int, mounts: seq<string>, mode: Mode): (c: Click)
    ensures c.StartScan? <==> !threadAlive && 0 <= idx < |mounts|
    ensures c.StartScan? ==> c.options == OptionsFor(mode, mounts[idx])
    ensures threadAlive ==> c == AlreadyScanning
  {
    if threadAlive then AlreadyScanning
    else if idx < 0 || idx >= |mounts| then NoDiskSelected
    else StartScan(OptionsFor(mode, mounts[idx]))
  }
}
