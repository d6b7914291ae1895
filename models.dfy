/** The record types of models.py, with their default values as constructor
    defaults. Timestamps are the POSIX seconds `datetime.fromtimestamp` was
    given (or `datetime.now()` returned). */
module Models {
  import opened Wrappers
  import opened Dicts
  import Hierarchy

  type Timestamp = real

  /** `FileInfo`: `hash` defaults to None and `risk_level` to 0. */
  datatype FileInfo = FileInfo(
    path: string,
    name: string,
    size: int,
    createTime: Timestamp,
    modifyTime: Timestamp,
    accessTime: Timestamp,
    fileType: string,
    isDirectory: bool,
    permissions: string,
    owner: string,
    hash: Option<string> := None,
    riskLevel: int := 0)

  /** One value of `file_type_stats`: the dict `{"total_size", "file_count"}`. */
  datatype TypeStat = TypeStat(totalSize: int, fileCount: int)

  /** `DiskStats`: `largest_file` is None when no file was accepted;
      `file_type_stats` maps an extension to its counters, in the order the
      extensions were first seen. */
  datatype DiskStats = DiskStats(
    diskPath: string,
    totalSize: int,
    usedSize: int,
    freeSize: int,
    fileCount: int,
    folderCount: int,
    largestFile: Option<FileInfo>,
    fileTypeStats: Dict<string, TypeStat>,
    scanTime: Timestamp,
    lastModified: Timestamp)

  /** `ScanOptions`, with `max_depth = None` meaning unbounded. */
  datatype ScanOptions = ScanOptions(
    path: string,
    recursive: bool := true,
    followSymlinks: bool := false,
    calculateHash: bool := false,
    excludePatterns: seq<string> := [],
    maxDepth: Option<int> := None,
    collectFileDetails: bool := true)

  /** `ScanResult`. `hierarchy` is the dict object the scan filled, which is
      the caller's shared one when a caller passed it. */
  datatype ScanResult = ScanResult(
    files: seq<FileInfo>,
    stats: DiskStats,
    scanDurationMs: int,
    errorCount: int,
    hierarchy: Hierarchy.SizeTree,
    scanMethod: string := "scandir")

  /** A `ScanOptions` built from a path alone takes every default. */
  lemma ScanOptionsDefaults(path: string)
    ensures var o := ScanOptions(path);
      && o.path == path && o.recursive && !o.followSymlinks && !o.calculateHash
      && o.excludePatterns == [] && o.maxDepth == None && o.collectFileDetails
  {
  }

  /** A `FileInfo` built without `hash` and `risk_level` has none and 0. */
  lemma FileInfoDefaults(path: string, name: string, size: int, c: Timestamp, m: Timestamp, a: Timestamp,
                         fileType: string, isDirectory: bool, permissions: string, owner: string)
    ensures var f := FileInfo(path, name, size, c, m, a, fileType, isDirectory, permissions, owner);
      f.hash == None && f.riskLevel == 0 && f.size == size && f.path == path
  {
  }

  /** A `ScanResult` built without `scan_method` says "scandir". */
  lemma ScanResultDefaults(files: seq<FileInfo>, stats: DiskStats, ms: int, errors: int, h: Hierarchy.SizeTree)
    ensures ScanResult(files, stats, ms, errors, h).scanMethod == "scandir"
  {
  }

  /** A `ScanResult` built from its four required fields alone: its
      hierarchy is a new empty dictionary (`field(default_factory=dict)`),
      shared with nothing, and its method is "scandir". */
  method NewScanResult(files: seq<FileInfo>, stats: DiskStats, ms: int, errors: int) returns (r: ScanResult)
    ensures r.files == files && r.stats == stats && r.scanDurationMs == ms && r.errorCount == errors
    ensures fresh(r.hierarchy) && r.hierarchy.Valid()
    ensures r.hierarchy.totals == map[] && r.hierarchy.history == []
    ensures r.scanMethod == "scandir"
  {
    var h := new Hierarchy.SizeTree();
    r := ScanResult(files, stats, ms, errors, h);
  }
}
