/** The file system, the clock and the progress callback as the scanners see
    them. Every answer the operating system would give (`os.scandir`,
    `entry.is_dir`, `entry.stat`, `os.readlink`, `shutil.disk_usage`,
    `time.time`, `datetime.now`) is an input here. */
module FsModel {
  import opened Text
  import opened Flags
  import opened FileStats

  /** A directory entry name; `os.scandir` never yields an empty one. */
  type Name = s: string | s != [] witness "a"

  /** The answer of `entry.is_dir(follow_symlinks=...)`. */
  datatype Probe = ProbeFails | Answers(isDir: bool)

  /** What `stat.S_ISREG` / `stat.S_ISDIR` say of `st_mode`. */
  datatype Kind = Regular | Directory | Special

  /** The answer of `entry.stat(follow_symlinks=...)`: the mode's kind,
      `st_size`, `st_file_attributes`, the three times, and what
      `datetime.fromtimestamp` does with those times. */
  datatype Stat =
    | StatFails
    | StatOk(kind: Kind, size: nat, attributes: nat,
             ctime: real, mtime: real, atime: real, conversion: Conversion)

  /** One entry of a listing, with each query's answer for either setting of
      `follow_symlinks`, and whether `os.readlink` on it succeeds. */
  datatype Entry = Entry(
    name: Name,
    dirFollow: Probe, dirNoFollow: Probe,
    statFollow: Stat, statNoFollow: Stat,
    readlinkOk: bool)

  datatype Listing = CannotOpen | Listed(entries: seq<Entry>)

  /** The listing `os.scandir` gives for each path; a path that is not a key
      cannot be opened. */
  type FileSystem = map<string, Listing>

  predicate Listable(fs: FileSystem, dir: string)
  {
    dir in fs && fs[dir].Listed?
  }

  /** `entry.path`: the directory, a backslash unless the directory is empty
      or already ends in a separator or a drive colon, and the name. */
  function JoinPath(dir: string, name: Name): (p: string)
    ensures |p| > |dir| && p[..|dir|] == dir
  {
    var glue := if dir != [] && !IsSep(dir[|dir| - 1]) && dir[|dir| - 1] != ':' then "\\" else "";
    dir + glue + name
  }

  /** `_is_junction_or_symlink`: the entry's own (not followed) attributes
      carry the reparse-point flag and `os.readlink` succeeds; a failing stat
      means no. */
  predicate IsJunctionOrSymlink(e: Entry)
  {
    match e.statNoFollow
    case StatFails => false
    case StatOk(_, _, attrs, _, _, _, _) => HasFlag(attrs, FileAttributeReparsePoint) && e.readlinkOk
  }

  /** `shutil.disk_usage(path)`, or the exception it raised. */
  datatype Usage = UsageFails | Usage(total: nat, used: nat, free: nat)

  /** `time.time()` at the start and the end of a scan and `datetime.now()`
      after it. */
  datatype Clock = Clock(start: real, end: real, now: real)

  /** `int(x)`: truncation toward zero. */
  function Trunc(x: real): (r: int)
    ensures x >= 0.0 ==> r as real <= x < r as real + 1.0
    ensures x < 0.0 ==> r as real - 1.0 < x <= r as real
  {
    if x >= 0.0 then x.Floor else -((-x).Floor)
  }

  /** `int((end - start) * 1000)` */
  function DurationMs(c: Clock): int
  {
    Trunc((c.end - c.start) * 1000.0)
  }

  /** The text argument of a progress callback: a path, or one of the MFT
      backend's status messages with the number it shows. */
  datatype Status =
    | AtPath(path: string)
    | ReadingMft
    | ReadingMftDirs(dirs: nat)
    | BuildingTree(dirs: nat)
    | StartingSizes(dirs: nat)

  /** One call `progress_callback(files, folders, text, ratio)`. */
  datatype Event = Event(files: nat, folders: nat, status: Status, ratio: real)

  /** `min(0.999, scanned / total)`, or 0 when either is 0. */
  function WalkRatio(scanned: nat, total: nat): (r: real)
    ensures 0.0 <= r <= 0.999
    ensures r == 0.0 <==> scanned == 0 || total == 0
  {
    if total > 0 && scanned > 0 then Min(0.999, scanned as real / total as real) else 0.0
  }

  function Min(a: real, b: real): real
  {
    if a <= b then a else b
  }
}
