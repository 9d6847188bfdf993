/**
 * The host the file tools run against, as plain data: what os.Getwd and os.OpenRoot answer, the
 * regular files below the working directory, and the directories a sub-root can be opened on,
 * each with what reading it gives.  Paths are keyed in the clean, relative form the tools open.
 * Also the error texts the file tools put in their results.
 */
module Workspace {
  import opened Wrappers

  const MinInt64: int := -0x8000_0000_0000_0000
  const MaxInt64: int := 0x7fff_ffff_ffff_ffff

  /** Go's int64. */
  type Int64 = x: int | MinInt64 <= x <= MaxInt64

  /** Go's two's-complement int64 addition: the mathematical sum brought back into range. */
  function AddInt64(a: Int64, b: Int64): (s: Int64)
    ensures MinInt64 <= a + b <= MaxInt64 ==> s == a + b
    ensures a + b > MaxInt64 ==> s == a + b - 0x1_0000_0000_0000_0000 && s < 0 <= a
    ensures a + b < MinInt64 ==> s == a + b + 0x1_0000_0000_0000_0000 && a < 0 <= s
  {
    var m := 0x1_0000_0000_0000_0000;
    (a + b - MinInt64) % m + MinInt64
  }

  /** A regular file: its bytes, and the errors Stat and ReadAt (other than io.EOF) would report. */
  datatype FileEntry = FileEntry(data: seq<bv8>, statErr: Option<string>, readErr: Option<string>)

  /** One entry of a directory as fs.ReadDir returns it. */
  datatype Entry = File(name: string) | Dir(name: string, listing: Listing)

  /** What reading a directory gives: its entries in the order fs.ReadDir returns them, or an error. */
  datatype Listing = Listed(entries: seq<Entry>) | Unreadable(cause: string)

  /**
   * The host: the working directory, the errors os.Getwd and os.OpenRoot would report, the
   * regular files and the directories below the working directory.
   */
  datatype Host = Host(
    wd: string,
    getwdErr: Option<string>,
    openRootErr: Option<string>,
    files: map<string, FileEntry>,
    dirs: map<string, Listing>)

  /** Every file size fits in the int64 that Stat reports. */
  predicate SizesFit(host: Host) {
    forall p :: p in host.files ==> |host.files[p].data| <= MaxInt64
  }

  /** The text of the error an open reports for a path that does not exist (fs.ErrNotExist). */
  const NotExist: string := "file does not exist"

  /** The errors the file tools report inside their results (never as a hard error). */
  datatype Fault =
    | PathRequired
    | OutsideWorkingDir
    | EscapingDetected
    | OpenFileFailed(path: string, cause: string)
    | StatFailed(cause: string)
    | ReadAtFailed(offset: int, cause: string)
    | ReadWholeFailed(path: string, cause: string)
    | OpenDirFailed(path: string, cause: string)
    | WalkFailed(path: string, cause: string)

  /** A path in double quotes, the way %q writes a path without special characters. */
  function Quote(s: string): string {
    "\"" + s + "\""
  }

  /** The decimal digits of n, the way %d writes it. */
  function Decimal(n: int): string
    decreases if n < 0 then 1 - n else n
  {
    if n < 0 then "-" + Decimal(-n)
    else if n < 10 then [['0','1','2','3','4','5','6','7','8','9'][n]]
    else Decimal(n / 10) + Decimal(n % 10)
  }

  /** The text a result's Error field holds for each fault. */
  function Message(f: Fault): string {
    match f
    case PathRequired => "Path is required"
    case OutsideWorkingDir => "Access denied: path is outside current directory"
    case EscapingDetected => "Access denied: path escaping detected"
    case OpenFileFailed(p, c) => "Error opening file " + Quote(p) + ": " + c
    case StatFailed(c) => "Error stating file: " + c
    case ReadAtFailed(o, c) => "Error reading file at offset " + Decimal(o) + ": " + c
    case ReadWholeFailed(p, c) => "Error reading file " + Quote(p) + ": " + c
    case OpenDirFailed(p, c) => "Error opening directory " + Quote(p) + ": " + c
    case WalkFailed(p, c) => "Error reading " + Quote(p) + ": " + c
  }
}
