/**
 * The ReadFile tool of internal/tools/file/read_file.go: reads a window of at most 128 KiB of a
 * file below the working directory, starting at an offset, and reports the file's total size.
 */
module ReadFileTool {
  import opened Wrappers
  import opened GoPath
  import opened Confine
  import opened Workspace

  /** The window read when no positive length is asked for, and the largest window ever read. */
  const DefaultReadLength: int := 32 * 1024
  const MaxReadLength: int := 128 * 1024

  datatype ReadFileArgs = ReadFileArgs(path: string, offset: Int64, length: Int64)

  /** The result envelope; Go's zero values (empty content, total 0) stand in for absent fields. */
  datatype ReadFileResult = ReadFileResult(content: seq<bv8>, total: int, error: Option<Fault>)

  function Min(a: int, b: int): int { if a <= b then a else b }

  /**
   * The length actually read for a requested length: the default for a request that is not
   * positive, the request capped at the maximum otherwise.
   */
  function EffectiveLength(requested: int): (n: int)
    ensures 1 <= n <= MaxReadLength
    ensures requested <= 0 ==> n == DefaultReadLength
    ensures 0 < requested <= MaxReadLength ==> n == requested
    ensures MaxReadLength < requested ==> n == MaxReadLength
  {
    if requested <= 0 then DefaultReadLength else Min(requested, MaxReadLength)
  }

  /** The bytes of `data` from `offset` on, at most `length` of them; none at or past the end. */
  function Window(data: seq<bv8>, offset: nat, length: nat): seq<bv8> {
    if offset >= |data| then [] else data[offset..offset + Min(length, |data| - offset)]
  }

  /** What ReadAt reports besides the byte count. */
  datatype ReadStatus = Complete | AtEof | IoError(cause: string)

  /**
   * os.File.ReadAt(buf, off) on the file f: fills buf from the file's bytes at `off` on, stopping
   * at the end of the file (then reporting io.EOF); a read error the host injects is reported as is.
   */
  method ReadAt(f: FileEntry, buf: array<bv8>, off: nat) returns (n: nat, status: ReadStatus)
    modifies buf
    ensures n <= buf.Length
    ensures status.IoError? <==> f.readErr.Some?
    ensures f.readErr.Some? ==> status == IoError(f.readErr.value)
    ensures f.readErr.None? ==> n == (if off >= |f.data| then 0 else Min(buf.Length, |f.data| - off))
    ensures f.readErr.None? && n > 0 ==> buf[..n] == f.data[off..off + n]
    ensures f.readErr.None? ==> (status == AtEof <==> n < buf.Length)
  {
    if f.readErr.Some? {
      return 0, IoError(f.readErr.value);
    }
    n := 0;
    while n < buf.Length && off + n < |f.data|
      invariant n <= buf.Length
      invariant off + n <= |f.data| || n == 0
      invariant n > 0 ==> buf[..n] == f.data[off..off + n]
    {
      buf[n] := f.data[off + n];
      n := n + 1;
      assert buf[..n] == buf[..n - 1] + [buf[n - 1]];
      assert n > 1 ==> f.data[off..off + n] == f.data[off..off + n - 1] + [f.data[off + n - 1]];
    }
    status := if n < buf.Length then AtEof else Complete;
  }

  /**
   * read_file.go's readFile: the offset is checked first, then the working directory and the
   * root; the path is required and confined; the file is opened and sized; the window is read.
   */
  method ReadFile(host: Host, args: ReadFileArgs) returns (r: Outcome<ReadFileResult>)
    requires SizesFit(host)
    ensures args.offset < 0 ==> r == Hard("invalid offset")
    ensures args.offset >= 0 && host.getwdErr.Some? ==>
      r == Hard("failed to get working directory: " + host.getwdErr.value)
    ensures args.offset >= 0 && host.getwdErr.None? && host.openRootErr.Some? ==>
      r == Hard("failed to open root: " + host.openRootErr.value)
    ensures r.Hard? <==> args.offset < 0 || host.getwdErr.Some? || host.openRootErr.Some?
    ensures r.Done? && args.path == "" ==> r.result == ReadFileResult([], 0, Some(PathRequired))
    ensures r.Done? && args.path != "" && Check(host.wd, args.path) == Outside ==>
      r.result == ReadFileResult([], 0, Some(OutsideWorkingDir))
    ensures r.Done? && args.path != "" && Check(host.wd, args.path) == Escapes ==>
      r.result == ReadFileResult([], 0, Some(EscapingDetected))
    ensures r.Done? && args.path != "" && Check(host.wd, args.path).Inside? ==>
      var p := Check(host.wd, args.path).rel;
      if p !in host.files then r.result == ReadFileResult([], 0, Some(OpenFileFailed(args.path, NotExist)))
      else r.result == ReadOpened(host.files[p], args.offset, args.length)
  {
    if args.offset < 0 {
      return Hard("invalid offset");
    }
    if host.getwdErr.Some? {
      return Hard("failed to get working directory: " + host.getwdErr.value);
    }
    if host.openRootErr.Some? {
      return Hard("failed to open root: " + host.openRootErr.value);
    }
    var relPath := args.path;
    if relPath == "" {
      return Done(ReadFileResult([], 0, Some(PathRequired)));
    }
    match Check(host.wd, relPath)
    case Outside =>
      return Done(ReadFileResult([], 0, Some(OutsideWorkingDir)));
    case Escapes =>
      return Done(ReadFileResult([], 0, Some(EscapingDetected)));
    case Inside(p) =>
      relPath := p;
    if relPath !in host.files {
      return Done(ReadFileResult([], 0, Some(OpenFileFailed(args.path, NotExist))));
    }
    var res := ReadOpen(host.files[relPath], args.offset, args.length);
    return Done(res);
  }

  /**
   * What readFile reports for the opened file f, read from `offset` with the requested length:
   * a stat error, the bare size when the offset is at or past the end, a read error, or the window.
   */
  function ReadOpened(f: FileEntry, offset: nat, requested: int): ReadFileResult {
    if f.statErr.Some? then ReadFileResult([], 0, Some(StatFailed(f.statErr.value)))
    else if offset >= |f.data| then ReadFileResult([], |f.data|, None)
    else if f.readErr.Some? then ReadFileResult([], 0, Some(ReadAtFailed(offset, f.readErr.value)))
    else ReadFileResult(Window(f.data, offset, EffectiveLength(requested)), |f.data|, None)
  }

  /**
   * The rest of readFile once the file is open: stat it, settle the length, and read the window
   * into a buffer of that length.
   */
  method ReadOpen(f: FileEntry, offset: Int64, requested: Int64) returns (res: ReadFileResult)
    requires offset >= 0 && |f.data| <= MaxInt64
    ensures res == ReadOpened(f, offset as nat, requested as int)
  {
    if f.statErr.Some? {
      return ReadFileResult([], 0, Some(StatFailed(f.statErr.value)));
    }
    var totalSize: Int64 := |f.data|;
    var length: Int64 := requested;
    if length <= 0 {
      length := DefaultReadLength;
    }
    if length > MaxReadLength {
      length := MaxReadLength;
    }
    if offset >= totalSize {
      return ReadFileResult([], totalSize, None);
    }
    if AddInt64(offset, length) > totalSize {
      length := totalSize - offset;
    }
    var buf := new bv8[length];
    var n, status := ReadAt(f, buf, offset as nat);
    if status.IoError? {
      return ReadFileResult([], 0, Some(ReadAtFailed(offset as int, status.cause)));
    }
    return ReadFileResult(buf[..n], totalSize, None);
  }

  // ---------------------------------------------------------------------------------------------
  // Properties of the window.

  /** The window is a slice of the file that starts at the offset and is never longer than asked. */
  lemma WindowBounds(data: seq<bv8>, offset: nat, length: nat)
    ensures |Window(data, offset, length)| <= length
    ensures offset + |Window(data, offset, length)| <= |data| || Window(data, offset, length) == []
    ensures forall i :: 0 <= i < |Window(data, offset, length)| ==>
      Window(data, offset, length)[i] == data[offset + i]
    ensures offset < |data| && 0 < length ==> |Window(data, offset, length)| > 0
  {
  }

  /**
   * Reading on from where a window ended continues it seamlessly: a window of a bytes followed
   * by the window of b bytes that starts at its end is the window of a + b bytes.  So a caller who
   * advances the offset by the content length and stops once it reaches the total reads the file.
   */
  lemma WindowsTile(data: seq<bv8>, offset: nat, a: nat, b: nat)
    ensures var w := Window(data, offset, a);
      w + Window(data, offset + |w|, b) == Window(data, offset, a + b)
  {
    var w := Window(data, offset, a);
    if offset < |data| {
      var e := offset + |w|;
      if e < |data| {
        assert data[offset..e] + data[e..e + Min(b, |data| - e)] == data[offset..e + Min(b, |data| - e)];
      }
    }
  }

  /** The window holds the whole rest of the file exactly when the rest fits in the length. */
  lemma WindowReachesEnd(data: seq<bv8>, offset: nat, length: nat)
    requires offset <= |data|
    ensures Window(data, offset, length) == data[offset..] <==> |data| - offset <= length
  {
    if offset < |data| && |data| - offset > length {
      assert |Window(data, offset, length)| == length < |data[offset..]|;
    }
  }
}
