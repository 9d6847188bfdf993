/**
 * The older ReadFile tool of internal/tools/file/ReadFile.go: the same path confinement as the
 * current one, but it reads the whole file, with no offset, length or size in the result.
 */
module ReadFileLegacy {
  import opened Wrappers
  import opened GoPath
  import opened Confine
  import opened Workspace

  datatype ReadFileArgs = ReadFileArgs(path: string)

  datatype ReadFileResult = ReadFileResult(content: seq<bv8>, error: Option<Fault>)

  /**
   * root.ReadFile(path): the file's bytes, or the error the host reports; a path that is not a
   * regular file below the root does not exist.
   */
  function RootReadFile(host: Host, path: string): (r: Result)
    ensures r.Read? <==> path in host.files && host.files[path].readErr.None?
    ensures r.Read? ==> r.data == host.files[path].data
    ensures path !in host.files ==> r == Failed(NotExist)
    ensures path in host.files && host.files[path].readErr.Some? ==> r == Failed(host.files[path].readErr.value)
  {
    if path !in host.files then Failed(NotExist)
    else if host.files[path].readErr.Some? then Failed(host.files[path].readErr.value)
    else Read(host.files[path].data)
  }

  datatype Result = Read(data: seq<bv8>) | Failed(cause: string)

  /**
   * ReadFile.go's readFile: the working directory and the root first, then the path is required
   * and confined, and the whole file is read; a read failure names the path as the caller gave it.
   */
  method ReadFile(host: Host, args: ReadFileArgs) returns (r: Outcome<ReadFileResult>)
    ensures host.getwdErr.Some? ==> r == Hard("failed to get working directory: " + host.getwdErr.value)
    ensures host.getwdErr.None? && host.openRootErr.Some? ==>
      r == Hard("failed to open root: " + host.openRootErr.value)
    ensures r.Hard? <==> host.getwdErr.Some? || host.openRootErr.Some?
    ensures r.Done? && args.path == "" ==> r.result == ReadFileResult([], Some(PathRequired))
    ensures r.Done? && args.path != "" && Check(host.wd, args.path) == Outside ==>
      r.result == ReadFileResult([], Some(OutsideWorkingDir))
    ensures r.Done? && args.path != "" && Check(host.wd, args.path) == Escapes ==>
      r.result == ReadFileResult([], Some(EscapingDetected))
    ensures r.Done? && args.path != "" && Check(host.wd, args.path).Inside? ==>
      var p := Check(host.wd, args.path).rel;
      match RootReadFile(host, p)
      case Read(data) => r.result == ReadFileResult(data, None)
      case Failed(cause) => r.result == ReadFileResult([], Some(ReadWholeFailed(args.path, cause)))
  {
    if host.getwdErr.Some? {
      return Hard("failed to get working directory: " + host.getwdErr.value);
    }
    if host.openRootErr.Some? {
      return Hard("failed to open root: " + host.openRootErr.value);
    }
    var relPath := args.path;
    if relPath == "" {
      return Done(ReadFileResult([], Some(PathRequired)));
    }
    match Check(host.wd, relPath)
    case Outside =>
      return Done(ReadFileResult([], Some(OutsideWorkingDir)));
    case Escapes =>
      return Done(ReadFileResult([], Some(EscapingDetected)));
    case Inside(p) =>
      relPath := p;
    var data := RootReadFile(host, relPath);
    if data.Failed? {
      return Done(ReadFileResult([], Some(ReadWholeFailed(args.path, data.cause))));
    }
    return Done(ReadFileResult(data.data, None));
  }
}
