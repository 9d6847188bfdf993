# codecp read-only workspace tools, modelled in Dafny

codecp is a coding agent. This project models the decision logic of the read-only tools it offers the model, and proves properties of that logic:

- **Confinement.** The path check shared by `ReadFile`, the older whole-file `ReadFile` and `ListFiles`. An absolute path is made relative to the working directory with `filepath.Rel`. The path is cleaned with `filepath.Clean`. Anything whose clean form begins with `..` is denied. `Clean`, `Rel`, `strings.Split` and `path.Join` are modelled lexically over `/`-separated elements (modules `GoPath`, `Confine`).
- **ReadFile.** The bounded read window: offset check, length default and clamp, the end-of-file window, and the result envelope. The file is a byte sequence, read into a buffer array by `ReadAt` (module `ReadFileTool`).
- **ReadFile, older version.** The same path check followed by a whole-file read (module `ReadFileLegacy`).
- **ListFiles.** A depth-bounded walk driven by `fs.WalkDir`'s callback protocol, over an abstract directory tree whose entries are in lexical order. The callback's captured depth and `files` slice are the fields of class `Lister`. Its recursive methods follow `fs.walkDir`: call back first, then read the directory, then call back again when that read fails. `SkipDir` skips a directory's contents, or a file's remaining siblings (module `ListFilesTool`).
- **GitStatus.** The classification of go-git status entries into modified and untracked (module `GitStatusTool`).
- **GitLog.** The bounded loop over the commit iterator (module `GitLogTool`).
- **GitDiff.** The `git diff` argument vector and how the command's output or error is reported (module `GitDiffTool`).
- **Toolsets.** Toolset assembly in both versions: all five tools, or only the two file tools (modules `ToolKit`, `Toolset`, `ToolsetLegacy`).

Modelling choices:

- The host is an input value (`Workspace.Host`). It holds the working directory, the failure of `os.Getwd` or `os.OpenRoot` if any, a map from clean relative paths to files, and a map from clean relative paths to directory listings.
- A repository is an input value (`GitRepo.Repo`). It holds the open, worktree and status failures, the status map, and the sequence of answers of the commit iterator.
- Running `git` is a function parameter of `GitDiff`.
- The walk writes an entry's path as `ChildOf`: the name alone below `"."`, and directory + "/" + name elsewhere. `ChildIsPathJoin` proves this equal to `path.Join` for every name a listing can hold. The depth check counts separators, which `SplitLength` proves equal to the length of `strings.Split`.
- A Go "hard" error (nil result, non-nil error) is `Outcome.Hard`. An error reported inside the result is the result's error field.

Differences between the tools' documentation and their code; the model follows the code:

- Only a depth of `0` is replaced by the default depth 1. A negative depth is kept. It makes even `"."` exceed the bound, so the list is empty and no error is reported.
- `ListFiles` paths are relative to the requested directory, not to the working directory.
- `ReadFile` and `ListFiles` deny every path whose clean form begins with the characters `..`. This includes harmless names such as `..foo`.

## Model

| member | source | states |
|---|---|---|
| GoPath.HasPrefix | internal/tools/file/read_file.go:64 | strings.HasPrefix: the string starts with the prefix. Also at read_file.go:70, ReadFile.go:51 and 57, and list_files.go:72 and 78 |
| GoPath.IsAbs | internal/tools/file/read_file.go:62 | filepath.IsAbs on a Unix host: the path starts with "/". Also at ReadFile.go:49 and list_files.go:70 |
| GoPath.Clean | internal/tools/file/read_file.go:69 | filepath.Clean on a Unix host: split at "/", drop empty and "." elements, let ".." cancel the element before it (or vanish right after the root, or stay in a leading run), and write the elements back with "/" in front of a rooted path and "." for an empty relative one |
| GoPath.Split | internal/tools/file/list_files.go:96 | strings.Split with "/" gives at least one part, no part contains "/", and joining the parts with "/" gives the input back |
| GoPath.SplitJoin | internal/tools/file/list_files.go:96 | splitting a "/"-join of separator-free parts gives exactly those parts |
| GoPath.Reduce | internal/tools/file/read_file.go:69 | Clean's element rewriting always ends in canonical form: no empty or "." element, ".." only in a leading run and never after the root |
| GoPath.CleanShape | internal/tools/file/read_file.go:69 | Cleaning is non-empty and keeps absoluteness; the clean form's elements are canonical, and the clean form is those elements rendered back |
| GoPath.CleanIdempotent | internal/tools/file/read_file.go:69 | cleaning a clean path changes nothing |
| GoPath.RelClean | internal/tools/file/read_file.go:63 | filepath.Rel once both paths are clean. Equal paths give ".". It fails when exactly one path is rooted, or when the base would be left through its own "..". Otherwise one ".." per base element past the shared start, then the target's remaining elements; a target of "." is kept as an element, so Rel("a", ".") is "../." |
| GoPath.Rel | internal/tools/file/read_file.go:63 | filepath.Rel(basepath, targpath): both paths are cleaned first, then RelClean answers |
| GoPath.RelToDot | internal/tools/file/read_file.go:63 | Rel("a", ".") is "../.", as Go's Rel writes it, not ".." |
| GoPath.RelMixedRoots | internal/tools/file/read_file.go:63-64 | Rel("/w", "x") fails: one path rooted and the other not |
| GoPath.RelThroughDotDot | internal/tools/file/read_file.go:63-64 | Rel("../a", "b") fails, and so does every base "../a" with a target element b other than "..": the base would be left through its own ".." |
| GoPath.JoinPath | internal/tools/file/list_files.go:92 | path.Join(dir, name) for two non-empty parts: join them with "/", then clean |
| GoPath.CommonPrefix | internal/tools/file/read_file.go:63 | the number of leading elements two paths share is maximal: the next elements differ |
| GoPath.CleanOfCanonical | internal/tools/file/read_file.go:69 | a "/"-join of canonical relative elements is already clean and relative |
| Confine.Check | internal/tools/file/read_file.go:61-72 | the confinement check of all three tools (also ReadFile.go:48-59 and list_files.go:69-80). An absolute path goes through Rel from the working directory: a failure, or a result beginning with "..", is Outside. Either way the path is then cleaned by Lexical |
| Confine.Lexical | internal/tools/file/read_file.go:69-72 | clean the path; a clean form beginning with ".." is Escapes, anything else is accepted as that clean form |
| Confine.RelIsRelative | internal/tools/file/read_file.go:63-67 | filepath.Rel never answers with an absolute path |
| Confine.LexicalConfined | internal/tools/file/read_file.go:69-72 | a path the clean-and-prefix step accepts comes out clean, keeps its absoluteness, and has no ".." element |
| Confine.AcceptedIsConfined | internal/tools/file/read_file.go:61-74 | every path the check accepts is relative, already clean, and has no ".." element, so it cannot climb out of the root lexically |
| Confine.RelativeVerdict | internal/tools/file/read_file.go:69-72 | a relative path is accepted iff the first element of its clean form does not begin with ".."; if accepted, as its clean form; if not, as escaping |
| Confine.RelOfAbsolute | internal/tools/file/read_file.go:63 | Rel between two absolute paths, in terms of their clean elements: "." when they are equal, otherwise ".." for each element of the working directory past the shared start, followed by the path's remaining elements |
| Confine.AbsoluteOutside | internal/tools/file/read_file.go:62-66 | an absolute path whose clean elements do not extend the working directory's is denied as outside |
| Confine.AbsoluteBelow | internal/tools/file/read_file.go:62-68 | an absolute path below the working directory is accepted as its remaining elements ("." for the directory itself), unless the first remaining element begins with "..", in which case it is outside |
| Confine.ClimbOutEscapes | internal/tools/file/read_file.go:69-72 | the relative path d/../../n climbs out and is denied as escaping |
| Confine.DotDotNamesEscape | internal/tools/file/read_file.go:70-72 | ".." and the harmless name "..foo" are both denied as escaping |
| Confine.AbsoluteClimbOutDenied | internal/tools/file/read_file.go:62-66 | with working directory /w, the path /w/s/../../x/y (for example /work/secret/../../etc/passwd) is denied as outside whenever x is not w |
| Workspace.AddInt64 | internal/tools/file/read_file.go:100 | int64 addition wraps around: the exact sum when it fits, and a negative result when a non-negative offset plus a positive length overflows |
| Workspace.Message | internal/tools/file/read_file.go:58-110 | the Error text for each fault (also ReadFile.go and list_files.go). The fixed denial texts are exact. The Sprintf texts are built with a plain-quote %q and decimal %d |
| ReadFileTool.EffectiveLength | internal/tools/file/read_file.go:88-94 | the length is 32768 when the request is at most 0, the request when it lies in 1..131072, and 131072 above that; so always 1..131072 |
| ReadFileTool.ReadAt | internal/tools/file/read_file.go:104-105 | ReadAt reports the file's read error if it has one. Otherwise it fills the buffer in place with the file's bytes from the offset, min(buffer size, bytes left) of them, and reports EOF iff it filled fewer bytes than the buffer holds |
| ReadFileTool.ReadFile | internal/tools/file/read_file.go:41-80 | each branch of the reader up to the open. A negative offset is a hard error, checked before anything else. Getwd and OpenRoot failures are hard errors, and these three are the only hard errors. An empty path gives "Path is required". The two denials. A missing file is an open error quoting the path as given. An opened file gives what ReadOpen reads from it |
| ReadFileTool.ReadOpen | internal/tools/file/read_file.go:81-116 | a stat error first. An offset at or past the end gives empty content with the file's size, even when reading would fail. Then a read error. Otherwise the content is the window file[offset .. offset + min(effective length, size - offset)], with the size as total; the int64 overflow of offset + length never changes this window |
| ReadFileTool.Window | internal/tools/file/read_file.go:96-115 | the content read: the file's bytes from the offset, min(length, size - offset) of them, and none at or past the end |
| ReadFileTool.ReadOpened | internal/tools/file/read_file.go:81-116 | what readFile reports for an opened file, in the source's order: a stat error; an offset at or past the end, with the size; a read error quoting the offset; otherwise the window of the effective length, with the size |
| ReadFileTool.WindowBounds | internal/tools/file/read_file.go:100-115 | the window is the file's bytes from the offset on, never longer than the length, and non-empty when the offset is inside the file and the length is positive |
| ReadFileTool.WindowsTile | internal/tools/file/read_file.go:96-115 | a window of a bytes, followed by the window of b bytes starting where it ended, is the window of a + b bytes; so advancing the offset by the content length reads the file on seamlessly |
| ReadFileTool.WindowReachesEnd | internal/tools/file/read_file.go:100-102 | the window is the whole rest of the file iff the rest fits in the length |
| ReadFileLegacy.RootReadFile | internal/tools/file/ReadFile.go:62 | root.ReadFile gives the whole file when it reads without error, or fails with "file does not exist" for a missing one or with the file's own read error |
| ReadFileLegacy.ReadFile | internal/tools/file/ReadFile.go:31-70 | Getwd and OpenRoot failures are the only hard errors. An empty path gives "Path is required". The two denials. On success the content is the entire file, with no offset or length bound. A read failure is reported in the result, quoting the path as given |
| ListFilesTool.EffectiveDepth | internal/tools/file/list_files.go:48-51 | only a depth of 0 becomes 1; every other depth, negative ones included, is kept |
| ListFilesTool.Lister.constructor | internal/tools/file/list_files.go:91 | the lister starts with an empty list |
| ListFilesTool.Lister.Visit | internal/tools/file/list_files.go:92-101 | the callback passes an error on and lists nothing. A path with more "/"-parts than the depth gets SkipDir. Any other path is appended to the list |
| ListFilesTool.NameLen | internal/tools/file/list_files.go:96 | the callback's part count of a path: one more than its separators |
| ListFilesTool.SplitLength | internal/tools/file/list_files.go:96 | the number of parts strings.Split gives is one more than the number of separators |
| ListFilesTool.ChildOf | internal/tools/file/list_files.go:92 | the path fs.WalkDir gives a directory's entry: the name alone below ".", dir + "/" + name elsewhere |
| ListFilesTool.WalkEntry | internal/tools/file/list_files.go:92-102 | fs.walkDir with this callback, on one entry. An entry with more parts than the depth gives SkipDir: for a directory this skips its contents (answer nil); for a file it goes up to the parent. Otherwise the path is listed, and a directory is read |
| ListFilesTool.Contents | internal/tools/file/list_files.go:92-95 | reading a directory: an error goes to the callback, which returns it and ends the walk; otherwise its entries are walked |
| ListFilesTool.WalkFrom | internal/tools/file/list_files.go:92-102 | walkDir's loop over a directory's entries from the i-th on. A SkipDir stops the loop, and the directory answers nil. An error ends the walk. Otherwise the next entry follows |
| ListFilesTool.WalkRoot | internal/tools/file/list_files.go:92-103 | fs.WalkDir(sub-root, ".", callback): the walk of the sub-root itself, where SkipDir becomes nil |
| ListFilesTool.Lister.WalkDir | internal/tools/file/list_files.go:92-102 | walking an entry appends exactly what the step function WalkEntry lists, and answers its signal |
| ListFilesTool.Lister.ReadDir | internal/tools/file/list_files.go:92-95 | reading a directory appends what walking its entries lists; a read error is passed to the callback, which ends the walk with it |
| ListFilesTool.Lister.WalkEntries | internal/tools/file/list_files.go:92-102 | the loop over a directory's entries appends exactly what WalkFrom lists from the first entry on, and answers its signal |
| ListFilesTool.Lister.Walk | internal/tools/file/list_files.go:92-102 | walking the sub-root appends exactly what WalkRoot lists, and fails iff WalkRoot stops, with its cause |
| ListFilesTool.DoListFiles | internal/tools/file/list_files.go:45-110 | Getwd and OpenRoot failures are the only hard errors. An empty directory means ".". The two denials. A directory that is not there gives the open error, quoting the directory as given. A walk error gives that error and no files, never a partial list. Otherwise the files are what the walk of the directory lists at the effective depth |
| ListFilesTool.WalkMatchesPreOrder | internal/tools/file/list_files.go:92-102 | against an independent reference, the tree's pre-order filtered by depth. The walk fails iff some unreadable directory lies within the depth, and then with the first one's error. Otherwise it lists, in pre-order with "." first, exactly the entries whose path has at most depth parts, so nothing below an over-depth entry appears |
| ListFilesTool.WalkEntryAgrees | internal/tools/file/list_files.go:92-101 | the walk of one entry agrees with the reference on that entry's subtree; it answers SkipDir only for an over-depth file |
| ListFilesTool.WalkFromAgrees | internal/tools/file/list_files.go:92-101 | the walk of a directory's entries agrees with the reference on their subtrees, even though SkipDir from a file drops its remaining siblings (they are all over the depth too); it never answers SkipDir |
| ListFilesTool.ChildPath | internal/tools/file/list_files.go:92 | the path the walk gives an entry is the directory's path one name further ("." is dropped) |
| ListFilesTool.ChildIsPathJoin | internal/tools/file/list_files.go:92 | that path is path.Join of the directory's path and the entry's name, for every name a directory listing can hold |
| ListFilesTool.NegativeDepthListsNothing | internal/tools/file/list_files.go:96-99 | with a negative depth, "." itself is over the bound: nothing is listed and no error arises, even for an unreadable directory |
| ListFilesTool.DeepEntriesListNothing | internal/tools/file/list_files.go:96-99 | entries beyond the depth are neither listed nor read |
| ListFilesTool.DepthOneListsEntries | internal/tools/file/list_files.go:96-100 | at depth 1 the list is "." followed by the names of the directory's entries, in order, when all of its subdirectories can be read |
| ListFilesTool.UnreadableEntryFailsDepthOne | internal/tools/file/list_files.go:92-107 | a directory within the depth is always read before its contents are pruned, so one unreadable subdirectory fails a depth-1 listing as a whole |
| ListFilesTool.ListedPathsAreConfined | internal/tools/file/list_files.go:92-100 | every listed path is relative, clean and free of ".." elements. Passed back to the confinement check, it is never denied as outside the working directory. It is accepted unchanged unless its first name begins with ".." |
| GitStatusTool.GitStatus | internal/tools/git/status.go:27-61 | an open, worktree or status error gives that error and both lists empty. Otherwise untracked holds exactly the files whose worktree code is Untracked, and modified exactly the other files with a non-Unmodified code on either side. Each list holds each file at most once |
| GitStatusTool.ClassifiedPartition | internal/tools/git/status.go:50-56 | the two lists are disjoint. A file unmodified on both sides is in neither. An untracked file is untracked whatever its index code. Every other file with a change is modified |
| GitStatusTool.ClassifiedSize | internal/tools/git/status.go:50-56 | together the lists are no longer than the status map |
| GitLogTool.EffectiveMax | internal/tools/git/log.go:32-35 | the bound is 100 when 0 is asked for, and the request otherwise |
| GitLogTool.CommitIter.constructor | internal/tools/git/log.go:45 | the iterator starts at the first answer |
| GitLogTool.CommitIter.Next | internal/tools/git/log.go:48 | Next gives the next recorded answer, and io.EOF once they run out |
| GitLogTool.LeadingCommits | internal/tools/git/log.go:47-61 | the number of commits before the iterator's first other answer |
| GitLogTool.Texts | internal/tools/git/log.go:59 | the String forms of a run of commits, one each, in order |
| GitLogTool.LogOf | internal/tools/git/log.go:47-64 | what gitLog answers for a bound m and n leading commits. If 0 < m < n, the first m commits. Otherwise, if the iterator fails right after the n-th commit, no commits and that error. Otherwise all n commits |
| GitLogTool.GitLog | internal/tools/git/log.go:31-65 | an open error gives that error. Otherwise the result is LogOf: with n leading commits and bound m, the first m commits when 0 < m < n; otherwise the error the iterator gives right after the n-th commit, or else all n commits |
| GitLogTool.LogIsPrefix | internal/tools/git/log.go:44-61 | the commits returned are the String forms of the history's first commits, in iterator order |
| GitLogTool.LogLength | internal/tools/git/log.go:47-60 | for a positive bound, min(bound, leading commits) commits are returned, unless the iterator fails after the last of them |
| GitLogTool.NegativeBoundReturnsAll | internal/tools/git/log.go:56 | a negative bound is never reached, so every leading commit is returned |
| GitLogTool.ErrorAfterLastWantedCommit | internal/tools/git/log.go:48-58 | the iterator is asked once more before the bound is compared, so an error right after the m-th of m wanted commits discards them all |
| GitLogTool.ErrorBeyondBoundUnseen | internal/tools/git/log.go:56-58 | with fewer wanted commits than there are, the result is exactly that many commits and no error |
| GitDiffTool.DiffArgv | internal/tools/git/diff.go:31-39 | the arguments git gets: "diff", then the commit if set, then the path if set |
| GitDiffTool.BuildArgs | internal/tools/git/diff.go:31-39 | the vector built by the append chain is "diff", then the commit if set, then the path if set; 1 to 3 arguments, "diff" first |
| GitDiffTool.GitDiff | internal/tools/git/diff.go:30-51 | git is run on that vector. On failure the result is empty and the error is the failure's text, with the output dropped. On success the result is the combined output and the error is empty |
| GitDiffTool.DiffArgvCases | internal/tools/git/diff.go:33-39 | ["diff", commit, path], ["diff", commit], ["diff", path] or ["diff"], according to which of the two are set |
| GitDiffTool.DiffArgvVerbatim | internal/tools/git/diff.go:33-41 | every argument after "diff" is the commit or the path itself: no "--" separator and no check, so a value beginning with "-" reaches git unchanged |
| GitDiffTool.DiffArgvLoneValue | internal/tools/git/diff.go:35-39 | a commit alone and a path alone give the same vector, so git decides which a lone value means |
| ToolKit.ToolName | internal/tools/file/list_files.go:32 | the name each constructor registers: "ListFiles" here, "ReadFile" at read_file.go:33 and ReadFile.go:24, "GitStatus" at git/status.go:19, "GitLog" at git/log.go:24, "GitDiff" at git/diff.go:22 |
| ToolKit.Constructors.Construct | internal/tools/source_view_tools.go:28 | a constructor call is recorded and gives the given error, or the tool under its registered name |
| ToolKit.FirstFailure | internal/tools/source_view_tools.go:27-31 | the position of the first failing constructor: all before it succeed, and it fails (or it is the end of the list) |
| ToolKit.Built | internal/tools/source_view_tools.go:32 | one tool per constructor, in constructor order |
| Toolset.Name | internal/tools/source_view_tools.go:21-23 | the toolset's name is always "SourceViewingTools" |
| Toolset.Assemble | internal/tools/source_view_tools.go:26-34 | for any constructor list: on success, one tool per constructor in list order. On the first constructor error, no tools and that error. The constructors are called in order, up to and including the first that fails, and no further |
| Toolset.Tools | internal/tools/source_view_tools.go:25-35 | on success, exactly ListFiles, ReadFile, GitStatus, GitLog and GitDiff, in that order. On the first constructor error, no tools and that error, with no later constructor called. Every constructor up to the first failure is called, in order |
| ToolsetLegacy.Name | internal/tools/SourceVIewTools.go:12-14 | the older toolset's name is also always "SourceViewingTools" |
| ToolsetLegacy.Tools | internal/tools/SourceVIewTools.go:16-29 | on success, exactly ListFiles and ReadFile. A ListFiles failure gives no tools and its error, without calling the ReadFile constructor. A ReadFile failure gives no tools and its error, dropping the ListFiles tool |

## Left out

- Only Unix hosts are modelled: the separator is "/" and no volume names. On Windows the depth check's `strings.Split` on `\` would disagree with io/fs's "/" paths.
- `os.Root` re-checks at run time that symlinks do not escape the root; the model only covers the lexical check.
- A directory named to `ReadFile` is not a case of its own. In the source, `root.Open` succeeds on it and `Stat` gives its size. An offset at or past that size gives empty content with that size. Otherwise `ReadAt` fails with "is a directory". A directory absent from the file map is reported as `OpenFileFailed` instead. To get the source's answer, give the directory as a `FileEntry` with its size's worth of data and the `readErr` "is a directory".
- OS error texts are reduced to a given cause string. A name missing from the host gives "file does not exist".
- Opening a file or directory that exists can fail in the source, for example on permission denied or a path through a regular file. The model only fails an open for a path missing from the host. So every `root.Open` failure in `ReadFile` and every `root.OpenRoot` failure in `ListFiles` is reported with the cause "file does not exist". The branch taken and the path quoted are the source's.
- `fmt`'s `%q` escaping is not modelled: `Workspace.Quote` adds plain double quotes and nothing else.
- `%v` of an error is the error's given text.
- A result's Error field is modelled by its `Fault` value, and the contracts are stated on that value. `Workspace.Message` only renders a fault as the text the source would write; no contract is stated on that text.
- `fs.WalkDir`'s `Stat` of the sub-root is not modelled. `os.OpenRoot` of the directory already fails for a missing directory.
- I/O, `os.Getwd`, `os.OpenRoot`, go-git and the `git` subprocess are inputs. `exec.CommandContext` cancellation and process killing are not modelled.
- `repo.Log`'s error is never checked by the source. The model assumes an iterator is always obtained, rather than modelling the resulting nil dereference.
- A commit's `String()` form is taken as given text.
- JSON encoding (`omitempty`), `functiontool` schemas and the tool descriptions are not modelled. Constructors are opaque successes or failures. A nil slice and an empty slice are the same empty sequence.
- Go's random map iteration order in `gitStatus` is a nondeterministic choice in the loop. Contracts therefore speak of membership and duplicates, not of order.
- The `slog` debug logging in `doListFiles` is not modelled.
- Confine.AbsoluteClimbOutDenied: the concrete `/work/secret/../../etc/passwd` scenario is stated for arbitrary names w, s, x and y in that shape, rather than for that literal string.
- GitLogTool.LogLength: stated for histories where the iterator does not fail right after the wanted commits. An error whose text is empty would make an Error result indistinguishable from an empty list.
- ReadFileTool.ReadFile: requires every file's size to fit in an int64, as `info.Size()` returns one.
- ReadFileTool.ReadOpen: requires the file's size to fit in an int64, for the same reason.
