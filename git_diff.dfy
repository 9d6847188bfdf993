/**
 * The GitDiff tool of internal/tools/git/diff.go: builds the argument vector of a `git diff`
 * command from the optional commit and path, runs it, and reports its combined output or its error.
 */
module GitDiffTool {
  import opened Wrappers

  /** An empty Commit diffs against the index; an empty Path diffs the whole tree. */
  datatype DiffArgs = DiffArgs(commit: string, path: string)

  /** Errors travel in the Error field; an empty Error means none. */
  datatype DiffResult = DiffResult(result: string, error: string)

  /** What running the command gives: its combined standard output and error, and its failure, if any. */
  datatype Run = Run(output: string, err: Option<string>)

  /** The arguments git is given: "diff", then the commit if there is one, then the path if there is one. */
  function DiffArgv(args: DiffArgs): seq<string> {
    ["diff"] + (if args.commit != "" then [args.commit] else []) + (if args.path != "" then [args.path] else [])
  }

  /** gitDiff's argument vector, built by successive appends in an if/else chain. */
  method BuildArgs(inputArgs: DiffArgs) returns (args: seq<string>)
    ensures args == DiffArgv(inputArgs)
    ensures 1 <= |args| <= 3 && args[0] == "diff"
  {
    args := [];
    args := args + ["diff"];
    if inputArgs.commit != "" && inputArgs.path != "" {
      args := args + [inputArgs.commit, inputArgs.path];
    } else if inputArgs.commit != "" {
      args := args + [inputArgs.commit];
    } else if inputArgs.path != "" {
      args := args + [inputArgs.path];
    }
  }

  /**
   * gitDiff: run `git` with the vector; the command's runner is a parameter.  A failure drops the
   * output and reports only the error's text.
   */
  method GitDiff(git: seq<string> -> Run, inputArgs: DiffArgs) returns (r: DiffResult)
    ensures git(DiffArgv(inputArgs)).err.Some? ==> r == DiffResult("", git(DiffArgv(inputArgs)).err.value)
    ensures git(DiffArgv(inputArgs)).err.None? ==> r == DiffResult(git(DiffArgv(inputArgs)).output, "")
  {
    var args := BuildArgs(inputArgs);
    var run := git(args);
    if run.err.Some? {
      return DiffResult("", run.err.value);
    }
    return DiffResult(run.output, "");
  }

  /** The four shapes of the vector. */
  lemma DiffArgvCases(args: DiffArgs)
    ensures args.commit != "" && args.path != "" ==> DiffArgv(args) == ["diff", args.commit, args.path]
    ensures args.commit != "" && args.path == "" ==> DiffArgv(args) == ["diff", args.commit]
    ensures args.commit == "" && args.path != "" ==> DiffArgv(args) == ["diff", args.path]
    ensures args.commit == "" && args.path == "" ==> DiffArgv(args) == ["diff"]
  {
  }

  /**
   * The values are passed verbatim, with no "--" separator and no check: every argument after
   * "diff" is the commit or the path itself, so a value starting with "-" reaches git as an option.
   */
  lemma DiffArgvVerbatim(args: DiffArgs)
    ensures forall i :: 1 <= i < |DiffArgv(args)| ==> DiffArgv(args)[i] == args.commit || DiffArgv(args)[i] == args.path
    ensures args.commit != "" ==> DiffArgv(args)[1] == args.commit
    ensures args.path != "" ==> DiffArgv(args)[|DiffArgv(args)| - 1] == args.path
  {
  }

  /**
   * A commit alone and a path alone give the same vector: which of the two a lone value means is
   * left to git.
   */
  lemma DiffArgvLoneValue(x: string)
    ensures DiffArgv(DiffArgs(x, "")) == DiffArgv(DiffArgs("", x))
  {
  }
}
