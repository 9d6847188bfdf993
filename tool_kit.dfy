/**
 * The tool constructors the toolsets assemble (file.ListFilesTool, file.ReadFileTool,
 * git.StatusTool, git.LogTool, git.DiffTool).  Each either builds its tool or fails; which ones
 * fail, and with what error, is given, and the constructors record the order they are called in.
 */
module ToolKit {
  import opened Wrappers

  datatype ToolKind = ListFiles | ReadFile | GitStatus | GitLog | GitDiff

  /** The name each constructor registers its tool under. */
  function ToolName(k: ToolKind): string {
    match k
    case ListFiles => "ListFiles"
    case ReadFile => "ReadFile"
    case GitStatus => "GitStatus"
    case GitLog => "GitLog"
    case GitDiff => "GitDiff"
  }

  /** A built tool, known by its name. */
  datatype Tool = Tool(name: string)

  class Constructors {
    const failures: map<ToolKind, string>
    var called: seq<ToolKind>

    constructor (failures: map<ToolKind, string>)
      ensures this.failures == failures && called == []
    {
      this.failures := failures;
      called := [];
    }

    /** Call one constructor: a non-nil error, or the tool. */
    method Construct(k: ToolKind) returns (t: Outcome<Tool>)
      modifies this
      ensures called == old(called) + [k]
      ensures t == if k in failures then Hard(failures[k]) else Done(Tool(ToolName(k)))
    {
      called := called + [k];
      if k in failures {
        return Hard(failures[k]);
      }
      return Done(Tool(ToolName(k)));
    }
  }

  /** The position of the first constructor in `kinds` that fails, or |kinds| if none does. */
  function FirstFailure(kinds: seq<ToolKind>, failures: map<ToolKind, string>): (k: nat)
    ensures k <= |kinds|
    ensures forall i :: 0 <= i < k ==> kinds[i] !in failures
    ensures k < |kinds| ==> kinds[k] in failures
  {
    if kinds == [] || kinds[0] in failures then 0 else 1 + FirstFailure(kinds[1..], failures)
  }

  /**
   * The first failure is where the constructors before it all succeed and this one fails, or
   * past the end when they all succeed.
   */
  lemma FirstFailureAt(kinds: seq<ToolKind>, failures: map<ToolKind, string>, i: nat)
    requires i <= |kinds| && (i < |kinds| ==> kinds[i] in failures)
    requires forall j :: 0 <= j < i ==> kinds[j] !in failures
    ensures FirstFailure(kinds, failures) == i
  {
  }

  /** The tools the constructors in `kinds` build, one each, in order. */
  function Built(kinds: seq<ToolKind>): (ts: seq<Tool>)
    ensures |ts| == |kinds|
    ensures forall i :: 0 <= i < |kinds| ==> ts[i] == Tool(ToolName(kinds[i]))
  {
    if kinds == [] then [] else [Tool(ToolName(kinds[0]))] + Built(kinds[1..])
  }
}
