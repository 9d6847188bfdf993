/**
 * internal/tools/source_view_tools.go: the toolset offering all five read-only tools, built by
 * calling their constructors in list order.
 */
module Toolset {
  import opened Wrappers
  import opened ToolKit

  /** The constructor list, in the order the tools are offered. */
  const SourceTools: seq<ToolKind> := [ListFiles, ReadFile, GitStatus, GitLog, GitDiff]

  function Name(): (n: string)
    ensures n == "SourceViewingTools"
  {
    "SourceViewingTools"
  }

  /**
   * Tools: call the constructors in order; the first error ends the assembly, discards the tools
   * built so far and leaves the later constructors uncalled.
   */
  method Tools(ctors: Constructors) returns (tools: seq<Tool>, err: Option<string>)
    modifies ctors
    ensures var k := FirstFailure(SourceTools, ctors.failures);
      && (k == |SourceTools| ==> err.None? && tools == [Tool("ListFiles"), Tool("ReadFile"), Tool("GitStatus"), Tool("GitLog"), Tool("GitDiff")])
      && (k < |SourceTools| ==> err == Some(ctors.failures[SourceTools[k]]) && tools == [])
      && ctors.called == old(ctors.called) + SourceTools[..if k < |SourceTools| then k + 1 else k]
  {
    tools, err := Assemble(ctors, SourceTools);
    if err.None? {
      BuiltSourceTools();
    }
  }

  /** The loop of Tools, over any list of constructors. */
  method Assemble(ctors: Constructors, kinds: seq<ToolKind>) returns (tools: seq<Tool>, err: Option<string>)
    modifies ctors
    ensures FirstFailure(kinds, ctors.failures) == |kinds| ==> err.None? && tools == Built(kinds)
    ensures FirstFailure(kinds, ctors.failures) < |kinds| ==>
      err == Some(ctors.failures[kinds[FirstFailure(kinds, ctors.failures)]]) && tools == []
    ensures FirstFailure(kinds, ctors.failures) == |kinds| ==> ctors.called == old(ctors.called) + kinds
    ensures FirstFailure(kinds, ctors.failures) < |kinds| ==>
      ctors.called == old(ctors.called) + kinds[..FirstFailure(kinds, ctors.failures) + 1]
  {
    tools := [];
    var i := 0;
    while i < |kinds|
      invariant 0 <= i <= |kinds|
      invariant forall j :: 0 <= j < i ==> kinds[j] !in ctors.failures
      invariant |tools| == i
      invariant forall j :: 0 <= j < i ==> tools[j] == Tool(ToolName(kinds[j]))
      invariant ctors.called == old(ctors.called) + kinds[..i]
    {
      var t := ctors.Construct(kinds[i]);
      assert kinds[..i + 1] == kinds[..i] + [kinds[i]];
      if t.Hard? {
        FirstFailureAt(kinds, ctors.failures, i);
        return [], Some(t.reason);
      }
      tools := tools + [t.result];
      i := i + 1;
    }
    assert kinds[..i] == kinds;
    FirstFailureAt(kinds, ctors.failures, i);
    assert tools == Built(kinds);
    return tools, None;
  }

  /** The five tools, by name, in the order of the constructor list. */
  lemma BuiltSourceTools()
    ensures Built(SourceTools) == [Tool("ListFiles"), Tool("ReadFile"), Tool("GitStatus"), Tool("GitLog"), Tool("GitDiff")]
  {
  }
}
