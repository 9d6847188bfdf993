/**
 * internal/tools/SourceVIewTools.go: the older toolset offering only the two file tools, built by
 * two constructor calls in a row.
 */
module ToolsetLegacy {
  import opened Wrappers
  import opened ToolKit

  function Name(): (n: string)
    ensures n == "SourceViewingTools"
  {
    "SourceViewingTools"
  }

  /** Tools: ListFiles, then ReadFile; either error ends the assembly with no tools. */
  method Tools(ctors: Constructors) returns (tools: seq<Tool>, err: Option<string>)
    modifies ctors
    ensures ListFiles in ctors.failures ==>
      tools == [] && err == Some(ctors.failures[ListFiles]) && ctors.called == old(ctors.called) + [ListFiles]
    ensures ListFiles !in ctors.failures && ReadFile in ctors.failures ==>
      tools == [] && err == Some(ctors.failures[ReadFile]) && ctors.called == old(ctors.called) + [ListFiles, ReadFile]
    ensures ListFiles !in ctors.failures && ReadFile !in ctors.failures ==>
      tools == [Tool("ListFiles"), Tool("ReadFile")] && err.None? && ctors.called == old(ctors.called) + [ListFiles, ReadFile]
  {
    tools := [];
    var newTool := ctors.Construct(ListFiles);
    if newTool.Hard? {
      return [], Some(newTool.reason);
    }
    tools := tools + [newTool.result];
    newTool := ctors.Construct(ReadFile);
    if newTool.Hard? {
      return [], Some(newTool.reason);
    }
    tools := tools + [newTool.result];
    return tools, None;
  }
}
