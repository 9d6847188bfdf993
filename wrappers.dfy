/** Small failure-carrying datatypes shared by every tool model. */
module Wrappers {

  /** An optional value; the models use None for "no error" and for a Go function's error return. */
  datatype Option<+T> = None | Some(value: T)

  /**
   * What a tool handler returns.  A Go handler has the signature
   * `func(tool.Context, *Args) (*Result, error)`: Hard(reason) is the pair (nil, error) that aborts the
   * call, Done(result) is (&result, nil), where the result may itself carry an error text.
   */
  datatype Outcome<+R> = Hard(reason: string) | Done(result: R)
}
