/**
 * What the git tools see of a repository, taken as given: whether go-git can open it, its
 * worktree and its status, the per-file status codes, and the sequence of answers the commit
 * iterator of the current branch gives.
 */
module GitRepo {
  import opened Wrappers

  /** go-git's status codes for one side (index or worktree) of a file. */
  datatype StatusCode = Unmodified | Untracked | Modified | Added | Deleted | Renamed | Copied | UpdatedButUnmerged

  /** The status of one file: its code in the index (staging area) and in the worktree. */
  datatype FileStatus = FileStatus(staging: StatusCode, worktree: StatusCode)

  /** One answer of the commit iterator's Next: a commit (by its String form), a nil commit, io.EOF, or another error. */
  datatype Yield = Commit(text: string) | NilCommit | Eof | Failed(msg: string)

  datatype Repo = Repo(
    openErr: Option<string>,
    worktreeErr: Option<string>,
    statusErr: Option<string>,
    status: map<string, FileStatus>,
    history: seq<Yield>)

  /** The iterator's answer at position i: past the recorded answers it keeps answering io.EOF. */
  function YieldAt(history: seq<Yield>, i: nat): Yield {
    if i < |history| then history[i] else Eof
  }
}
