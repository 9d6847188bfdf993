/**
 * The GitStatus tool of internal/tools/git/status.go: opens the repository and its worktree,
 * takes the status, and sorts the files into modified and untracked ones.
 */
module GitStatusTool {
  import opened Wrappers
  import opened GitRepo

  /** Errors travel in the Error field; an empty Error means none. */
  datatype StatusResult = StatusResult(modified: seq<string>, untracked: seq<string>, error: string)

  predicate IsUntracked(s: FileStatus) {
    s.worktree == Untracked
  }

  /** A tracked file with a change on either side. */
  predicate IsModified(s: FileStatus) {
    !IsUntracked(s) && (s.worktree != Unmodified || s.staging != Unmodified)
  }

  predicate NoDuplicates(xs: seq<string>) {
    forall i, j :: 0 <= i < j < |xs| ==> xs[i] != xs[j]
  }

  /**
   * The lists hold exactly the files of the status with the respective classification, each once;
   * the order is whatever order Go's map iteration gives.
   */
  ghost predicate Classified(status: map<string, FileStatus>, modified: seq<string>, untracked: seq<string>) {
    && (forall f :: f in untracked <==> f in status && IsUntracked(status[f]))
    && (forall f :: f in modified <==> f in status && IsModified(status[f]))
    && NoDuplicates(untracked)
    && NoDuplicates(modified)
  }

  /** gitStatus: any error before the loop gives just the error; otherwise one pass over the status map. */
  method GitStatus(repo: Repo) returns (r: StatusResult)
    ensures repo.openErr.Some? ==> r == StatusResult([], [], repo.openErr.value)
    ensures repo.openErr.None? && repo.worktreeErr.Some? ==> r == StatusResult([], [], repo.worktreeErr.value)
    ensures repo.openErr.None? && repo.worktreeErr.None? && repo.statusErr.Some? ==>
      r == StatusResult([], [], repo.statusErr.value)
    ensures repo.openErr.None? && repo.worktreeErr.None? && repo.statusErr.None? ==>
      r.error == "" && Classified(repo.status, r.modified, r.untracked)
  {
    if repo.openErr.Some? {
      return StatusResult([], [], repo.openErr.value);
    }
    if repo.worktreeErr.Some? {
      return StatusResult([], [], repo.worktreeErr.value);
    }
    if repo.statusErr.Some? {
      return StatusResult([], [], repo.statusErr.value);
    }
    var status := repo.status;
    var modified: seq<string> := [];
    var untracked: seq<string> := [];
    var unseen := status.Keys;
    while unseen != {}
      invariant unseen <= status.Keys
      invariant forall f :: f in untracked <==> f in status && f !in unseen && IsUntracked(status[f])
      invariant forall f :: f in modified <==> f in status && f !in unseen && IsModified(status[f])
      invariant NoDuplicates(untracked) && NoDuplicates(modified)
      decreases |unseen|
    {
      var fileName :| fileName in unseen;
      var s := status[fileName];
      if s.worktree == Untracked {
        untracked := untracked + [fileName];
      } else if s.worktree != Unmodified || s.staging != Unmodified {
        modified := modified + [fileName];
      }
      unseen := unseen - {fileName};
    }
    return StatusResult(modified, untracked, "");
  }

  /**
   * The two lists never share a file, a file unchanged on both sides is in neither, and an
   * untracked file is reported as untracked whatever its index code.
   */
  lemma ClassifiedPartition(status: map<string, FileStatus>, modified: seq<string>, untracked: seq<string>, f: string)
    requires Classified(status, modified, untracked)
    ensures !(f in modified && f in untracked)
    ensures f in status && status[f] == FileStatus(Unmodified, Unmodified) ==> f !in modified && f !in untracked
    ensures f in status && status[f].worktree == Untracked ==> f in untracked && f !in modified
    ensures f in status && status[f].worktree != Untracked && status[f] != FileStatus(Unmodified, Unmodified) ==> f in modified
  {
  }

  /** Each file in one list once and in no other: the lists together are no longer than the status. */
  lemma {:induction false} ClassifiedSize(status: map<string, FileStatus>, modified: seq<string>, untracked: seq<string>)
    requires Classified(status, modified, untracked)
    ensures |modified| + |untracked| <= |status|
  {
    var both := modified + untracked;
    assert NoDuplicates(both) by {
      forall i, j | 0 <= i < j < |both| ensures both[i] != both[j] {
        if j >= |modified| && i < |modified| {
          assert both[i] in modified && both[j] in untracked;
        }
      }
    }
    DistinctBound(both, status.Keys);
  }

  /** A duplicate-free sequence drawn from a finite set is no longer than the set. */
  lemma {:induction false} DistinctBound(xs: seq<string>, s: set<string>)
    requires NoDuplicates(xs)
    requires forall i :: 0 <= i < |xs| ==> xs[i] in s
    ensures |xs| <= |s|
    decreases |xs|
  {
    if xs != [] {
      var x := xs[|xs| - 1];
      var front := xs[..|xs| - 1];
      assert forall i :: 0 <= i < |front| ==> front[i] != x && front[i] == xs[i];
      DistinctBound(front, s - {x});
    }
  }
}
