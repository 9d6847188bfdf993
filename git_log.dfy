/**
 * The GitLog tool of internal/tools/git/log.go: walks the commit iterator of the current branch
 * and collects the String form of at most maxEntries commits.
 */
module GitLogTool {
  import opened Wrappers
  import opened GitRepo

  /** The number of commits returned when none (zero) is asked for. */
  const DefaultMaxEntries: int := 100

  datatype LogArgs = LogArgs(maxEntries: int)

  /** Errors travel in the Error field; an empty Error means none. */
  datatype LogResult = LogResult(commits: seq<string>, error: string)

  /** Only zero is replaced by the default; a negative bound is kept as it is. */
  function EffectiveMax(maxEntries: int): (m: int)
    ensures maxEntries == 0 ==> m == DefaultMaxEntries
    ensures maxEntries != 0 ==> m == maxEntries
  {
    if maxEntries != 0 then maxEntries else DefaultMaxEntries
  }

  /** The commit iterator repo.Log returns: it hands out the recorded answers one by one. */
  class CommitIter {
    const history: seq<Yield>
    var pos: nat

    constructor (history: seq<Yield>)
      ensures this.history == history && pos == 0
    {
      this.history := history;
      pos := 0;
    }

    method Next() returns (y: Yield)
      modifies this
      ensures y == YieldAt(history, old(pos)) && pos == old(pos) + 1
    {
      y := YieldAt(history, pos);
      pos := pos + 1;
    }
  }

  /** The number of commits at the start of the history, before its first other answer. */
  function LeadingCommits(history: seq<Yield>): (n: nat)
    ensures n <= |history|
    ensures forall i :: 0 <= i < n ==> history[i].Commit?
    ensures n < |history| ==> !history[n].Commit?
  {
    if history == [] || !history[0].Commit? then 0 else 1 + LeadingCommits(history[1..])
  }

  /** The String forms of a run of commits. */
  function Texts(ys: seq<Yield>): (ts: seq<string>)
    requires forall i :: 0 <= i < |ys| ==> ys[i].Commit?
    ensures |ts| == |ys| && forall i :: 0 <= i < |ys| ==> ts[i] == ys[i].text
  {
    if ys == [] then [] else [ys[0].text] + Texts(ys[1..])
  }

  /** The iterator fails right after its leading commits, instead of ending. */
  predicate FailsAfterCommits(history: seq<Yield>) {
    LeadingCommits(history) < |history| && history[LeadingCommits(history)].Failed?
  }

  /**
   * What gitLog answers for a bound m, stated on the history: with 0 < m below the number n of
   * leading commits, the first m commits; otherwise the iterator is asked once more after the n-th
   * commit, and an error there replaces the whole list by that error.
   */
  function LogOf(history: seq<Yield>, m: int): LogResult {
    var n := LeadingCommits(history);
    if 0 < m < n then LogResult(Texts(history[..m]), "")
    else if FailsAfterCommits(history) then LogResult([], history[n].msg)
    else LogResult(Texts(history[..n]), "")
  }

  /** gitLog: default the bound, open the repository, and loop over the iterator. */
  method GitLog(repo: Repo, args: LogArgs) returns (r: LogResult)
    ensures repo.openErr.Some? ==> r == LogResult([], repo.openErr.value)
    ensures repo.openErr.None? ==> r == LogOf(repo.history, EffectiveMax(args.maxEntries))
  {
    var maxEntries := DefaultMaxEntries;
    if args.maxEntries != 0 {
      maxEntries := args.maxEntries;
    }
    if repo.openErr.Some? {
      return LogResult([], repo.openErr.value);
    }
    ghost var n := LeadingCommits(repo.history);
    var commits: seq<string> := [];
    var l := new CommitIter(repo.history);
    var i := 0;
    while true
      invariant l.history == repo.history && l.pos == i
      invariant i <= n && (maxEntries > 0 ==> i <= maxEntries)
      invariant commits == Texts(repo.history[..i])
      decreases n - i
    {
      var commit := l.Next();
      if commit == Eof {
        break;
      } else if commit.Failed? {
        return LogResult([], commit.msg);
      }
      if commit == NilCommit || i == maxEntries {
        break;
      }
      assert repo.history[..i + 1] == repo.history[..i] + [commit];
      commits := commits + [commit.text];
      i := i + 1;
    }
    return LogResult(commits, "");
  }

  /** The commits returned are the String forms of the history's first commits, in iterator order. */
  lemma LogIsPrefix(history: seq<Yield>, m: int)
    ensures var r := LogOf(history, m);
      |r.commits| <= LeadingCommits(history) &&
        forall i :: 0 <= i < |r.commits| ==> history[i].Commit? && r.commits[i] == history[i].text
  {
    var n := LeadingCommits(history);
    var r := LogOf(history, m);
    if r.commits != [] {
      var k := if 0 < m < n then m else n;
      assert r.commits == Texts(history[..k]);
      forall i | 0 <= i < |r.commits| ensures history[i].Commit? && r.commits[i] == history[i].text {
        assert history[..k][i] == history[i];
      }
    }
  }

  /** A positive bound yields min(bound, leading commits) commits, unless the iterator then fails. */
  lemma LogLength(history: seq<Yield>, m: int)
    requires m > 0
    requires m < LeadingCommits(history) || !FailsAfterCommits(history)
    ensures |LogOf(history, m).commits| == if m < LeadingCommits(history) then m else LeadingCommits(history)
  {
  }

  /** A negative bound is never reached: every leading commit is returned. */
  lemma NegativeBoundReturnsAll(history: seq<Yield>, maxEntries: int)
    requires maxEntries < 0
    ensures var n := LeadingCommits(history);
      LogOf(history, EffectiveMax(maxEntries)) ==
        if FailsAfterCommits(history) then LogResult([], history[n].msg)
        else LogResult(Texts(history[..n]), "")
  {
  }

  /**
   * The iterator is asked once more before the bound is compared, so an error right after the
   * m-th commit discards the m commits already collected.
   */
  lemma ErrorAfterLastWantedCommit(history: seq<Yield>, m: int)
    requires m > 0 && LeadingCommits(history) == m
    requires m < |history| && history[m].Failed?
    ensures LogOf(history, m) == LogResult([], history[m].msg)
  {
  }

  /** A failure after more commits than wanted is never reached. */
  lemma ErrorBeyondBoundUnseen(history: seq<Yield>, m: int)
    requires 0 < m < LeadingCommits(history)
    ensures LogOf(history, m).error == "" && |LogOf(history, m).commits| == m
  {
  }
}
