/**
 * The ListFiles tool of internal/tools/file/list_files.go: opens the requested directory below the
 * working directory as a sub-root and walks it with fs.WalkDir, listing every entry whose path
 * (relative to that directory) has at most `depth` "/"-separated parts.
 */
module ListFilesTool {
  import opened Wrappers
  import opened GoPath
  import opened Confine
  import opened Workspace

  /** The depth used when none (zero) is asked for. */
  const DefaultDepth: int := 1

  datatype ListFilesArgs = ListFilesArgs(directory: string, depth: int)

  datatype ListFilesResult = ListFilesResult(files: seq<string>, error: Option<Fault>)

  /** Only a depth of zero is replaced by the default; a negative depth is kept as it is. */
  function EffectiveDepth(depth: int): (d: int)
    ensures depth == 0 ==> d == DefaultDepth
    ensures depth != 0 ==> d == depth
  {
    if depth == 0 then DefaultDepth else depth
  }

  /** The callback's answer to fs.WalkDir: nil, fs.SkipDir, or an error that ends the walk. */
  datatype Signal = Proceed | SkipDir | Stop(cause: string)

  /** What a walk, or part of one, appends to the list, and what it answers. */
  datatype Step = Step(emitted: seq<string>, signal: Signal)

  /** The number of "/"-separated parts of a path: one more than its separators; "." has one. */
  function NameLen(path: string): nat
    decreases |path|
  {
    if path == [] then 1 else (if path[0] == '/' then 1 else 0) + NameLen(path[1..])
  }

  /** NameLen is len(strings.Split(path, "/")), the count the callback takes. */
  lemma {:induction false} SplitLength(path: string)
    ensures |Split(path)| == NameLen(path)
    decreases |path|
  {
    if path != [] {
      SplitLength(path[1..]);
    }
  }

  /**
   * The path fs.WalkDir gives an entry named `name` in the directory at `dir`: path.Join(dir, name),
   * which for the names fs.ReadDir returns is the name alone below "." and dir + "/" + name
   * elsewhere (lemma ChildIsPathJoin).
   */
  function ChildOf(dir: string, name: string): string {
    if dir == "." then name else dir + "/" + name
  }

  /**
   * fs.WalkDir's walkDir on entry e at `path`, with the callback of list_files.go.  The callback
   * is called first: an entry with more than `depth` parts gets fs.SkipDir, which for a directory
   * means "skip its contents" (walkDir then answers nil) and for a file is passed up to the
   * directory being read, which stops reading its remaining entries.  Otherwise the path is listed;
   * a directory is then read, and a read error is passed to the callback a second time, which
   * returns it and so ends the whole walk.
   */
  function WalkEntry(depth: int, path: string, e: Entry): Step
    decreases e, 0
  {
    if NameLen(path) > depth then Step([], if e.Dir? then Proceed else SkipDir)
    else if e.File? then Step([path], Proceed)
    else
      var s := Contents(depth, path, e.listing);
      Step([path] + s.emitted, s.signal)
  }

  /** Reading the directory at `path` and walking what it holds; a read error ends the walk. */
  function Contents(depth: int, path: string, l: Listing): Step
    decreases l
  {
    match l
    case Unreadable(cause) => Step([], Stop(cause))
    case Listed(es) => WalkFrom(depth, path, es, 0)
  }

  /** walkDir's loop over the entries of the directory at `dir`, from the i-th entry on. */
  function WalkFrom(depth: int, dir: string, es: seq<Entry>, i: nat): Step
    decreases es, |es| - i
  {
    if i >= |es| then Step([], Proceed)
    else
      var s := WalkEntry(depth, ChildOf(dir, es[i].name), es[i]);
      match s.signal
      case Stop(_) => s
      case SkipDir => Step(s.emitted, Proceed)
      case Proceed =>
        var t := WalkFrom(depth, dir, es, i + 1);
        Step(s.emitted + t.emitted, t.signal)
  }

  /** fs.WalkDir(sub-root, ".", callback) for a sub-root holding `root`: SkipDir at the top means nil. */
  function WalkRoot(depth: int, root: Listing): Step {
    var s := WalkEntry(depth, ".", Dir(".", root));
    if s.signal == SkipDir then Step(s.emitted, Proceed) else s
  }

  // ---------------------------------------------------------------------------------------------
  // Reference: the walk lists the pre-order of the tree, keeping the entries within the depth
  // bound, unless it first meets, within that bound, a directory it cannot read.

  /** A name fs.ReadDir can return: one path element other than "." and "..". */
  predicate GoodName(n: string) {
    IsElement(n) && n != ".."
  }

  /** Every name in the tree below is one fs.ReadDir can return. */
  predicate WellNamed(e: Entry)
    decreases e
  {
    GoodName(e.name) && (e.Dir? ==> WellNamedListing(e.listing))
  }

  predicate WellNamedListing(l: Listing)
    decreases l
  {
    l.Listed? ==> forall i :: 0 <= i < |l.entries| ==> WellNamed(l.entries[i])
  }

  /** The walk path of the entry reached through the names `segs` from the sub-root. */
  function PathOf(segs: seq<string>): string {
    if segs == [] then "." else Join(segs)
  }

  /** The depth the callback sees: the sub-root and its direct entries both have one part. */
  function Level(segs: seq<string>): nat {
    if |segs| == 0 then 1 else |segs|
  }

  /** An entry met in a traversal: the names leading to it, and the error reading it gives. */
  datatype Item = Item(segs: seq<string>, fault: Option<string>)

  /** The entries of the tree in pre-order, each tagged with the error reading it would give. */
  function PreOrder(segs: seq<string>, e: Entry): seq<Item>
    decreases e, 0
  {
    match e
    case File(_) => [Item(segs, None)]
    case Dir(_, Unreadable(cause)) => [Item(segs, Some(cause))]
    case Dir(_, Listed(es)) => [Item(segs, None)] + PreOrderFrom(segs, es, 0)
  }

  /** The pre-order of the subtrees of a directory's entries, from the i-th entry on. */
  function PreOrderFrom(segs: seq<string>, es: seq<Entry>, i: nat): seq<Item>
    decreases es, |es| - i
  {
    if i >= |es| then [] else PreOrder(segs + [es[i].name], es[i]) + PreOrderFrom(segs, es, i + 1)
  }

  /** The paths of the items within the depth bound, in order. */
  function Shallow(depth: int, items: seq<Item>): seq<string> {
    if items == [] then []
    else (if Level(items[0].segs) <= depth then [PathOf(items[0].segs)] else []) + Shallow(depth, items[1..])
  }

  /** The first error among the items within the depth bound. */
  function FirstFault(depth: int, items: seq<Item>): Option<string> {
    if items == [] then None
    else if Level(items[0].segs) <= depth && items[0].fault.Some? then items[0].fault
    else FirstFault(depth, items[1..])
  }

  /** A walk step agrees with the reference on `items`. */
  predicate Agrees(s: Step, depth: int, items: seq<Item>) {
    && (s.signal.Stop? <==> FirstFault(depth, items).Some?)
    && (s.signal.Stop? ==> FirstFault(depth, items) == Some(s.signal.cause))
    && (!s.signal.Stop? ==> s.emitted == Shallow(depth, items))
  }

  lemma {:induction false} ShallowAppend(depth: int, a: seq<Item>, b: seq<Item>)
    ensures Shallow(depth, a + b) == Shallow(depth, a) + Shallow(depth, b)
    ensures FirstFault(depth, a + b) == if FirstFault(depth, a).Some? then FirstFault(depth, a) else FirstFault(depth, b)
    decreases |a|
  {
    if a != [] {
      assert (a + b)[0] == a[0] && (a + b)[1..] == a[1..] + b;
      ShallowAppend(depth, a[1..], b);
    } else {
      assert a + b == b;
    }
  }

  lemma {:induction false} ShallowOfDeep(depth: int, items: seq<Item>)
    requires forall i :: 0 <= i < |items| ==> Level(items[i].segs) > depth
    ensures Shallow(depth, items) == [] && FirstFault(depth, items) == None
    decreases |items|
  {
    if items != [] {
      ShallowOfDeep(depth, items[1..]);
    }
  }

  /** Every entry met below `segs` is reached through at least as many names. */
  lemma {:induction false} PreOrderBelow(segs: seq<string>, e: Entry)
    ensures forall k :: 0 <= k < |PreOrder(segs, e)| ==> |PreOrder(segs, e)[k].segs| >= |segs|
    decreases e, 0
  {
    if e.Dir? && e.listing.Listed? {
      PreOrderFromBelow(segs, e.listing.entries, 0);
    }
  }

  lemma {:induction false} PreOrderFromBelow(segs: seq<string>, es: seq<Entry>, i: nat)
    ensures forall k :: 0 <= k < |PreOrderFrom(segs, es, i)| ==> |PreOrderFrom(segs, es, i)[k].segs| > |segs|
    decreases es, |es| - i
  {
    if i < |es| {
      PreOrderBelow(segs + [es[i].name], es[i]);
      PreOrderFromBelow(segs, es, i + 1);
    }
  }

  /** The walk path of `segs` has Level(segs) parts. */
  lemma NameLenOfPath(segs: seq<string>)
    requires forall i :: 0 <= i < |segs| ==> GoodName(segs[i])
    ensures NameLen(PathOf(segs)) == Level(segs)
  {
    SplitLength(PathOf(segs));
    if segs == [] {
      SplitSingle(".");
    } else {
      SplitJoin(segs);
    }
  }

  /** The walk path one name further is the path of the names one longer. */
  lemma ChildPath(segs: seq<string>, n: string)
    requires |segs| >= 1 ==> segs[0] != "."
    ensures ChildOf(PathOf(segs), n) == PathOf(segs + [n])
  {
    if segs == [] {
      assert [] + [n] == [n];
    } else {
      assert PathOf(segs) != "." by {
        JoinHead(segs);
        if |segs| == 1 {
          assert Join(segs) == segs[0];
        } else {
          assert Join(segs)[|segs[0]|] == '/';
        }
      }
      JoinAppend(segs, n);
    }
  }

  /** The path the walk gives an entry is path.Join of its directory's path and its name. */
  lemma ChildIsPathJoin(segs: seq<string>, n: string)
    requires forall i :: 0 <= i < |segs| ==> GoodName(segs[i])
    requires GoodName(n)
    ensures ChildOf(PathOf(segs), n) == JoinPath(PathOf(segs), n)
  {
    ChildPath(segs, n);
    if segs == [] {
      SplitCons(".", n);
      SplitSingle(n);
      assert Split("." + "/" + n) == [".", n];
      assert [".", n][1..] == [n] && [n][1..] == [];
      assert [] + [n] == [n];
      assert Reduce([n], false, []) == [n];
      assert Reduce([".", n], false, []) == [n];
    } else {
      JoinAppend(segs, n);
      CleanOfCanonical(segs + [n]);
    }
  }

  lemma {:induction false} WalkEntryAgrees(depth: int, segs: seq<string>, e: Entry)
    requires forall i :: 0 <= i < |segs| ==> GoodName(segs[i])
    requires e.Dir? ==> WellNamedListing(e.listing)
    ensures Agrees(WalkEntry(depth, PathOf(segs), e), depth, PreOrder(segs, e))
    ensures WalkEntry(depth, PathOf(segs), e).signal == SkipDir ==> Level(segs) > depth
    decreases e, 0
  {
    var items := PreOrder(segs, e);
    NameLenOfPath(segs);
    if Level(segs) > depth {
      PreOrderBelow(segs, e);
      ShallowOfDeep(depth, items);
    } else if e.Dir? && e.listing.Listed? {
      var es := e.listing.entries;
      WalkFromAgrees(depth, segs, es, 0);
      ShallowAppend(depth, [Item(segs, None)], PreOrderFrom(segs, es, 0));
    }
  }

  lemma {:induction false} WalkFromAgrees(depth: int, segs: seq<string>, es: seq<Entry>, i: nat)
    requires forall j :: 0 <= j < |segs| ==> GoodName(segs[j])
    requires forall j :: 0 <= j < |es| ==> WellNamed(es[j])
    ensures Agrees(WalkFrom(depth, PathOf(segs), es, i), depth, PreOrderFrom(segs, es, i))
    ensures WalkFrom(depth, PathOf(segs), es, i).signal != SkipDir
    decreases es, |es| - i
  {
    if i < |es| {
      var c := segs + [es[i].name];
      assert WellNamed(es[i]);
      ChildPath(segs, es[i].name);
      assert forall j :: 0 <= j < |c| ==> GoodName(c[j]);
      WalkEntryAgrees(depth, c, es[i]);
      var rest := PreOrderFrom(segs, es, i + 1);
      ShallowAppend(depth, PreOrder(c, es[i]), rest);
      var s := WalkEntry(depth, PathOf(c), es[i]);
      if s.signal == SkipDir {
        PreOrderFromBelow(segs, es, i + 1);
        ShallowOfDeep(depth, rest);
      } else if s.signal == Proceed {
        WalkFromAgrees(depth, segs, es, i + 1);
      }
    }
  }

  /**
   * The whole walk against the reference: it fails exactly when some directory within the depth
   * bound cannot be read, with the first such error in pre-order; otherwise it lists, in
   * pre-order, exactly the entries within the depth bound.
   */
  lemma WalkMatchesPreOrder(depth: int, root: Listing)
    requires WellNamedListing(root)
    ensures var items := PreOrder([], Dir(".", root));
      && (WalkRoot(depth, root).signal.Stop? <==> FirstFault(depth, items).Some?)
      && (WalkRoot(depth, root).signal.Stop? ==> FirstFault(depth, items) == Some(WalkRoot(depth, root).signal.cause))
      && (!WalkRoot(depth, root).signal.Stop? ==> WalkRoot(depth, root).emitted == Shallow(depth, items))
  {
    WalkEntryAgrees(depth, [], Dir(".", root));
  }

  /** A negative depth lists nothing and reports nothing, even when the sub-root cannot be read. */
  lemma NegativeDepthListsNothing(depth: int, root: Listing)
    requires depth < 0
    ensures WalkRoot(depth, root) == Step([], Proceed)
  {
  }

  /** Below the depth bound nothing is listed, and a directory there is never read. */
  lemma {:induction false} DeepEntriesListNothing(depth: int, segs: seq<string>, es: seq<Entry>, i: nat)
    requires forall j :: 0 <= j < |segs| ==> GoodName(segs[j])
    requires forall j :: 0 <= j < |es| ==> GoodName(es[j].name)
    requires |segs| + 1 > depth
    ensures WalkFrom(depth, PathOf(segs), es, i) == Step([], Proceed)
    decreases |es| - i
  {
    if i < |es| {
      var c := segs + [es[i].name];
      ChildPath(segs, es[i].name);
      assert forall j :: 0 <= j < |c| ==> GoodName(c[j]);
      NameLenOfPath(c);
      DeepEntriesListNothing(depth, segs, es, i + 1);
    }
  }

  /**
   * With depth 1 the walk lists "." and then the names of the sub-root's entries, provided every
   * directory among them can be read: it reads each of them, and only prunes their contents.
   */
  lemma DepthOneListsEntries(es: seq<Entry>)
    requires forall i :: 0 <= i < |es| ==> WellNamed(es[i])
    requires forall i :: 0 <= i < |es| ==> !(es[i].Dir? && es[i].listing.Unreadable?)
    ensures WalkRoot(1, Listed(es)).signal == Proceed
    ensures WalkRoot(1, Listed(es)).emitted == ["."] + seq(|es|, i requires 0 <= i < |es| => es[i].name)
  {
    DepthOneFrom(es, 0);
    assert Contents(1, ".", Listed(es)) == WalkFrom(1, ".", es, 0);
  }

  lemma {:induction false} DepthOneFrom(es: seq<Entry>, i: nat)
    requires i <= |es|
    requires forall j :: 0 <= j < |es| ==> WellNamed(es[j])
    requires forall j :: 0 <= j < |es| ==> !(es[j].Dir? && es[j].listing.Unreadable?)
    ensures WalkFrom(1, ".", es, i) == Step(seq(|es| - i, j requires 0 <= j < |es| - i => es[i + j].name), Proceed)
    decreases |es| - i
  {
    if i < |es| {
      DepthOneEntry(es[i]);
      DepthOneFrom(es, i + 1);
      var rest := seq(|es| - (i + 1), j requires 0 <= j < |es| - (i + 1) => es[i + 1 + j].name);
      assert [es[i].name] + rest == seq(|es| - i, j requires 0 <= j < |es| - i => es[i + j].name);
    }
  }

  /** At depth 1, an entry directly in the sub-root lists just its own name. */
  lemma DepthOneEntry(e: Entry)
    requires WellNamed(e) && !(e.Dir? && e.listing.Unreadable?)
    ensures WalkEntry(1, ChildOf(".", e.name), e) == Step([e.name], Proceed)
  {
    var n := e.name;
    assert [] + [n] == [n];
    NameLenOfPath([n]);
    assert PathOf([n]) == n;
    if e.Dir? {
      assert e.listing.Listed? && WellNamedListing(e.listing);
      var ks := e.listing.entries;
      assert forall i :: 0 <= i < |ks| ==> GoodName(ks[i].name) by {
        forall i | 0 <= i < |ks| ensures GoodName(ks[i].name) {
          assert WellNamed(ks[i]);
        }
      }
      DeepEntriesListNothing(1, [n], ks, 0);
    }
  }

  /** FirstFault finds an error once there is one within the bound. */
  lemma {:induction false} FaultFound(depth: int, items: seq<Item>, k: nat)
    requires k < |items| && Level(items[k].segs) <= depth && items[k].fault.Some?
    ensures FirstFault(depth, items).Some?
    decreases k
  {
    if k > 0 && !(Level(items[0].segs) <= depth && items[0].fault.Some?) {
      FaultFound(depth, items[1..], k - 1);
    }
  }

  /** Each entry of a directory starts its own stretch of the directory's pre-order. */
  lemma {:induction false} EntryFirstInPreOrder(segs: seq<string>, es: seq<Entry>, i: nat, j: nat)
    requires i <= j < |es|
    ensures exists k :: 0 <= k < |PreOrderFrom(segs, es, i)| && PreOrderFrom(segs, es, i)[k] == PreOrder(segs + [es[j].name], es[j])[0]
    decreases j - i
  {
    var head := PreOrder(segs + [es[i].name], es[i]);
    var all := PreOrderFrom(segs, es, i);
    if j == i {
      assert all[0] == head[0];
    } else {
      EntryFirstInPreOrder(segs, es, i + 1, j);
      var later := PreOrderFrom(segs, es, i + 1);
      var k :| 0 <= k < |later| && later[k] == PreOrder(segs + [es[j].name], es[j])[0];
      assert all[|head| + k] == later[k];
    }
  }

  /**
   * Because a directory within the bound is always read, one unreadable directory directly in the
   * sub-root makes a depth-1 listing fail as a whole.
   */
  lemma UnreadableEntryFailsDepthOne(es: seq<Entry>, j: nat)
    requires forall i :: 0 <= i < |es| ==> WellNamed(es[i])
    requires j < |es| && es[j].Dir? && es[j].listing.Unreadable?
    ensures WalkRoot(1, Listed(es)).signal.Stop?
  {
    WalkMatchesPreOrder(1, Listed(es));
    var items := PreOrder([], Dir(".", Listed(es)));
    EntryFirstInPreOrder([], es, 0, j);
    var all := PreOrderFrom([], es, 0);
    var k :| 0 <= k < |all| && all[k] == PreOrder([] + [es[j].name], es[j])[0];
    assert items[k + 1] == all[k];
    assert [] + [es[j].name] == [es[j].name];
    FaultFound(1, items, k + 1);
  }

  /** Every entry met is reached through names fs.ReadDir can return. */
  lemma {:induction false} PreOrderGood(segs: seq<string>, e: Entry)
    requires forall i :: 0 <= i < |segs| ==> GoodName(segs[i])
    requires e.Dir? ==> WellNamedListing(e.listing)
    ensures forall k, i :: 0 <= k < |PreOrder(segs, e)| && 0 <= i < |PreOrder(segs, e)[k].segs| ==> GoodName(PreOrder(segs, e)[k].segs[i])
    decreases e, 0
  {
    if e.Dir? && e.listing.Listed? {
      PreOrderFromGood(segs, e.listing.entries, 0);
    }
  }

  lemma {:induction false} PreOrderFromGood(segs: seq<string>, es: seq<Entry>, j: nat)
    requires forall i :: 0 <= i < |segs| ==> GoodName(segs[i])
    requires forall i :: 0 <= i < |es| ==> WellNamed(es[i])
    ensures forall k, i :: 0 <= k < |PreOrderFrom(segs, es, j)| && 0 <= i < |PreOrderFrom(segs, es, j)[k].segs| ==> GoodName(PreOrderFrom(segs, es, j)[k].segs[i])
    decreases es, |es| - j
  {
    if j < |es| {
      var c := segs + [es[j].name];
      assert WellNamed(es[j]);
      assert forall i :: 0 <= i < |c| ==> GoodName(c[i]);
      PreOrderGood(c, es[j]);
      PreOrderFromGood(segs, es, j + 1);
    }
  }

  /** Every listed path is the path of some item within the bound. */
  lemma {:induction false} ShallowFrom(depth: int, items: seq<Item>, q: string)
    requires q in Shallow(depth, items)
    ensures exists k :: 0 <= k < |items| && q == PathOf(items[k].segs)
    decreases |items|
  {
    if !(Level(items[0].segs) <= depth && q == PathOf(items[0].segs)) {
      ShallowFrom(depth, items[1..], q);
      var k :| 0 <= k < |items[1..]| && q == PathOf(items[1..][k].segs);
      assert items[k + 1] == items[1..][k];
    }
  }

  /** A walk path is relative, already clean, and has no ".." element. */
  lemma PathOfClean(segs: seq<string>)
    requires forall i :: 0 <= i < |segs| ==> GoodName(segs[i])
    ensures !IsAbs(PathOf(segs)) && Clean(PathOf(segs)) == PathOf(segs)
    ensures ".." !in Split(PathOf(segs))
  {
    if segs == [] {
      CleanDot();
      SplitSingle(".");
    } else {
      CleanOfCanonical(segs);
      SplitJoin(segs);
    }
  }

  /**
   * Every path a successful walk lists is relative, clean and free of ".." elements, so handing it
   * back to the confinement check can never be refused as outside the working directory; it is
   * accepted unchanged unless its first name itself begins with "..".
   */
  lemma ListedPathsAreConfined(wd: string, depth: int, root: Listing, q: string)
    requires WellNamedListing(root)
    requires !WalkRoot(depth, root).signal.Stop? && q in WalkRoot(depth, root).emitted
    ensures !IsAbs(q) && Clean(q) == q && ".." !in Split(q)
    ensures Check(wd, q) == if HasPrefix(q, "..") then Escapes else Inside(q)
  {
    var items := PreOrder([], Dir(".", root));
    WalkMatchesPreOrder(depth, root);
    ShallowFrom(depth, items, q);
    var k :| 0 <= k < |items| && q == PathOf(items[k].segs);
    PreOrderGood([], Dir(".", root));
    PathOfClean(items[k].segs);
  }

  /**
   * The closure list_files.go hands to fs.WalkDir, with the two variables it captures: the depth
   * bound and the `files` slice it appends to.
   */
  class Lister {
    const depth: int
    var files: seq<string>

    constructor (depth: int)
      ensures this.depth == depth && files == []
    {
      this.depth := depth;
      files := [];
    }

    /** The callback itself: pass an error on, skip an entry that is too deep, list the rest. */
    method Visit(path: string, err: Option<string>) returns (sig: Signal)
      modifies this
      ensures err.Some? ==> sig == Stop(err.value) && files == old(files)
      ensures err.None? && NameLen(path) > depth ==> sig == SkipDir && files == old(files)
      ensures err.None? && NameLen(path) <= depth ==> sig == Proceed && files == old(files) + [path]
    {
      if err.Some? {
        return Stop(err.value);
      }
      var nameLen := |Split(path)|;
      SplitLength(path);
      if nameLen > depth {
        return SkipDir;
      }
      files := files + [path];
      return Proceed;
    }

    /** fs.walkDir: call back on the entry, then read and walk a directory's entries in order. */
    method WalkDir(path: string, e: Entry) returns (sig: Signal)
      modifies this
      decreases e, 0
      ensures files == old(files) + WalkEntry(depth, path, e).emitted
      ensures sig == WalkEntry(depth, path, e).signal
    {
      sig := Visit(path, None);
      if sig == SkipDir {
        if e.Dir? {
          sig := Proceed;
        }
      } else if e.Dir? {
        sig := ReadDir(path, e.listing);
      }
    }

    /** fs.ReadDir on the directory at `path`, then the walk of its entries. */
    method ReadDir(path: string, l: Listing) returns (sig: Signal)
      modifies this
      decreases l
      ensures files == old(files) + Contents(depth, path, l).emitted
      ensures sig == Contents(depth, path, l).signal
    {
      match l
      case Unreadable(cause) =>
        sig := Visit(path, Some(cause));
      case Listed(es) =>
        sig := WalkEntries(path, es);
    }

    /** walkDir's loop over the directory's entries: walk each in turn until one ends the reading. */
    method WalkEntries(path: string, es: seq<Entry>) returns (sig: Signal)
      modifies this
      decreases es
      ensures files == old(files) + WalkFrom(depth, path, es, 0).emitted
      ensures sig == WalkFrom(depth, path, es, 0).signal
    {
      ghost var start := files;
      var i := 0;
      while i < |es|
        invariant 0 <= i <= |es|
        invariant files + WalkFrom(depth, path, es, i).emitted == start + WalkFrom(depth, path, es, 0).emitted
        invariant WalkFrom(depth, path, es, i).signal == WalkFrom(depth, path, es, 0).signal
      {
        var s := WalkDir(ChildOf(path, es[i].name), es[i]);
        if s == SkipDir {
          return Proceed;
        }
        if s.Stop? {
          return s;
        }
        i := i + 1;
      }
      return Proceed;
    }

    /** fs.WalkDir(sub-root, ".", callback): walk from the sub-root itself; SkipDir there means nil. */
    method Walk(root: Listing) returns (err: Option<string>)
      modifies this
      ensures files == old(files) + WalkRoot(depth, root).emitted
      ensures err.Some? <==> WalkRoot(depth, root).signal.Stop?
      ensures err.Some? ==> err.value == WalkRoot(depth, root).signal.cause
    {
      var sig := WalkDir(".", Dir(".", root));
      if sig.Stop? {
        return Some(sig.cause);
      }
      return None;
    }
  }

  /**
   * list_files.go's doListFiles: default the depth, check the working directory and the root,
   * default and confine the directory, open it as a sub-root, walk it, and report either the
   * whole list or the walk's error, never a partial list.
   */
  method DoListFiles(host: Host, args: ListFilesArgs) returns (r: Outcome<ListFilesResult>)
    ensures host.getwdErr.Some? ==> r == Hard("failed to get working directory: " + host.getwdErr.value)
    ensures host.getwdErr.None? && host.openRootErr.Some? ==>
      r == Hard("failed to open root: " + host.openRootErr.value)
    ensures r.Hard? <==> host.getwdErr.Some? || host.openRootErr.Some?
    ensures r.Done? ==>
      var dir := if args.directory == "" then "." else args.directory;
      match Check(host.wd, dir)
      case Outside => r.result == ListFilesResult([], Some(OutsideWorkingDir))
      case Escapes => r.result == ListFilesResult([], Some(EscapingDetected))
      case Inside(p) =>
        if p !in host.dirs then r.result == ListFilesResult([], Some(OpenDirFailed(args.directory, NotExist)))
        else
          var s := WalkRoot(EffectiveDepth(args.depth), host.dirs[p]);
          if s.signal.Stop? then r.result == ListFilesResult([], Some(WalkFailed(args.directory, s.signal.cause)))
          else r.result == ListFilesResult(s.emitted, None)
  {
    var depth := args.depth;
    if depth == 0 {
      depth := DefaultDepth;
    }
    if host.getwdErr.Some? {
      return Hard("failed to get working directory: " + host.getwdErr.value);
    }
    if host.openRootErr.Some? {
      return Hard("failed to open root: " + host.openRootErr.value);
    }
    var relPath := args.directory;
    if relPath == "" {
      relPath := ".";
    }
    match Check(host.wd, relPath)
    case Outside =>
      return Done(ListFilesResult([], Some(OutsideWorkingDir)));
    case Escapes =>
      return Done(ListFilesResult([], Some(EscapingDetected)));
    case Inside(p) =>
      relPath := p;
    if relPath !in host.dirs {
      return Done(ListFilesResult([], Some(OpenDirFailed(args.directory, NotExist))));
    }
    var lister := new Lister(depth);
    var err := lister.Walk(host.dirs[relPath]);
    if err.Some? {
      return Done(ListFilesResult([], Some(WalkFailed(args.directory, err.value))));
    }
    return Done(ListFilesResult(lister.files, None));
  }
}
