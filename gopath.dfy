/**
 * The lexical path functions of Go's standard library that the tools rely on, for a Unix host
 * (separator '/', no volume names): strings.Split, strings.Join and strings.HasPrefix with "/",
 * filepath.IsAbs, filepath.Clean, filepath.Rel and path.Join.  None of them touches a filesystem.
 */
module GoPath {
  import opened Wrappers

  /** strings.HasPrefix(s, prefix). */
  predicate HasPrefix(s: string, prefix: string) {
    |prefix| <= |s| && s[..|prefix|] == prefix
  }

  /** filepath.IsAbs on a Unix host: the path starts with the separator. */
  predicate IsAbs(p: string) {
    |p| > 0 && p[0] == '/'
  }

  /** strings.Join(parts, "/"). */
  function Join(parts: seq<string>): string
    decreases |parts|
  {
    if |parts| == 0 then ""
    else if |parts| == 1 then parts[0]
    else parts[0] + "/" + Join(parts[1..])
  }

  /** strings.Split(s, "/"): never empty, no part holds a separator, and joining the parts gives s back. */
  function Split(s: string): (parts: seq<string>)
    ensures |parts| >= 1
    ensures forall i :: 0 <= i < |parts| ==> '/' !in parts[i]
    ensures Join(parts) == s
    decreases |s|
  {
    if s == [] then [""]
    else
      var rest := Split(s[1..]);
      if s[0] == '/' then
        assert s == "/" + Join(rest);
        [""] + rest
      else
        var head := [s[0]] + rest[0];
        assert '/' !in head;
        assert |rest| == 1 ==> Join([head] + rest[1..]) == s;
        assert |rest| > 1 ==> Join([head] + rest[1..]) == head + "/" + Join(rest[1..]);
        [head] + rest[1..]
  }

  /** An element as Clean leaves it: non-empty, not ".", without a separator. */
  predicate IsElement(x: string) {
    x != "" && x != "." && '/' !in x
  }

  /**
   * The elements of a cleaned path: "..", if present, only in a leading run, and not at all once
   * the path is rooted (Clean drops ".." right after the root).
   */
  predicate Canonical(segs: seq<string>, rooted: bool) {
    && (forall i :: 0 <= i < |segs| ==> IsElement(segs[i]))
    && (forall i, j :: 0 <= i < j < |segs| && segs[j] == ".." ==> segs[i] == "..")
    && (rooted ==> forall i :: 0 <= i < |segs| ==> segs[i] != "..")
  }

  /**
   * Clean's rewriting of the elements of a path, left to right, with `kept` the elements kept so
   * far: empty elements and "." vanish, ".." cancels the element before it unless that is itself
   * "..", is dropped right after the root, and is otherwise kept.
   */
  function Reduce(parts: seq<string>, rooted: bool, kept: seq<string>): (r: seq<string>)
    requires forall i :: 0 <= i < |parts| ==> '/' !in parts[i]
    requires Canonical(kept, rooted)
    ensures Canonical(r, rooted)
    decreases |parts|
  {
    if parts == [] then kept
    else
      var x := parts[0];
      if x == "" || x == "." then Reduce(parts[1..], rooted, kept)
      else if x == ".." then
        if |kept| > 0 && kept[|kept| - 1] != ".." then Reduce(parts[1..], rooted, kept[..|kept| - 1])
        else if rooted then Reduce(parts[1..], rooted, kept)
        else
          assert forall i :: 0 <= i < |kept| ==> kept[i] == "..";
          Reduce(parts[1..], rooted, kept + [".."])
      else Reduce(parts[1..], rooted, kept + [x])
  }

  /** How Clean writes its elements back: "/" before a rooted path, "." for an empty relative one. */
  function Render(segs: seq<string>, rooted: bool): string {
    if rooted then "/" + Join(segs) else if segs == [] then "." else Join(segs)
  }

  /** filepath.Clean on a Unix host. */
  function Clean(p: string): string {
    Render(Reduce(Split(p), IsAbs(p), []), IsAbs(p))
  }

  /** The elements of a path in the form Clean returns; "/" and "." have none. */
  function Elements(c: string): seq<string> {
    if c == "/" || c == "." then []
    else if IsAbs(c) then Split(c[1..])
    else Split(c)
  }

  /** The number of elements the two sequences share at their start. */
  function CommonPrefix(a: seq<string>, b: seq<string>): (k: nat)
    ensures k <= |a| && k <= |b| && a[..k] == b[..k]
    ensures k < |a| && k < |b| ==> a[k] != b[k]
  {
    if a == [] || b == [] || a[0] != b[0] then 0
    else
      var k := 1 + CommonPrefix(a[1..], b[1..]);
      assert a[..k] == [a[0]] + a[1..][..k - 1];
      assert b[..k] == [b[0]] + b[1..][..k - 1];
      k
  }

  /** n copies of "..". */
  function Ups(n: nat): (r: seq<string>)
    ensures |r| == n && forall i :: 0 <= i < n ==> r[i] == ".."
  {
    seq(n, _ => "..")
  }

  /**
   * filepath.Rel(basepath, targpath) on a Unix host; None is its error return.  Both paths are
   * cleaned, the elements they share at the start are dropped, and each remaining element of the
   * base becomes "..".  It fails when only one path is rooted, or when the base would have to be
   * left through one of its own ".." elements.
   */
  function Rel(basepath: string, targpath: string): Option<string> {
    RelClean(Clean(basepath), Clean(targpath))
  }

  /** Rel's work once both paths are clean. */
  function RelClean(base: string, targ: string): Option<string> {
    if targ == base then Some(".")
    else if IsAbs(base) != IsAbs(targ) then None
    else
      var bs := Elements(base);
      var ts := if targ == "." then ["."] else Elements(targ);
      var k := CommonPrefix(bs, ts);
      if k < |bs| && bs[k] == ".." then None
      else Some(Join(Ups(|bs| - k) + ts[k..]))
  }

  /** path.Join(dir, name) for two non-empty elements: join with "/", then clean. */
  function JoinPath(dir: string, name: string): string {
    Clean(dir + "/" + name)
  }

  // ---------------------------------------------------------------------------------------------
  // Split and Join are inverse on parts without separators.

  lemma {:induction false} SplitSingle(x: string)
    requires '/' !in x
    ensures Split(x) == [x]
    decreases |x|
  {
    if x != [] {
      assert '/' !in x[1..];
      SplitSingle(x[1..]);
      assert [x[0]] + x[1..] == x;
    }
  }

  lemma {:induction false} SplitCons(x: string, r: string)
    requires '/' !in x
    ensures Split(x + "/" + r) == [x] + Split(r)
    decreases |x|
  {
    if x == [] {
      assert (x + "/" + r)[1..] == r;
    } else {
      assert (x + "/" + r)[1..] == x[1..] + "/" + r;
      assert '/' !in x[1..];
      SplitCons(x[1..], r);
      assert [x[0]] + x[1..] == x;
    }
  }

  lemma {:induction false} SplitJoin(parts: seq<string>)
    requires |parts| >= 1
    requires forall i :: 0 <= i < |parts| ==> '/' !in parts[i]
    ensures Split(Join(parts)) == parts
    decreases |parts|
  {
    if |parts| == 1 {
      SplitSingle(parts[0]);
    } else {
      SplitJoin(parts[1..]);
      SplitCons(parts[0], Join(parts[1..]));
      assert [parts[0]] + parts[1..] == parts;
    }
  }

  /** Join starts with its first part. */
  lemma {:induction false} JoinHead(parts: seq<string>)
    requires |parts| >= 1
    ensures HasPrefix(Join(parts), parts[0])
    ensures |parts| > 1 ==> Join(parts)[|parts[0]|] == '/'
  {
    if |parts| > 1 {
      assert Join(parts) == parts[0] + ("/" + Join(parts[1..]));
    }
  }

  lemma {:induction false} JoinAppend(parts: seq<string>, x: string)
    requires |parts| >= 1
    ensures Join(parts + [x]) == Join(parts) + "/" + x
    decreases |parts|
  {
    if |parts| == 1 {
      assert parts + [x] == [parts[0], x];
    } else {
      assert (parts + [x])[1..] == parts[1..] + [x];
      JoinAppend(parts[1..], x);
    }
  }

  // ---------------------------------------------------------------------------------------------
  // The shape of Clean's result.

  /** Render writes canonical elements so that Elements reads them back, keeping rootedness. */
  lemma RenderElements(segs: seq<string>, rooted: bool)
    requires Canonical(segs, rooted)
    ensures Elements(Render(segs, rooted)) == segs
    ensures IsAbs(Render(segs, rooted)) == rooted
    ensures Render(segs, rooted) != ""
  {
    var c := Render(segs, rooted);
    if segs != [] {
      SplitJoin(segs);
      JoinHead(segs);
      assert IsElement(segs[0]);
      if rooted {
        assert c[1..] == Join(segs);
        assert c != "/";
      } else {
        assert c[0] == segs[0][0];
        assert c != ".";
      }
    }
  }

  /** What Clean returns: a rendering of canonical elements, rooted exactly when the input is. */
  lemma CleanShape(p: string)
    ensures Canonical(Elements(Clean(p)), IsAbs(p))
    ensures Elements(Clean(p)) == Reduce(Split(p), IsAbs(p), [])
    ensures Clean(p) == Render(Elements(Clean(p)), IsAbs(p))
    ensures IsAbs(Clean(p)) == IsAbs(p)
    ensures Clean(p) != ""
  {
    RenderElements(Reduce(Split(p), IsAbs(p), []), IsAbs(p));
  }

  /** Reduce leaves elements that are already canonical as they are. */
  lemma {:induction false} ReduceCanonical(parts: seq<string>, rooted: bool, kept: seq<string>)
    requires Canonical(kept + parts, rooted)
    ensures forall i :: 0 <= i < |parts| ==> '/' !in parts[i]
    ensures Canonical(kept, rooted)
    ensures Reduce(parts, rooted, kept) == kept + parts
    decreases |parts|
  {
    var all := kept + parts;
    assert forall i :: 0 <= i < |parts| ==> parts[i] == all[|kept| + i];
    assert forall i :: 0 <= i < |kept| ==> kept[i] == all[i];
    if parts != [] {
      var x := parts[0];
      assert kept + [x] + parts[1..] == all;
      if x == ".." {
        assert !rooted;
        assert forall i :: 0 <= i < |kept| ==> kept[i] == "..";
      }
      ReduceCanonical(parts[1..], rooted, kept + [x]);
    }
  }

  /** Clean is idempotent: a cleaned path is its own clean form. */
  lemma CleanIdempotent(p: string)
    ensures Clean(Clean(p)) == Clean(p)
  {
    CleanShape(p);
    var segs := Elements(Clean(p));
    if segs == [] {
      if IsAbs(p) {
        CleanRoot();
      } else {
        CleanDot();
      }
    } else if IsAbs(p) {
      CleanOfRooted(segs);
    } else {
      CleanOfCanonical(segs);
    }
  }

  /** The root is its own clean form. */
  lemma CleanRoot()
    ensures Clean("/") == "/"
  {
    assert "/"[1..] == "";
    assert Split("/") == ["", ""];
    assert Reduce(["", ""], true, []) == Reduce([""], true, []) == [];
  }

  /** A rooted path written from canonical elements is already clean. */
  lemma CleanOfRooted(segs: seq<string>)
    requires |segs| >= 1 && Canonical(segs, true)
    ensures Clean("/" + Join(segs)) == "/" + Join(segs)
  {
    var j := Join(segs);
    SplitJoin(segs);
    SplitRooted(j);
    ReduceSkipsEmpty(segs, true, []);
    ReduceCanonical(segs, true, []);
    assert [] + segs == segs;
  }

  /** The parts of a path with a leading separator: an empty one, then the rest's. */
  lemma SplitRooted(r: string)
    ensures Split("/" + r) == [""] + Split(r)
  {
    SplitCons("", r);
    assert "" + "/" + r == "/" + r;
  }

  /** Reduce drops an empty element. */
  lemma ReduceSkipsEmpty(parts: seq<string>, rooted: bool, kept: seq<string>)
    requires forall i :: 0 <= i < |parts| ==> '/' !in parts[i]
    requires Canonical(kept, rooted)
    ensures Reduce([""] + parts, rooted, kept) == Reduce(parts, rooted, kept)
  {
    assert ([""] + parts)[1..] == parts;
  }

  /** For elements as Clean leaves them, a joined path starts with ".." exactly when its first element does. */
  lemma JoinDotDotPrefix(segs: seq<string>)
    requires |segs| >= 1 && IsElement(segs[0])
    ensures HasPrefix(Join(segs), "..") <==> HasPrefix(segs[0], "..")
  {
    JoinHead(segs);
    var c := Join(segs);
    if |segs[0]| >= 2 {
      assert c[..2] == segs[0][..2];
    } else {
      assert c[0] == segs[0][0] != '.';
    }
  }

  /** A relative path written from canonical elements is already clean. */
  lemma CleanOfCanonical(segs: seq<string>)
    requires |segs| >= 1 && Canonical(segs, false)
    ensures Clean(Join(segs)) == Join(segs)
    ensures !IsAbs(Join(segs))
  {
    SplitJoin(segs);
    JoinHead(segs);
    assert Join(segs)[0] == segs[0][0];
    ReduceCanonical(segs, false, []);
    assert [] + segs == segs;
  }

  /** The clean form of the empty path and of "." is ".". */
  lemma CleanDot()
    ensures Clean("") == "." && Clean(".") == "."
  {
    assert Split("") == [""];
    assert Split(".") == ["."] by { SplitSingle("."); }
  }

  /** A joined path is relative when its first part is non-empty and does not start with "/". */
  lemma JoinRelative(parts: seq<string>)
    requires |parts| >= 1 && parts[0] != "" && parts[0][0] != '/'
    ensures !IsAbs(Join(parts))
  {
    JoinHead(parts);
  }

  /** Reduce works through a concatenation one part after the other. */
  lemma {:induction false} ReduceSplit(a: seq<string>, b: seq<string>, rooted: bool, kept: seq<string>)
    requires forall i :: 0 <= i < |a| ==> '/' !in a[i]
    requires forall i :: 0 <= i < |b| ==> '/' !in b[i]
    requires Canonical(kept, rooted)
    ensures Reduce(a + b, rooted, kept) == Reduce(b, rooted, Reduce(a, rooted, kept))
    decreases |a|
  {
    if a != [] {
      assert (a + b)[0] == a[0] && (a + b)[1..] == a[1..] + b;
      var x := a[0];
      if x == "" || x == "." {
        ReduceSplit(a[1..], b, rooted, kept);
      } else if x == ".." {
        if |kept| > 0 && kept[|kept| - 1] != ".." {
          ReduceSplit(a[1..], b, rooted, kept[..|kept| - 1]);
        } else if rooted {
          ReduceSplit(a[1..], b, rooted, kept);
        } else {
          assert forall i :: 0 <= i < |kept| ==> kept[i] == "..";
          ReduceSplit(a[1..], b, rooted, kept + [".."]);
        }
      } else {
        ReduceSplit(a[1..], b, rooted, kept + [x]);
      }
    } else {
      assert a + b == b;
    }
  }

  // ---------------------------------------------------------------------------------------------
  // Rel on sample paths.

  /** Go's Rel keeps the target ".": from "a" to "." is "../.", not "..". */
  lemma RelToDot()
    ensures Rel("a", ".") == Some("../.")
  {
    assert Join(["a"]) == "a";
    CleanOfCanonical(["a"]);
    SplitJoin(["a"]);
    CleanDot();
    assert Ups(1) + ["."][0..] == ["..", "."];
    assert Join(["..", "."]) == "../.";
  }

  /** Rel fails when only one of the two paths is rooted. */
  lemma RelMixedRoots()
    ensures Rel("/w", "x") == None
  {
    assert Join(["w"]) == "w" && Join(["x"]) == "x";
    CleanOfRooted(["w"]);
    CleanOfCanonical(["x"]);
  }

  /** Rel fails when the base would have to be left through its own "..", as from "../a" to "b". */
  lemma RelThroughDotDot(a: string, b: string)
    requires IsElement(a) && IsElement(b) && b != ".."
    ensures Rel(".." + "/" + a, b) == None
  {
    var base := ".." + "/" + a;
    assert |[b]| == 1 && [b][0] == b;
    assert Join([b]) == b;
    assert Join(["..", a]) == base;
    CleanOfCanonical(["..", a]);
    CleanOfCanonical([b]);
    SplitJoin(["..", a]);
    SplitJoin([b]);
    assert base[0] == '.';
    assert Elements(base) == ["..", a];
    assert Elements(b) == [b];
  }
}
