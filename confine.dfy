/**
 * The confinement check that read_file.go, ReadFile.go and list_files.go each perform on a path
 * supplied by the agent, once the empty path has been dealt with: an absolute path is made
 * relative to the working directory with filepath.Rel and denied as "outside current directory"
 * when that fails or yields something beginning with ".."; the (relative) path is then cleaned
 * and denied as "path escaping detected" when the clean form begins with "..".
 */
module Confine {
  import opened Wrappers
  import opened GoPath

  /** The three ways the check ends: the cleaned relative path to open, or one of the two denials. */
  datatype Verdict = Inside(rel: string) | Outside | Escapes

  /** The check itself, for working directory `wd`. */
  function Check(wd: string, path: string): Verdict {
    if IsAbs(path) then
      match Rel(wd, path)
      case None => Outside
      case Some(rel) => if HasPrefix(rel, "..") then Outside else Lexical(rel)
    else Lexical(path)
  }

  /** The step shared by both branches: clean, then deny a clean form beginning with "..". */
  function Lexical(path: string): Verdict {
    var c := Clean(path);
    if HasPrefix(c, "..") then Escapes else Inside(c)
  }

  /** The elements `a` are where the elements `b` start. */
  predicate IsPrefixOf(a: seq<string>, b: seq<string>) {
    |a| <= |b| && b[..|a|] == a
  }

  /** ".." for each base element left, then the target's remaining elements: never rooted. */
  lemma UpsThenRestRelative(bs: seq<string>, ts: seq<string>, k: nat)
    requires k <= |bs| && k <= |ts|
    requires forall i :: 0 <= i < |ts| ==> ts[i] != "" && ts[i][0] != '/'
    ensures !IsAbs(Join(Ups(|bs| - k) + ts[k..]))
  {
    var parts := Ups(|bs| - k) + ts[k..];
    if k < |bs| {
      assert parts[0] == "..";
      JoinRelative(parts);
    } else if k < |ts| {
      assert parts[0] == ts[k];
      JoinRelative(parts);
    } else {
      assert parts == [];
    }
  }

  /** filepath.Rel never answers with an absolute path. */
  lemma RelIsRelative(base: string, targ: string)
    requires Rel(base, targ).Some?
    ensures !IsAbs(Rel(base, targ).value)
  {
    CleanShape(targ);
    RelCleanIsRelative(Clean(base), Clean(targ));
  }

  /** Rel's answer on clean paths is relative when the target's elements are path elements. */
  lemma RelCleanIsRelative(b: string, t: string)
    requires RelClean(b, t).Some?
    requires forall i :: 0 <= i < |Elements(t)| ==> IsElement(Elements(t)[i])
    ensures !IsAbs(RelClean(b, t).value)
  {
    if t != b {
      var bs := Elements(b);
      var ts := if t == "." then ["."] else Elements(t);
      assert forall i :: 0 <= i < |ts| ==> ts[i] != "" && ts[i][0] != '/';
      var k := CommonPrefix(bs, ts);
      assert RelClean(b, t).value == Join(Ups(|bs| - k) + ts[k..]);
      UpsThenRestRelative(bs, ts, k);
    }
  }

  /** Lexical answers Inside exactly with a clean form that has no ".." element and is relative when its input is. */
  lemma LexicalConfined(path: string)
    requires Lexical(path).Inside?
    ensures var rel := Lexical(path).rel;
      && rel == Clean(path)
      && Clean(rel) == rel
      && IsAbs(rel) == IsAbs(path)
      && forall i :: 0 <= i < |Split(rel)| ==> Split(rel)[i] != ".."
  {
    var rel := Clean(path);
    CleanShape(path);
    CleanIdempotent(path);
    var segs := Elements(rel);
    if segs == [] {
      if IsAbs(path) {
        assert rel == "/";
        assert Split(rel) == ["", ""];
      } else {
        assert rel == ".";
        SplitSingle(rel);
      }
    } else if IsAbs(path) {
      assert rel == "" + "/" + Join(segs);
      SplitCons("", Join(segs));
      SplitJoin(segs);
      assert Split(rel) == [""] + segs;
    } else {
      SplitJoin(segs);
      assert Split(rel) == segs;
      forall i | 0 <= i < |segs| ensures segs[i] != ".." {
        if segs[i] == ".." {
          assert segs[0] == "..";
          JoinHead(segs);
          assert false;
        }
      }
    }
  }

  /**
   * Every path the check lets through is relative, already clean, and has no ".." element, so
   * opening it below the working directory cannot climb out lexically.
   */
  lemma AcceptedIsConfined(wd: string, path: string)
    requires Check(wd, path).Inside?
    ensures var rel := Check(wd, path).rel;
      && !IsAbs(rel)
      && Clean(rel) == rel
      && forall i :: 0 <= i < |Split(rel)| ==> Split(rel)[i] != ".."
  {
    if IsAbs(path) {
      RelIsRelative(wd, path);
      LexicalConfined(Rel(wd, path).value);
    } else {
      LexicalConfined(path);
    }
  }

  /**
   * A relative path is accepted exactly when the first element of its clean form does not begin
   * with "..": a genuine escape such as "a/../../b" is denied, and so is a name such as "..foo".
   */
  lemma RelativeVerdict(wd: string, path: string)
    requires !IsAbs(path)
    ensures Check(wd, path).Inside? <==> !HasPrefix(Split(Clean(path))[0], "..")
    ensures Check(wd, path).Inside? ==> Check(wd, path).rel == Clean(path)
    ensures !Check(wd, path).Inside? ==> Check(wd, path) == Escapes
  {
    var c := Clean(path);
    CleanShape(path);
    var segs := Elements(c);
    if segs == [] {
      assert c == ".";
      SplitSingle(c);
    } else {
      SplitJoin(segs);
      JoinDotDotPrefix(segs);
    }
  }

  /** filepath.Rel between two absolute paths, in terms of their clean elements. */
  lemma RelOfAbsolute(wd: string, path: string)
    requires IsAbs(wd) && IsAbs(path)
    ensures var ws, ps := Elements(Clean(wd)), Elements(Clean(path));
      var k := CommonPrefix(ws, ps);
      Rel(wd, path) == Some(if Clean(path) == Clean(wd) then "." else Join(Ups(|ws| - k) + ps[k..]))
  {
    CleanShape(wd);
    CleanShape(path);
  }

  /** An absolute path whose clean elements do not extend those of the working directory is outside it. */
  lemma AbsoluteOutside(wd: string, path: string)
    requires IsAbs(wd) && IsAbs(path)
    requires !IsPrefixOf(Elements(Clean(wd)), Elements(Clean(path)))
    ensures Check(wd, path) == Outside
  {
    var ws, ps := Elements(Clean(wd)), Elements(Clean(path));
    RelOfAbsolute(wd, path);
    var k := CommonPrefix(ws, ps);
    assert Clean(path) != Clean(wd);
    assert k < |ws|;
    var parts := Ups(|ws| - k) + ps[k..];
    assert parts[0] == "..";
    JoinHead(parts);
  }

  /**
   * An absolute path whose clean elements extend those of the working directory: the directory
   * itself is accepted as "."; a path below it as its remaining elements joined with "/", unless
   * the first of them begins with "..", in which case Rel's answer does too and it is outside.
   */
  lemma AbsoluteBelow(wd: string, path: string)
    requires IsAbs(wd) && IsAbs(path)
    requires IsPrefixOf(Elements(Clean(wd)), Elements(Clean(path)))
    ensures var ws, ps := Elements(Clean(wd)), Elements(Clean(path));
      Check(wd, path) ==
        if |ps| == |ws| then Inside(".")
        else if HasPrefix(ps[|ws|], "..") then Outside
        else Inside(Join(ps[|ws|..]))
  {
    var ws, ps := Elements(Clean(wd)), Elements(Clean(path));
    CleanShape(wd);
    CleanShape(path);
    CleanDot();
    RelOfAbsolute(wd, path);
    var k := CommonPrefix(ws, ps);
    assert k == |ws|;
    if Clean(path) != Clean(wd) {
      var rest := ps[|ws|..];
      assert Ups(|ws| - k) + ps[k..] == rest;
      if |ps| > |ws| {
        assert Canonical(rest, false);
        JoinDotDotPrefix(rest);
        CleanOfCanonical(rest);
      }
    }
  }

  /** Clean reads the relative elements d, .., .., n as "..", n. */
  lemma ReduceClimbRelative(d: string, n: string)
    requires IsElement(d) && d != ".." && IsElement(n) && n != ".."
    ensures Reduce([d, "..", "..", n], false, []) == ["..", n]
  {
    var segs := [d, "..", "..", n];
    assert [] + [d] == [d];
    assert Reduce(segs, false, []) == Reduce(segs[1..], false, [d]);
    assert segs[1..][0] == ".." && segs[1..][1..] == segs[2..];
    assert [d][..0] == [];
    assert Reduce(segs[1..], false, [d]) == Reduce(segs[2..], false, []);
    assert [] + [".."] == [".."];
    assert segs[2..][0] == ".." && segs[2..][1..] == segs[3..];
    assert Reduce(segs[2..], false, []) == Reduce(segs[3..], false, [".."]);
    assert [".."] + [n] == ["..", n];
  }

  /** Clean reads the rooted elements w, s, .., .., x as x. */
  lemma ReduceClimbRooted(w: string, s: string, x: string)
    requires IsElement(w) && w != ".." && IsElement(s) && s != ".." && IsElement(x) && x != ".."
    ensures Reduce([s, "..", "..", x], true, [w]) == [x]
  {
    var segs := [s, "..", "..", x];
    assert [w] + [s] == [w, s];
    assert Reduce(segs, true, [w]) == Reduce(segs[1..], true, [w, s]);
    assert segs[1..][0] == ".." && segs[1..][1..] == segs[2..];
    assert [w, s][..1] == [w];
    assert Reduce(segs[1..], true, [w, s]) == Reduce(segs[2..], true, [w]);
    assert segs[2..][0] == ".." && segs[2..][1..] == segs[3..];
    assert [w][..0] == [];
    assert Reduce(segs[2..], true, [w]) == Reduce(segs[3..], true, []);
    assert [] + [x] == [x];
  }

  /** The parts of ../../n. */
  lemma SplitUpUp(n: string)
    requires '/' !in n
    ensures Split(".." + "/" + (".." + "/" + n)) == ["..", "..", n]
  {
    SplitCons("..", n);
    SplitSingle(n);
    SplitCons("..", ".." + "/" + n);
  }

  /** A relative path that Clean reads as "..", n is denied as escaping. */
  lemma CleanUpThenEscapes(wd: string, p: string, n: string)
    requires !IsAbs(p) && IsElement(n) && n != ".."
    requires Reduce(Split(p), false, []) == ["..", n]
    ensures Check(wd, p) == Escapes
  {
    assert ["..", n][1..] == [n];
    assert Clean(p) == Join(["..", n]) == ".." + "/" + n;
    assert (".." + "/" + n)[..2] == "..";
  }

  /** The path d/../../n, relative, for a directory d and a name n: climbs out, so it is denied. */
  lemma ClimbOutEscapes(wd: string, d: string, n: string)
    requires IsElement(d) && d != ".." && IsElement(n) && n != ".."
    ensures Check(wd, d + "/" + (".." + "/" + (".." + "/" + n))) == Escapes
  {
    var r1 := ".." + "/" + (".." + "/" + n);
    var p := d + "/" + r1;
    SplitUpUp(n);
    SplitCons(d, r1);
    assert p[0] == d[0];
    ReduceClimbRelative(d, n);
    CleanUpThenEscapes(wd, p, n);
  }

  /** ".." itself and the mere name "..foo" are both denied as escaping. */
  lemma DotDotNamesEscape(wd: string)
    ensures Check(wd, "..") == Escapes
    ensures Check(wd, "..foo") == Escapes
  {
    SplitSingle("..");
    JoinDotDotPrefix([".."]);
    SplitSingle("..foo");
    JoinDotDotPrefix(["..foo"]);
  }

  /** The parts of ../../x/y. */
  lemma SplitUpUpTwo(x: string, y: string)
    requires '/' !in x && '/' !in y
    ensures Split(".." + "/" + (".." + "/" + (x + "/" + y))) == ["..", "..", x, y]
  {
    var r := x + "/" + y;
    SplitCons(x, y);
    SplitSingle(y);
    assert Split(r) == [x, y];
    SplitCons("..", r);
    assert Split(".." + "/" + r) == ["..", x, y];
    SplitCons("..", ".." + "/" + r);
  }

  /** The parts of /w/s/../../x/y. */
  lemma SplitClimbRooted(w: string, s: string, x: string, y: string)
    requires '/' !in w && '/' !in s && '/' !in x && '/' !in y
    ensures Split("/" + (w + "/" + (s + "/" + (".." + "/" + (".." + "/" + (x + "/" + y))))))
         == ["", w, s, "..", "..", x, y]
  {
    var r2 := ".." + "/" + (".." + "/" + (x + "/" + y));
    var r1 := s + "/" + r2;
    var r0 := w + "/" + r1;
    SplitUpUpTwo(x, y);
    SplitCons(s, r2);
    SplitCons(w, r1);
    SplitCons("", r0);
    assert "/" + r0 == "" + "/" + r0;
  }

  /** Clean reads /w/s/../../x/y as the elements x, y. */
  lemma ElementsClimbRooted(w: string, s: string, x: string, y: string)
    requires IsElement(w) && w != ".." && IsElement(s) && s != ".."
    requires IsElement(x) && x != ".." && IsElement(y) && y != ".."
    ensures Elements(Clean("/" + (w + "/" + (s + "/" + (".." + "/" + (".." + "/" + (x + "/" + y))))))) == [x, y]
  {
    var p := "/" + (w + "/" + (s + "/" + (".." + "/" + (".." + "/" + (x + "/" + y)))));
    SplitClimbRooted(w, s, x, y);
    var parts := ["", w, s, "..", "..", x, y];
    assert Reduce(parts, true, []) == Reduce(parts[1..], true, []);
    assert [] + [w] == [w];
    assert parts[1..][0] == w && parts[1..][1..] == parts[2..];
    assert Reduce(parts[1..], true, []) == Reduce(parts[2..], true, [w]);
    assert parts[2..] == [s, "..", "..", x] + [y];
    ReduceClimbRooted(w, s, x);
    ReduceSplit([s, "..", "..", x], [y], true, [w]);
    assert Reduce([y], true, [x]) == [x, y];
    CleanShape(p);
  }

  /**
   * With working directory /w, the absolute path /w/s/../../x/y leaves the working directory and
   * comes back elsewhere, so it is denied as outside whenever x is not w.  With w = "work",
   * s = "secret", x = "etc" and y = "passwd" this is /work/secret/../../etc/passwd.
   */
  lemma AbsoluteClimbOutDenied(w: string, s: string, x: string, y: string)
    requires IsElement(w) && w != ".." && IsElement(s) && s != ".."
    requires IsElement(x) && x != ".." && IsElement(y) && y != ".." && x != w
    ensures Check("/" + w, "/" + (w + "/" + (s + "/" + (".." + "/" + (".." + "/" + (x + "/" + y)))))) == Outside
  {
    var p := "/" + (w + "/" + (s + "/" + (".." + "/" + (".." + "/" + (x + "/" + y)))));
    ElementsClimbRooted(w, s, x, y);
    var wd := "/" + w;
    assert wd == "" + "/" + w;
    SplitCons("", w);
    SplitSingle(w);
    assert ["", w][1..] == [w] && [] + [w] == [w];
    assert [w][1..] == [];
    assert Reduce(["", w], true, []) == Reduce([w], true, []) == Reduce([], true, [w]);
    CleanShape(wd);
    AbsoluteOutside(wd, p);
  }
}
