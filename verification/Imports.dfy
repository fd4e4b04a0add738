/** Collecting the imported packages, with levels that detect cycles. */
module Imports {

  type Pkg = string

  /** The source files of each package, each with the packages it imports. */
  type Sources = map<Pkg, seq<seq<Pkg>>>

  /** Package q is imported by a file of p. */
  predicate ImportsPkg(src: Sources, p: Pkg, q: Pkg) {
    p in src && exists i, j :: 0 <= i < |src[p]| && 0 <= j < |src[p][i]| && src[p][i][j] == q
  }

  /** Every import of p is registered at a greater level. */
  ghost predicate Checked(src: Sources, levels: map<Pkg, nat>, p: Pkg) {
    p in levels && forall q :: ImportsPkg(src, p, q) ==> q in levels && levels[q] > levels[p]
  }

  ghost predicate CheckedAbove(src: Sources, levels: map<Pkg, nat>, level: nat) {
    forall p :: p in levels && levels[p] > level ==> Checked(src, levels, p)
  }

  ghost predicate InUse(levels: map<Pkg, nat>, l: nat) {
    exists p :: p in levels && levels[p] == l
  }

  /** Each level from 1 to top is in use. */
  ghost predicate Filled(levels: map<Pkg, nat>, top: nat) {
    forall l: nat :: 1 <= l <= top ==> InUse(levels, l)
  }

  ghost predicate Closed(levels: map<Pkg, nat>) {
    forall p :: p in levels ==> levels[p] >= 1 && Filled(levels, levels[p])
  }

  /** Registered packages keep their level. */
  ghost predicate Keeps(levels: map<Pkg, nat>, levels': map<Pkg, nat>) {
    forall p :: p in levels ==> p in levels' && levels'[p] == levels[p]
  }

  /** An import of q at this level is not an error. */
  predicate CanAdd(src: Sources, levels: map<Pkg, nat>, q: Pkg, level: nat) {
    if q in levels then levels[q] >= level else q in src
  }

  lemma CheckedKept(src: Sources, levels: map<Pkg, nat>, levels': map<Pkg, nat>, p: Pkg)
    requires Checked(src, levels, p) && Keeps(levels, levels')
    ensures Checked(src, levels', p)
  {
  }

  // Levels 1 to n are in use, so there are at least n packages.
  lemma {:induction false} EnoughPackages(levels: map<Pkg, nat>, n: nat)
    requires Filled(levels, n)
    ensures n <= |levels|
    decreases n
  {
    if n > 0 {
      assert InUse(levels, n);
      var p :| p in levels && levels[p] == n;
      var rest := levels - {p};
      forall l: nat | 1 <= l <= n - 1
        ensures InUse(rest, l)
      {
        assert InUse(levels, l);
        var q :| q in levels && levels[q] == l;
        assert q in rest && rest[q] == l;
      }
      EnoughPackages(rest, n - 1);
      assert |rest| == |levels| - 1;
    }
  }

  lemma {:induction false} SubsetSize(a: set<Pkg>, b: set<Pkg>)
    requires a <= b
    ensures |a| <= |b|
  {
    if a != {} {
      var x :| x in a;
      SubsetSize(a - {x}, b - {x});
    }
  }

  class Collector {
    const src: Sources
    var levels: map<Pkg, nat>   // the global Packages map, with the level of each package

    constructor (src: Sources)
      ensures this.src == src && levels == map[]
    {
      this.src := src;
      levels := map[];
    }

    ghost predicate Valid(level: nat)
      reads this
    {
      levels.Keys <= src.Keys && Closed(levels) && Filled(levels, level)
    }

    /** A call at this level finds at least as many packages. */
    lemma LevelBound(level: nat)
      requires Valid(level)
      ensures level <= |src|
    {
      EnoughPackages(levels, level);
      SubsetSize(levels.Keys, src.Keys);
    }

    /** Registers a package at a level; one that is registered at a smaller level counts as a cycle. */
    method AddPackage(name: Pkg, level: nat) returns (ok: bool)
      requires level >= 1 && Valid(level - 1)
      modifies this`levels
      ensures Valid(level - 1) && Keeps(old(levels), levels)
      ensures forall p :: p in levels && p !in old(levels) ==> p == name && levels[p] == level
      ensures ok <==> CanAdd(src, old(levels), name, level)
      ensures ok ==> Valid(level) && name in levels && levels[name] >= level
    {
      if name in levels && levels[name] < level {
        return false;
      }
      if name in levels {
        return true;
      }
      if name !in src {
        return false;
      }
      levels := levels[name := level];
      FilledMore(old(levels), name, level);
      return true;
    }

    /** The imports of one file. */
    method CollectFileImports(file: seq<Pkg>, level: nat) returns (ok: bool)
      requires level >= 1 && Valid(level - 1)
      modifies this`levels
      ensures Valid(level - 1) && Keeps(old(levels), levels)
      ensures forall p :: p in levels && p !in old(levels) ==> p in file && levels[p] == level
      ensures ok <==> forall p :: p in file ==> CanAdd(src, old(levels), p, level)
      ensures ok ==> forall p :: p in file ==> p in levels && levels[p] >= level
    {
      for j := 0 to |file|
        invariant Valid(level - 1) && Keeps(old(levels), levels)
        invariant forall p :: p in levels && p !in old(levels) ==> p in file && levels[p] == level
        invariant forall k :: 0 <= k < j ==>
                    CanAdd(src, old(levels), file[k], level) && file[k] in levels && levels[file[k]] >= level
      {
        ok := AddPackage(file[j], level);
        if !ok {
          assert file[j] in file && !CanAdd(src, old(levels), file[j], level);
          return;
        }
      }
      ok := true;
    }

    // The imports of all files of a package.
    method CollectFiles(pkg: Pkg, level: nat) returns (ok: bool)
      requires Valid(level) && pkg in src
      modifies this`levels
      ensures Valid(level) && Keeps(old(levels), levels)
      ensures forall p :: p in levels && p !in old(levels) ==> ImportsPkg(src, pkg, p) && levels[p] == level + 1
      ensures ok <==> forall q :: ImportsPkg(src, pkg, q) ==> CanAdd(src, old(levels), q, level + 1)
      ensures ok ==> forall q :: ImportsPkg(src, pkg, q) ==> q in levels && levels[q] > level
    {
      for i := 0 to |src[pkg]|
        invariant Valid(level) && Keeps(old(levels), levels)
        invariant forall p :: p in levels && p !in old(levels) ==> ImportsPkg(src, pkg, p) && levels[p] == level + 1
        invariant forall k, p :: 0 <= k < i && p in src[pkg][k] ==>
                    CanAdd(src, old(levels), p, level + 1) && p in levels && levels[p] > level
      {
        ghost var now := levels;
        ok := CollectFileImports(src[pkg][i], level + 1);
        if !ok {
          ghost var q :| q in src[pkg][i] && !CanAdd(src, now, q, level + 1);
          assert ImportsPkg(src, pkg, q) && !CanAdd(src, old(levels), q, level + 1);
          return;
        }
      }
      ok := true;
    }

    /**
     Collects the imports of a package, and of every package that is registered above its level, in any order. Of the
     orders, `first` may fix a part: its first package comes first here, the second one comes first in that package's
     call, and so on.
     */
    method CollectPackageImports(pkg: Pkg, level: nat, first: seq<Pkg>, ghost g: map<Pkg, nat>) returns (ok: bool)
      requires Valid(level) && pkg in src && CheckedAbove(src, levels, level)
      requires Path(src, [pkg] + first) && (first != [] ==> AtMost(levels, level))
      modifies this`levels
      ensures Valid(level) && Keeps(old(levels), levels)
      ensures forall p :: p in levels && p !in old(levels) ==> levels[p] > level
      ensures ok ==> CheckedAbove(src, levels, level)
      ensures ok ==> forall q :: ImportsPkg(src, pkg, q) ==>
                       q in levels && levels[q] > level && (q !in old(levels) ==> levels[q] == level + 1)
      ensures ok ==> InStep(levels, first, level)
      ensures Graded(src, old(levels), g, pkg, level) ==> Grading(src, g) && ok && Agrees(levels, g)
      decreases |src| - level, 1
    {
      hide Checked, Closed, Filled, ImportsPkg, CanAdd, Path, InStep, AtMost, Graded, Agrees, Grading;
      LevelBound(level);
      ok := CollectFiles(pkg, level);
      if Graded(src, old(levels), g, pkg, level) {
        FilesGraded(src, old(levels), levels, g, pkg, level);
      }
      if !ok {
        return;
      }
      forall p | p in levels && levels[p] > level + 1
        ensures Checked(src, levels, p)
      {
        CheckedKept(src, old(levels), levels, p);
      }
      if first != [] {
        FirstStep(src, old(levels), levels, pkg, first, level);
      }
      ok := CollectNewPackages(level, first, g);
    }

    // The packages registered above the level.
    method CollectNewPackages(level: nat, first: seq<Pkg>, ghost g: map<Pkg, nat>) returns (ok: bool)
      requires Valid(level) && level <= |src| && CheckedAbove(src, levels, level + 1)
      requires first != [] ==>
                 && first[0] in levels && levels[first[0]] == level + 1 && Path(src, [first[0]] + first[1..])
                 && AtMost(levels, level + 1)
      modifies this`levels
      ensures Valid(level) && Keeps(old(levels), levels)
      ensures forall p :: p in levels && p !in old(levels) ==> levels[p] > level + 1
      ensures ok ==> CheckedAbove(src, levels, level) && InStep(levels, first, level)
      ensures Grading(src, g) && Agrees(old(levels), g) ==> ok && Agrees(levels, g)
      decreases |src| - level, 0
    {
      hide Checked, Closed, Filled, ImportsPkg, Path, InStep, AtMost, Graded, Agrees, Grading;
      var newPackages := set p | p in levels && levels[p] > level;
      var next := first;
      NoSteps(levels, level);
      ghost var all := newPackages;
      while newPackages != {}
        invariant forall p :: p in levels && p !in old(levels) ==> levels[p] > level + 1
        invariant newPackages <= all && Valid(level) && Keeps(old(levels), levels)
                  && CheckedAbove(src, levels, level + 1)
        invariant forall p :: p in levels && levels[p] > level ==> p in newPackages || Checked(src, levels, p)
        invariant if next == [] then InStep(levels, first, level)
                  else next == first && levels == old(levels) && next[0] in newPackages
        invariant Grading(src, g) && Agrees(old(levels), g) ==> Agrees(levels, g)
        decreases newPackages
      {
        var p, rest;
        if next != [] {
          p, rest := next[0], next[1..];
        } else {
          p :| p in newPackages;
          rest := [];
          OnePackage(src, p);
        }
        newPackages := newPackages - {p};
        LevelInRange(levels, p, level + 1);
        LevelBound(level + 1);
        ghost var now := levels;
        if Grading(src, g) && Agrees(now, g) {
          StillGraded(src, now, g, p, level);
        }
        ok := CollectPackageImports(p, level + 1, rest, g);
        FilledLess(levels, level);
        if !ok {
          return;
        }
        if next != [] {
          MoreSteps(now, levels, first, level);
        } else {
          StepsKept(now, levels, first, level);
        }
        next := [];
        forall r | r in levels && levels[r] > level && r !in newPackages
          ensures Checked(src, levels, r)
        {
          StaysChecked(src, now, levels, p, level, r);
        }
      }
      ok := true;
    }

    /**
     The check of a whole program: every import of every registered package has a greater level than its importer. A
     program with a grading is accepted whatever the order; along a misfit it is rejected.
     */
    method CollectProgram(root: Pkg, first: seq<Pkg>) returns (ok: bool)
      requires levels == map[] && root in src && Path(src, [root] + first)
      modifies this`levels
      ensures levels.Keys <= src.Keys
      ensures ok ==> Accepted(src, root, levels)
      ensures ok ==> forall q, r :: ImportsPkg(src, root, q) && ImportsPkg(src, root, r) ==> !ImportsPkg(src, q, r)
      ensures HasGrading(src, root) ==> ok
      ensures Misfit(src, root, first) ==> !ok
    {
      ghost var g: map<Pkg, nat> := map[];
      if HasGrading(src, root) {
        g :| Grading(src, g) && root in g && g[root] == 0;
      }
      ok := CollectPackageImports(root, 0, first, g);
      if ok {
        MisfitRejected(src, root, levels, first);
        forall q, r | ImportsPkg(src, root, q) && ImportsPkg(src, root, r)
          ensures !ImportsPkg(src, q, r)
        {
          SameLevel(src, levels, q, r);
        }
      }
    }
  }

  // Packages of one level do not import each other.
  lemma SameLevel(src: Sources, levels: map<Pkg, nat>, q: Pkg, r: Pkg)
    requires q in levels && r in levels && levels[q] == levels[r] && Checked(src, levels, q)
    ensures !ImportsPkg(src, q, r)
  {
  }

  /** What a successful collection guarantees. */
  ghost predicate Accepted(src: Sources, root: Pkg, levels: map<Pkg, nat>) {
    && (forall q :: ImportsPkg(src, root, q) ==> q in levels)
    && (forall p :: p in levels ==> Checked(src, levels, p))
  }

  // ----- the import graph -----

  /** A chain of imports. */
  ghost predicate Path(src: Sources, ps: seq<Pkg>) {
    forall i :: 0 <= i < |ps| - 1 ==> ImportsPkg(src, ps[i], ps[i + 1])
  }

  // Levels grow along a chain that starts at a registered package.
  lemma {:induction false} LevelsGrow(src: Sources, root: Pkg, levels: map<Pkg, nat>, ps: seq<Pkg>)
    requires Accepted(src, root, levels) && Path(src, ps) && |ps| >= 1 && ps[0] in levels
    ensures forall i :: 0 <= i < |ps| ==> ps[i] in levels && levels[ps[i]] >= levels[ps[0]] + i
  {
    if |ps| > 1 {
      var n := |ps| - 1;
      assert Path(src, ps[..n]) by {
        forall i | 0 <= i < n - 1
          ensures ImportsPkg(src, ps[..n][i], ps[..n][i + 1])
        {
          assert ImportsPkg(src, ps[i], ps[i + 1]);
        }
      }
      LevelsGrow(src, root, levels, ps[..n]);
      assert ps[..n][n - 1] == ps[n - 1];
      assert ImportsPkg(src, ps[n - 1], ps[n - 1 + 1]);
      assert Checked(src, levels, ps[n - 1]);
    }
  }

  /** The import graph of an accepted program has no cycle, whether through the root or not. */
  lemma NoCycle(src: Sources, root: Pkg, levels: map<Pkg, nat>, ps: seq<Pkg>)
    requires Accepted(src, root, levels) && Path(src, ps) && |ps| >= 2 && ps[0] == ps[|ps| - 1]
    ensures ps[0] !in levels && ps[0] != root
  {
    if ps[0] in levels {
      LevelsGrow(src, root, levels, ps);
    } else if ps[0] == root {
      var qs := ps[1..];
      assert ImportsPkg(src, ps[0], ps[0 + 1]);
      forall i | 0 <= i < |qs| - 1
        ensures ImportsPkg(src, qs[i], qs[i + 1])
      {
        assert ImportsPkg(src, ps[i + 1], ps[i + 1 + 1]);
      }
      assert qs[|qs| - 1] == root;
      LevelsGrow(src, root, levels, qs);
    }
  }

  // ----- which programs are accepted -----

  /** All imports of a package stand exactly one level above it. */
  ghost predicate Grading(src: Sources, g: map<Pkg, nat>) {
    forall p :: p in g ==> p in src && forall q :: ImportsPkg(src, p, q) ==> q in g && g[q] == g[p] + 1
  }

  ghost predicate HasGrading(src: Sources, root: Pkg) {
    exists g: map<Pkg, nat> :: Grading(src, g) && root in g && g[root] == 0
  }

  /** A chain of imports from the root to a package that does not exist, or to one that a longer chain also reaches. */
  ghost predicate Misfit(src: Sources, root: Pkg, first: seq<Pkg>) {
    var ps := [root] + first;
    Path(src, ps) && (ps[|first|] !in src || exists qs :: Longer(src, ps, qs))
  }

  /** Another chain with the same ends. */
  ghost predicate Longer(src: Sources, ps: seq<Pkg>, qs: seq<Pkg>)
    requires |ps| >= 1
  {
    Path(src, qs) && |qs| > |ps| && qs[0] == ps[0] && qs[|qs| - 1] == ps[|ps| - 1]
  }

  ghost predicate AtMost(levels: map<Pkg, nat>, level: nat) {
    forall p :: p in levels ==> levels[p] <= level
  }

  /** The packages of a chain are registered at most one level further each. */
  ghost predicate InStep(levels: map<Pkg, nat>, first: seq<Pkg>, level: nat) {
    forall i :: 0 <= i < |first| ==> first[i] in levels && levels[first[i]] <= level + 1 + i
  }

  ghost predicate Agrees(levels: map<Pkg, nat>, g: map<Pkg, nat>) {
    forall p :: p in levels ==> p in g && g[p] == levels[p]
  }

  /** A call for pkg at this level can follow the grading. */
  ghost predicate Graded(src: Sources, levels: map<Pkg, nat>, g: map<Pkg, nat>, pkg: Pkg, level: nat) {
    Grading(src, g) && Agrees(levels, g) && pkg in g && (g[pkg] == level || (pkg in levels && g[pkg] > level))
  }

  lemma FilesGraded(src: Sources, levels: map<Pkg, nat>, levels': map<Pkg, nat>, g: map<Pkg, nat>, pkg: Pkg, level: nat)
    requires Graded(src, levels, g, pkg, level) && CheckedAbove(src, levels, level) && Keeps(levels, levels')
    requires forall p :: p in levels' && p !in levels ==> ImportsPkg(src, pkg, p) && levels'[p] == level + 1
    ensures forall q :: ImportsPkg(src, pkg, q) ==> CanAdd(src, levels, q, level + 1)
    ensures Grading(src, g) && Agrees(levels', g)
  {
    hide ImportsPkg;
    if g[pkg] > level {
      assert Checked(src, levels, pkg);
    }
  }

  lemma StillGraded(src: Sources, now: map<Pkg, nat>, g: map<Pkg, nat>, p: Pkg, level: nat)
    requires Grading(src, g) && Agrees(now, g) && p in now && now[p] > level
    ensures Graded(src, now, g, p, level + 1)
  {
    hide Grading;
  }

  lemma NoSteps(levels: map<Pkg, nat>, level: nat)
    ensures InStep(levels, [], level)
  {
  }

  lemma OnePackage(src: Sources, p: Pkg)
    ensures Path(src, [p] + [])
  {
  }

  // The first package of the chain is an import, registered just above.
  lemma FirstStep(src: Sources, levels: map<Pkg, nat>, levels': map<Pkg, nat>, pkg: Pkg, first: seq<Pkg>, level: nat)
    requires first != [] && Path(src, [pkg] + first) && AtMost(levels, level) && Keeps(levels, levels')
    requires forall p :: p in levels' && p !in levels ==> levels'[p] == level + 1
    requires forall q :: ImportsPkg(src, pkg, q) ==> q in levels' && levels'[q] > level
    ensures first[0] in levels' && levels'[first[0]] == level + 1
    ensures Path(src, [first[0]] + first[1..]) && AtMost(levels', level + 1)
  {
    hide ImportsPkg;
    var ps := [pkg] + first;
    assert ImportsPkg(src, ps[0], ps[0 + 1]);
    assert [first[0]] + first[1..] == first;
    forall i | 0 <= i < |first| - 1
      ensures ImportsPkg(src, first[i], first[i + 1])
    {
      assert ImportsPkg(src, ps[i + 1], ps[i + 1 + 1]);
    }
  }

  lemma MoreSteps(now: map<Pkg, nat>, levels: map<Pkg, nat>, first: seq<Pkg>, level: nat)
    requires first != [] && first[0] in now && now[first[0]] == level + 1 && Keeps(now, levels)
    requires InStep(levels, first[1..], level + 1)
    ensures InStep(levels, first, level)
  {
    forall i | 0 <= i < |first|
      ensures first[i] in levels && levels[first[i]] <= level + 1 + i
    {
      assert i > 0 ==> first[i] == first[1..][i - 1];
    }
  }

  lemma StepsKept(now: map<Pkg, nat>, levels: map<Pkg, nat>, first: seq<Pkg>, level: nat)
    requires InStep(now, first, level) && Keeps(now, levels)
    ensures InStep(levels, first, level)
  {
  }

  // In an accepted program a chain from the root lifts its end as far as it is long.
  lemma ChainLifts(src: Sources, root: Pkg, levels: map<Pkg, nat>, ps: seq<Pkg>)
    requires Accepted(src, root, levels) && Path(src, ps) && |ps| >= 2 && ps[0] == root
    requires forall p :: p in levels ==> levels[p] >= 1
    ensures ps[|ps| - 1] in levels && levels[ps[|ps| - 1]] >= |ps| - 1
  {
    hide ImportsPkg;
    var qs := ps[1..];
    assert ImportsPkg(src, ps[0], ps[0 + 1]);
    forall i | 0 <= i < |qs| - 1
      ensures ImportsPkg(src, qs[i], qs[i + 1])
    {
      assert ImportsPkg(src, ps[i + 1], ps[i + 1 + 1]);
    }
    LevelsGrow(src, root, levels, qs);
  }

  lemma MisfitRejected(src: Sources, root: Pkg, levels: map<Pkg, nat>, first: seq<Pkg>)
    requires Accepted(src, root, levels) && InStep(levels, first, 0)
    requires root in src && levels.Keys <= src.Keys && forall p :: p in levels ==> levels[p] >= 1
    ensures !Misfit(src, root, first)
  {
    hide ImportsPkg, Accepted, Path;
    var ps := [root] + first;
    assert first != [] ==> ps[|first|] == first[|first| - 1];
    forall qs | |qs| >= 2 && Path(src, qs) && qs[0] == root
      ensures qs[|qs| - 1] in levels && levels[qs[|qs| - 1]] >= |qs| - 1 && qs[|qs| - 1] != root
    {
      ChainLifts(src, root, levels, qs);
      if qs[|qs| - 1] == root {
        NoCycle(src, root, levels, qs);
      }
    }
  }

  // Along a chain from the root a grading counts the steps.
  lemma {:induction false} GradeOf(src: Sources, root: Pkg, g: map<Pkg, nat>, ps: seq<Pkg>)
    requires Grading(src, g) && root in g && g[root] == 0 && Path(src, ps) && |ps| >= 1 && ps[0] == root
    ensures ps[|ps| - 1] in g && g[ps[|ps| - 1]] == |ps| - 1
  {
    hide ImportsPkg;
    if |ps| > 1 {
      var n := |ps| - 1;
      Shorter(src, ps);
      GradeOf(src, root, g, ps[..n]);
      assert ps[..n][n - 1] == ps[n - 1];
      assert ImportsPkg(src, ps[n - 1], ps[n - 1 + 1]);
    }
  }

  lemma Shorter(src: Sources, ps: seq<Pkg>)
    requires Path(src, ps) && |ps| >= 1
    ensures Path(src, ps[..|ps| - 1])
  {
    hide ImportsPkg;
    var n := |ps| - 1;
    forall i | 0 <= i < n - 1
      ensures ImportsPkg(src, ps[..n][i], ps[..n][i + 1])
    {
      assert ImportsPkg(src, ps[i], ps[i + 1]);
    }
  }

  ghost predicate Chain(src: Sources, root: Pkg, p: Pkg, ps: seq<Pkg>) {
    Path(src, ps) && |ps| >= 1 && ps[0] == root && ps[|ps| - 1] == p
  }

  ghost predicate Reached(src: Sources, root: Pkg, p: Pkg) {
    exists ps :: Chain(src, root, p, ps)
  }

  ghost function ChainTo(src: Sources, root: Pkg, p: Pkg): (ps: seq<Pkg>)
    requires Reached(src, root, p)
    ensures Chain(src, root, p, ps)
  {
    var ps :| Chain(src, root, p, ps);
    ps
  }

  ghost function Steps(src: Sources, root: Pkg, p: Pkg): nat
    requires Reached(src, root, p)
  {
    |ChainTo(src, root, p)| - 1
  }

  lemma OneMore(src: Sources, root: Pkg, p: Pkg, ps: seq<Pkg>, q: Pkg)
    requires Chain(src, root, p, ps) && ImportsPkg(src, p, q)
    ensures Chain(src, root, q, ps + [q])
  {
    hide ImportsPkg;
    var qs := ps + [q];
    forall i | 0 <= i < |qs| - 1
      ensures ImportsPkg(src, qs[i], qs[i + 1])
    {
      if i < |ps| - 1 {
        assert ImportsPkg(src, ps[i], ps[i + 1]);
      }
    }
  }

  // Without a misfit all chains to a package have one length, and lead to packages that exist.
  lemma OneLength(src: Sources, root: Pkg, p: Pkg, ps: seq<Pkg>, qs: seq<Pkg>)
    requires Chain(src, root, p, ps) && Chain(src, root, p, qs) && forall first :: !Misfit(src, root, first)
    ensures |ps| == |qs| && p in src
  {
    hide Path;
    assert ps == [root] + ps[1..] && qs == [root] + qs[1..];
    assert Longer(src, ps, qs) <==> |qs| > |ps|;
    assert Longer(src, qs, ps) <==> |ps| > |qs|;
    assert !Misfit(src, root, ps[1..]) && !Misfit(src, root, qs[1..]);
  }

  lemma NoMisfit(src: Sources, root: Pkg)
    requires root in src && forall first :: !Misfit(src, root, first)
    ensures HasGrading(src, root)
  {
    hide ImportsPkg, Misfit, Chain;
    var g: map<Pkg, nat> := map p | p in src && Reached(src, root, p) :: Steps(src, root, p);
    forall p, q | p in g && ImportsPkg(src, p, q)
      ensures q in g && g[q] == g[p] + 1
    {
      var ps := ChainTo(src, root, p);
      OneMore(src, root, p, ps, q);
      OneLength(src, root, q, ps + [q], ChainTo(src, root, q));
    }
    assert Chain(src, root, root, [root]) by { OnlyRoot(src, root); }
    OneLength(src, root, root, [root], ChainTo(src, root, root));
    assert Grading(src, g) && root in g && g[root] == 0;
  }

  lemma OnlyRoot(src: Sources, root: Pkg)
    ensures Chain(src, root, root, [root])
  {
  }

  /**
   A program has a grading if and only if it has no misfit. So CollectProgram accepts it in every order if it has a
   grading, and otherwise rejects it in some order: one that follows the misfit first.
   */
  lemma GradingOrMisfit(src: Sources, root: Pkg)
    requires root in src
    ensures HasGrading(src, root) <==> !exists first :: Misfit(src, root, first)
  {
    hide ImportsPkg;
    if HasGrading(src, root) {
      var g :| Grading(src, g) && root in g && g[root] == 0;
      forall first
        ensures !Misfit(src, root, first)
      {
        var ps := [root] + first;
        if Misfit(src, root, first) {
          GradeOf(src, root, g, ps);
          assert ps[|first|] == ps[|ps| - 1];
          var qs :| Longer(src, ps, qs);
          GradeOf(src, root, g, qs);
        }
      }
    } else if forall first :: !Misfit(src, root, first) {
      NoMisfit(src, root);
    }
  }

  lemma Imported(src: Sources, p: Pkg, i: nat, j: nat)
    requires p in src && i < |src[p]| && j < |src[p][i]|
    ensures ImportsPkg(src, p, src[p][i][j])
  {
  }

  // The root imports a package and also an import of that package: rejected in every order, although there is no cycle.
  method Shortcut() returns (ok: bool)
    ensures !ok
  {
    var src: Sources := map["r" := [["a", "b"]], "a" := [["b"]], "b" := []];
    Imported(src, "r", 0, 0);
    Imported(src, "r", 0, 1);
    Imported(src, "a", 0, 0);
    var c := new Collector(src);
    ok := c.CollectProgram("r", []);
  }

  // Two chains of different lengths to d: rejected when the shorter one is followed first.
  method TwoChains() returns (ok: bool)
    ensures !ok
  {
    var src: Sources := map["r" := [["a", "b"]], "a" := [["c"]], "b" := [["d"]], "c" := [["d"]], "d" := []];
    Imported(src, "r", 0, 0);
    Imported(src, "r", 0, 1);
    Imported(src, "a", 0, 0);
    Imported(src, "b", 0, 0);
    Imported(src, "c", 0, 0);
    hide ImportsPkg;
    assert Longer(src, ["r"] + ["b", "d"], ["r", "a", "c", "d"]);
    var c := new Collector(src);
    ok := c.CollectProgram("r", ["b", "d"]);
  }

  // After the call for p at the next level, r is checked: as before, as p itself, or as registered above.
  lemma StaysChecked(src: Sources, now: map<Pkg, nat>, levels: map<Pkg, nat>, p: Pkg, level: nat, r: Pkg)
    requires Keeps(now, levels) && CheckedAbove(src, levels, level + 1)
    requires r in levels && levels[r] > level && (r in now && r != p ==> Checked(src, now, r))
    requires r !in now ==> levels[r] > level + 1
    requires forall q :: ImportsPkg(src, p, q) ==> q in levels && levels[q] > level + 1
    ensures Checked(src, levels, r)
  {
    if r in now && r != p {
      CheckedKept(src, now, levels, r);
    }
  }

  lemma FilledLess(levels: map<Pkg, nat>, level: nat)
    requires Filled(levels, level + 1)
    ensures Filled(levels, level)
  {
  }

  lemma LevelInRange(levels: map<Pkg, nat>, p: Pkg, level: nat)
    requires Closed(levels) && p in levels && levels[p] >= level
    ensures Filled(levels, level)
  {
    assert Filled(levels, levels[p]);
  }

  lemma FilledMore(levels: map<Pkg, nat>, name: Pkg, level: nat)
    requires Closed(levels) && level >= 1 && Filled(levels, level - 1) && name !in levels
    ensures Closed(levels[name := level]) && Filled(levels[name := level], level)
  {
    var m := levels[name := level];
    assert name in m && m[name] == level;
    assert InUse(m, level);
    forall l: nat | InUse(levels, l)
      ensures InUse(m, l)
    {
      var q :| q in levels && levels[q] == l;
      assert q in m && m[q] == l;
    }
  }
}
