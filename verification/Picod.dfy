/** PicoD's workspace: sanitizePath accepts exactly the paths whose normal form stays inside and whose
    target, if there is one, does; and mkdirSafe creates directories nowhere else, whatever symbolic
    links there are. */
module Picod {
  import opened Sandboxes
  import opened Paths
  import opened FileSystem

  // The components of a physical location are those of a clean absolute path.
  lemma PhysicalIsClean(p: Comps)
    ensures Physical(p) <==> Normal(true, p) && forall i :: 0 <= i < |p| ==> Plain(p[i])
  {
  }

  lemma EvalIsPhysical(fs: Tree, p: Comps)
    requires WellFormed(fs) && EvalSymlinks(fs, p).Some?
    ensures Physical(EvalSymlinks(fs, p).value)
    ensures EvalSymlinks(fs, p).value in fs && !fs[EvalSymlinks(fs, p).value].Link?
  {
    WalkEnds(fs, [], p, EVAL_SYMLINKS_LIMIT);
  }

  // The workspace as the checks compare against it. Abs and Clean leave the stored path alone.
  function ResolvedWorkspace(fs: Tree, workspace: Comps): Comps {
    match EvalSymlinks(fs, workspace)
    case Some(w) => w
    case None => workspace
  }

  lemma WorkspaceIsPhysical(fs: Tree, workspace: Comps)
    requires WellFormed(fs) && Physical(workspace)
    ensures Physical(ResolvedWorkspace(fs, workspace))
  {
    if EvalSymlinks(fs, workspace).Some? { EvalIsPhysical(fs, workspace); }
  }

  // ---- sanitizePath ----

  datatype Sanitized = Safe(path: Comps) | NoWorkspace | Traversal | SymlinkEscape

  function SanitizePath(fs: Tree, workspace: Option<Comps>, p: string): Sanitized {
    if workspace.None? then NoWorkspace
    else
      var ws := Clean(true, ResolvedWorkspace(fs, workspace.value));
      // An absolute path is taken relative to the workspace root.
      var cleanPath := Clean(IsAbs(p), Split(p));
      var candidate := Clean(true, Clean(true, ws + cleanPath));
      if Escapes(Rel(ws, candidate)) then Traversal
      else match EvalSymlinks(fs, candidate)
        case Some(final) => if Escapes(Rel(ws, final)) then SymlinkEscape else Safe(final)
        case None => Safe(candidate)
  }

  // The normal form of workspace/path: a relative path may climb, an absolute one is clamped at its root.
  function Intended(ws: Comps, p: string): Comps {
    if IsAbs(p) then ws + Clean(true, Split(p)) else Clean(true, ws + Split(p))
  }

  lemma {:induction false} AbsoluteIsIntended(ws: Comps, cs: Comps)
    requires Physical(ws) && forall i :: 0 <= i < |cs| ==> Plain(cs[i])
    ensures Clean(true, ws + Clean(true, cs)) == ws + Clean(true, cs)
    ensures Physical(ws + Clean(true, cs))
  {
    PhysicalIsClean(ws);
    CleanIdempotent(true, cs);
    FoldPlain(true, [], cs);
    PhysicalIsClean(Clean(true, cs));
    var all := ws + Clean(true, cs);
    PhysicalIsClean(all);
    assert [] + all == all;
    CleanFixesNormal(true, [], all);
  }

  lemma {:induction false} RelativeIsIntended(ws: Comps, cs: Comps)
    requires Physical(ws) && forall i :: 0 <= i < |cs| ==> Plain(cs[i])
    ensures Clean(true, ws + Clean(false, cs)) == Clean(true, ws + cs)
    ensures Physical(Clean(true, ws + cs))
  {
    PhysicalIsClean(ws);
    JoinCleaned(ws, cs);
    CleanIdempotent(true, ws + cs);
    FoldPlain(true, [], ws + cs);
    PhysicalIsClean(Clean(true, ws + cs));
  }

  lemma {:induction false} CandidateIsIntended(ws: Comps, p: string)
    requires Physical(ws)
    ensures Clean(true, ws) == ws
    ensures Clean(true, Clean(true, ws + Clean(IsAbs(p), Split(p)))) == Intended(ws, p)
    ensures Physical(Intended(ws, p))
    ensures IsAbs(p) ==> ws <= Intended(ws, p)
  {
    PhysicalIsClean(ws);
    assert [] + ws == ws;
    CleanFixesNormal(true, [], ws);
    CleanIdempotent(true, ws + Clean(IsAbs(p), Split(p)));
    if IsAbs(p) { AbsoluteIsIntended(ws, Split(p)); } else { RelativeIsIntended(ws, Split(p)); }
  }

  // Accepted exactly if the normal form has the resolved workspace as a component prefix and the
  // target, if it exists, resolves inside it. What is returned has the workspace as a component prefix
  // either way; where a path that does not exist yet would be created is another matter, see below.
  lemma {:induction false} SanitizeIff(fs: Tree, workspace: Comps, p: string)
    requires WellFormed(fs) && Physical(workspace)
    ensures var ws := ResolvedWorkspace(fs, workspace);
            var full := Intended(ws, p);
            var r := SanitizePath(fs, Some(workspace), p);
            && (r.Safe? <==> ws <= full && (EvalSymlinks(fs, full).Some? ==> ws <= EvalSymlinks(fs, full).value))
            && (r.Traversal? <==> !(ws <= full))
            && (r.Safe? ==> ws <= r.path && Physical(r.path) &&
                            r.path == (if EvalSymlinks(fs, full).Some? then EvalSymlinks(fs, full).value else full))
            && (IsAbs(p) ==> !r.Traversal?)
  {
    var ws := ResolvedWorkspace(fs, workspace);
    WorkspaceIsPhysical(fs, workspace);
    CandidateIsIntended(ws, p);
    var full := Intended(ws, p);
    PhysicalIsClean(ws);
    PhysicalIsClean(full);
    EscapesIffOutside(ws, full);
    if EvalSymlinks(fs, full).Some? {
      EvalIsPhysical(fs, full);
      PhysicalIsClean(EvalSymlinks(fs, full).value);
      EscapesIffOutside(ws, EvalSymlinks(fs, full).value);
    }
  }

  // ---- mkdirSafe ----

  // The longest prefix of dir that Lstat finds.
  function Deepest(fs: Tree, dir: Comps, limit: nat): Comps {
    if dir == [] || Lstat(fs, dir, limit).Some? then dir else Deepest(fs, dir[..|dir| - 1], limit)
  }

  lemma {:induction false} DeepestSpec(fs: Tree, dir: Comps, limit: nat)
    requires WellFormed(fs)
    ensures Deepest(fs, dir, limit) <= dir
    ensures Lstat(fs, Deepest(fs, dir, limit), limit).Some?
    ensures MissingFrom(fs, dir, |Deepest(fs, dir, limit)|, limit)
  {
    if dir != [] && Lstat(fs, dir, limit).None? {
      var up := dir[..|dir| - 1];
      DeepestSpec(fs, up, limit);
      forall n | |Deepest(fs, dir, limit)| < n <= |dir| ensures MissingAt(fs, dir, n, limit) {
        if n < |dir| { assert MissingAt(fs, up, n, limit) && dir[..n] == up[..n]; } else { assert dir[..n] == dir; }
      }
    }
  }

  // The tree with a chain of new directories below a location.
  function Grown(fs: Tree, base: Comps, names: Comps): Tree
    decreases names
  {
    if names == [] then fs else Grown(fs[base + [names[0]] := Dir], base + [names[0]], names[1..])
  }

  lemma {:induction false} GrownNew(fs: Tree, base: Comps, names: Comps)
    ensures forall q :: q in Grown(fs, base, names) && q !in fs ==>
              base <= q && |q| <= |base| + |names| && Grown(fs, base, names)[q].Dir?
    ensures forall q :: q in fs ==>
              q in Grown(fs, base, names) && (Grown(fs, base, names)[q] == fs[q] || Grown(fs, base, names)[q].Dir?)
    decreases names
  {
    if names != [] {
      var q := base + [names[0]];
      var fs1 := fs[q := Dir];
      GrownNew(fs1, q, names[1..]);
      assert forall p :: p in fs ==> p in fs1;
      assert q in fs1;
    }
  }

  // A location that is not there has nothing below it.
  lemma ChildAbsent(fs: Tree, p: Comps, c: string)
    requires WellFormed(fs) && p !in fs
    ensures p + [c] !in fs
  {
    assert (p + [c])[..|p + [c]| - 1] == p;
    assert p + [c] in fs ==> HasParent(fs, p + [c]);
  }

  lemma {:induction false} GrownSpec(fs: Tree, base: Comps, names: Comps)
    requires WellFormed(fs) && IsDir(fs, base) && Physical(names)
    requires names != [] ==> base + [names[0]] !in fs
    ensures WellFormed(Grown(fs, base, names)) && Extends(fs, Grown(fs, base, names))
    ensures IsDir(Grown(fs, base, names), base + names)
    decreases names
  {
    if names == [] {
      assert base + names == base;
    } else {
      var q := base + [names[0]];
      var fs1 := fs[q := Dir];
      AddDir(fs, base, names[0]);
      if |names| > 1 {
        ChildAbsent(fs, q, names[1]);
        assert |q + [names[1]]| == |q| + 1 && names[1..][0] == names[1];
      }
      GrownSpec(fs1, q, names[1..]);
      assert q + names[1..] == base + names;
    }
  }

  lemma {:induction false} GrownSnoc(fs: Tree, base: Comps, front: Comps, c: string)
    ensures Grown(fs, base, front + [c]) == Grown(fs, base, front)[base + front + [c] := Dir]
    decreases front
  {
    if front == [] {
      assert front + [c] == [c] && base + front + [c] == base + [c];
      assert [c][1..] == [];
    } else {
      var q := base + [front[0]];
      assert (front + [c])[0] == front[0] && (front + [c])[1..] == front[1..] + [c];
      GrownSnoc(fs[q := Dir], q, front[1..], c);
      assert q + front[1..] + [c] == base + front + [c];
    }
  }

  // Where mkdirSafe may go ahead: the deepest existing ancestor is a directory for the kernel.
  predicate Ready(fs: Tree, dir: Comps, limit: nat) { Stat(fs, Deepest(fs, dir, limit), limit) == Some(Dir) }

  // An existing path the kernel cannot follow ends in a link.
  lemma {:induction false} UnfollowedIsLink(fs: Tree, e: Comps, limit: nat)
    requires WellFormed(fs) && Physical(e) && Lstat(fs, e, limit).Some? && Stat(fs, e, limit).None?
    ensures e != [] && Lstat(fs, e, limit).value.Link? && Stat(fs, e[..|e| - 1], limit) == Some(Dir)
  {
    assert e != [];
    var up, c := e[..|e| - 1], e[|e| - 1];
    assert e == up + [c];
    var r := Walk(fs, [], up, limit).value;
    WalkEnds(fs, [], up, limit);
    assert (r.at + [c])[..|r.at + [c]| - 1] == r.at;
    assert HasParent(fs, r.at + [c]);
    WalkSplit(fs, [], up, [c], limit);
    if !fs[r.at + [c]].Link? { LastStep(fs, r.at, c, r.left); }
  }

  lemma {:induction false} LastStep(fs: Tree, d: Comps, c: string, links: nat)
    requires Ordinary(c) && d + [c] in fs && !fs[d + [c]].Link?
    ensures Walk(fs, d, [c], links) == Some(Reached(d + [c], links))
  {
    assert [c][1..] == [];
  }

  // MkdirAll on the existing part: it succeeds exactly on directories and changes nothing.
  lemma {:induction false} MkdirAllExisting(fs: Tree, e: Comps, limit: nat)
    requires WellFormed(fs) && Physical(e) && Lstat(fs, e, limit).Some?
    ensures MkdirAll(fs, e, limit) == (fs, Stat(fs, e, limit) == Some(Dir))
  {
    if Stat(fs, e, limit).None? {
      UnfollowedIsLink(fs, e, limit);
      assert MkdirAll(fs, e[..|e| - 1], limit) == (fs, true);
      assert Mkdir(fs, e, limit).None?;
    }
  }

  // One level of MkdirAll on a path that is not there; the root always is.
  lemma {:induction false} MkdirAllStep(fs: Tree, p: Comps, limit: nat)
    requires WellFormed(fs) && Physical(p) && p != [] && Lstat(fs, p, limit).None?
    ensures var (fs1, ok) := MkdirAll(fs, p[..|p| - 1], limit);
            MkdirAll(fs, p, limit) ==
              if !ok then (fs1, false)
              else match Mkdir(fs1, p, limit)
                case Some(fs2) => (fs2, true)
                case None => (fs1, Lstat(fs1, p, limit) == Some(Dir))
  {
    if Walk(fs, [], p, limit).Some? {
      StatImpliesLstat(fs, p, limit);
      assert false;
    }
    if |p| == 1 { assert p[..0] == []; }
  }

  predicate MissingAt(fs: Tree, p: Comps, k: nat, limit: nat)
    requires k <= |p|
  {
    Lstat(fs, p[..k], limit).None?
  }

  ghost predicate MissingFrom(fs: Tree, p: Comps, n: nat, limit: nat) {
    forall k :: n < k <= |p| ==> MissingAt(fs, p, k, limit)
  }

  lemma MissingUp(fs: Tree, p: Comps, n: nat, limit: nat)
    requires MissingFrom(fs, p, n, limit) && n < |p|
    ensures Lstat(fs, p, limit).None? && MissingFrom(fs, p[..|p| - 1], n, limit)
  {
    assert MissingAt(fs, p, |p|, limit) && p[..|p|] == p;
    var up := p[..|p| - 1];
    forall k | n < k <= |up| ensures MissingAt(fs, up, k, limit) {
      assert MissingAt(fs, p, k, limit) && up[..k] == p[..k];
    }
  }

  // If the existing part is not a directory for the kernel, MkdirAll fails and changes nothing.
  lemma {:induction false} MkdirAllBlocked(fs: Tree, p: Comps, n: nat, limit: nat)
    requires WellFormed(fs) && Physical(p) && n <= |p| && MissingFrom(fs, p, n, limit)
    requires Lstat(fs, p[..n], limit).Some? && Stat(fs, p[..n], limit) != Some(Dir)
    ensures MkdirAll(fs, p, limit) == (fs, false)
    decreases |p|
  {
    if n == |p| {
      assert p[..n] == p;
      MkdirAllExisting(fs, p, limit);
    } else {
      MissingUp(fs, p, n, limit);
      assert p[..|p| - 1][..n] == p[..n];
      MkdirAllBlocked(fs, p[..|p| - 1], n, limit);
      MkdirAllStep(fs, p, limit);
    }
  }

  // Otherwise it creates exactly the missing directories, below where the existing part resolves to.
  ghost predicate GrowsTo(fs: Tree, p: Comps, n: nat, r: Reached, limit: nat)
    requires n <= |p|
  {
    var fs' := Grown(fs, r.at, p[n..]);
    && MkdirAll(fs, p, limit) == (fs', true)
    && Walk(fs', [], p, limit) == Some(Reached(r.at + p[n..], r.left))
  }

  lemma NextMissing(fs: Tree, p: Comps, n: nat, r: Reached, limit: nat)
    requires n < |p| && MissingFrom(fs, p, n, limit) && Walk(fs, [], p[..n], limit) == Some(r)
    ensures r.at + [p[n]] !in fs
  {
    var q := p[..n + 1];
    assert q[..|q| - 1] == p[..n] && q[|q| - 1] == p[n];
    assert MissingAt(fs, p, n + 1, limit);
  }

  lemma {:induction false} MkdirAllGrows(fs: Tree, p: Comps, n: nat, r: Reached, limit: nat)
    requires WellFormed(fs) && Physical(p) && n <= |p| && MissingFrom(fs, p, n, limit)
    requires Walk(fs, [], p[..n], limit) == Some(r) && IsDir(fs, r.at)
    ensures GrowsTo(fs, p, n, r, limit)
    decreases |p|
  {
    if n == |p| {
      GrowsNone(fs, p, r, limit);
    } else {
      MissingUp(fs, p, n, limit);
      assert p[..|p| - 1][..n] == p[..n];
      MkdirAllGrows(fs, p[..|p| - 1], n, r, limit);
      GrowsStep(fs, p, n, r, limit);
    }
  }

  lemma {:induction false} GrowsStep(fs: Tree, p: Comps, n: nat, r: Reached, limit: nat)
    requires WellFormed(fs) && Physical(p) && n < |p| && MissingFrom(fs, p, n, limit)
    requires Walk(fs, [], p[..n], limit) == Some(r) && IsDir(fs, r.at)
    requires GrowsTo(fs, p[..|p| - 1], n, r, limit)
    ensures GrowsTo(fs, p, n, r, limit)
  {
    MissingUp(fs, p, n, limit);
    NextMissing(fs, p, n, r, limit);
    LastGrows(fs, p, n, r, limit);
    MkdirAllStep(fs, p, limit);
  }

  lemma GrowsNone(fs: Tree, p: Comps, r: Reached, limit: nat)
    requires Walk(fs, [], p[..|p|], limit) == Some(r) && IsDir(fs, r.at)
    ensures GrowsTo(fs, p, |p|, r, limit)
  {
    assert p[..|p|] == p && p[|p|..] == [] && r.at + [] == r.at;
  }

  // One more directory at the end of the chain: Mkdir makes it, and the path then leads there.
  lemma {:induction false} LastGrows(fs: Tree, p: Comps, n: nat, r: Reached, limit: nat)
    requires WellFormed(fs) && Physical(p) && n < |p| && IsDir(fs, r.at) && r.at + [p[n]] !in fs
    requires var up := p[..|p| - 1];
             Walk(Grown(fs, r.at, up[n..]), [], up, limit) == Some(Reached(r.at + up[n..], r.left))
    ensures var up, g' := p[..|p| - 1], Grown(fs, r.at, p[n..]);
            && Mkdir(Grown(fs, r.at, up[n..]), p, limit) == Some(g')
            && Walk(g', [], p, limit) == Some(Reached(r.at + p[n..], r.left))
  {
    var up, c := p[..|p| - 1], p[|p| - 1];
    ChainLast(fs, r.at, p, n);
    var g, g' := Grown(fs, r.at, up[n..]), Grown(fs, r.at, p[n..]);
    MkdirNew(g, p, Reached(r.at + up[n..], r.left), limit);
    GrownWalk(g, g', p, Reached(r.at + up[n..], r.left), limit);
  }

  // The tree before and after the last directory.
  lemma {:induction false} ChainLast(fs: Tree, at: Comps, p: Comps, n: nat)
    requires WellFormed(fs) && Physical(p) && n < |p| && IsDir(fs, at) && at + [p[n]] !in fs
    ensures var up, c := p[..|p| - 1], p[|p| - 1];
            var g, g' := Grown(fs, at, up[n..]), Grown(fs, at, p[n..]);
            && g' == g[(at + up[n..]) + [c] := Dir]
            && WellFormed(g') && Extends(g, g')
            && IsDir(g, at + up[n..]) && IsDir(g', at + up[n..])
            && (at + up[n..]) + [c] !in g
            && at + p[n..] == (at + up[n..]) + [c]
  {
    var front, c := p[..|p| - 1][n..], p[|p| - 1];
    assert p[n..] == front + [c];
    SuffixPhysical(p, n);
    GrownLast(fs, at, front, c);
  }

  lemma SuffixPhysical(p: Comps, n: nat)
    requires Physical(p) && n <= |p|
    ensures Physical(p[n..])
  {
    forall i | 0 <= i < |p[n..]| ensures Component(p[n..][i]) { assert p[n..][i] == p[n + i]; }
  }

  lemma {:induction false} GrownLast(fs: Tree, at: Comps, front: Comps, c: string)
    requires WellFormed(fs) && IsDir(fs, at) && Physical(front + [c])
    requires at + [(front + [c])[0]] !in fs
    ensures var g, g' := Grown(fs, at, front), Grown(fs, at, front + [c]);
            && g' == g[(at + front) + [c] := Dir]
            && WellFormed(g') && Extends(g, g')
            && IsDir(g, at + front) && IsDir(g', at + front)
            && (at + front) + [c] !in g
  {
    assert Physical(front) && Component(c) by { PhysicalSnoc(front, c); }
    GrownSpec(fs, at, front);
    GrownSnoc(fs, at, front, c);
    NewAbsent(fs, at, front, c);
    AddDir(Grown(fs, at, front), at + front, c);
  }

  lemma PhysicalSnoc(front: Comps, c: string)
    requires Physical(front + [c])
    ensures Physical(front) && Component(c)
  {
    var p := front + [c];
    assert p[|front|] == c;
    forall i | 0 <= i < |front| ensures Component(front[i]) { assert front[i] == p[i]; }
  }

  lemma {:induction false} NewAbsent(fs: Tree, at: Comps, front: Comps, c: string)
    requires WellFormed(fs) && at + [(front + [c])[0]] !in fs
    ensures (at + front) + [c] !in Grown(fs, at, front)
  {
    GrownNew(fs, at, front);
    var q := (at + front) + [c];
    assert q[..|at| + 1] == at + [(front + [c])[0]];
    AncestorExists(fs, q, |at| + 1);
  }

  lemma {:induction false} MkdirNew(g: Tree, p: Comps, r: Reached, limit: nat)
    requires p != [] && Walk(g, [], p[..|p| - 1], limit) == Some(r)
    requires IsDir(g, r.at) && r.at + [p[|p| - 1]] !in g
    ensures Mkdir(g, p, limit) == Some(g[r.at + [p[|p| - 1]] := Dir])
  {
  }

  lemma {:induction false} GrownWalk(g: Tree, g': Tree, p: Comps, r: Reached, limit: nat)
    requires WellFormed(g') && Extends(g, g') && p != [] && Ordinary(p[|p| - 1])
    requires Walk(g, [], p[..|p| - 1], limit) == Some(r) && IsDir(g', r.at) && IsDir(g', r.at + [p[|p| - 1]])
    ensures Walk(g', [], p, limit) == Some(Reached(r.at + [p[|p| - 1]], r.left))
  {
    WalkExtends(g, g', [], p[..|p| - 1], limit);
    assert p == p[..|p| - 1] + [p[|p| - 1]];
    WalkSplit(g', [], p[..|p| - 1], [p[|p| - 1]], limit);
    WalkOne(g', r.at, p[|p| - 1], r.left);
  }

  // If the workspace does not resolve, nothing physical lies under its path.
  lemma {:induction false} MissingWorkspace(fs: Tree, workspace: Comps, at: Comps)
    requires WellFormed(fs) && EvalSymlinks(fs, workspace).None? && at in fs && !fs[at].Link?
    ensures !(workspace <= at)
  {
    if workspace <= at { PhysicalResolves(fs, workspace, at); }
  }

  lemma {:induction false} PhysicalResolves(fs: Tree, p: Comps, at: Comps)
    requires WellFormed(fs) && at in fs && !fs[at].Link? && p <= at
    ensures EvalSymlinks(fs, p) == Some(p)
  {
    assert at[..|p|] == p;
    if |p| < |at| { PrefixIsDir(fs, at, |p|); } else { assert at == p; }
    WalkPhysical(fs, p, 0, EVAL_SYMLINKS_LIMIT);
    assert p[..0] == [] && p[0..] == p;
  }

  datatype MkdirResult = Made | Unresolvable | Denied | MkdirFailed

  class Server {
    var fs: Tree
    const workspaceDir: Comps

    constructor (fs: Tree, workspaceDir: Comps)
      ensures this.fs == fs && this.workspaceDir == workspaceDir
    {
      this.fs, this.workspaceDir := fs, workspaceDir;
    }

    method MkdirSafe(dir: Comps, limit: nat) returns (r: MkdirResult)
      requires WellFormed(fs) && Physical(workspaceDir) && Physical(dir)
      modifies `fs
      // The directory ends up inside the workspace, which therefore exists.
      ensures r.Made? ==>
        && EvalSymlinks(old(fs), workspaceDir).Some?
        && Walk(fs, [], dir, limit).Some?
        && EvalSymlinks(old(fs), workspaceDir).value <= Walk(fs, [], dir, limit).value.at
        && IsDir(fs, Walk(fs, [], dir, limit).value.at)
      // Whatever the outcome, nothing is changed and all that is new is a directory inside the workspace.
      ensures WellFormed(fs) && Extends(old(fs), fs)
      ensures forall q :: q in fs && q !in old(fs) ==>
        fs[q].Dir? && EvalSymlinks(old(fs), workspaceDir).Some? && EvalSymlinks(old(fs), workspaceDir).value <= q
      ensures !r.Made? ==> fs == old(fs)
      // It succeeds exactly if the deepest existing ancestor is a directory that resolves inside the workspace.
      ensures r.Made? <==>
        && EvalSymlinks(old(fs), Deepest(old(fs), dir, limit)).Some?
        && ResolvedWorkspace(old(fs), workspaceDir) <= EvalSymlinks(old(fs), Deepest(old(fs), dir, limit)).value
        && Ready(old(fs), dir, limit)
      // It is denied exactly if that ancestor resolves outside.
      ensures r.Unresolvable? <==> EvalSymlinks(old(fs), Deepest(old(fs), dir, limit)).None?
      ensures r.Denied? <==>
        && EvalSymlinks(old(fs), Deepest(old(fs), dir, limit)).Some?
        && !(ResolvedWorkspace(old(fs), workspaceDir) <= EvalSymlinks(old(fs), Deepest(old(fs), dir, limit)).value)
    {
      var resolvedWorkspace := ResolvedWorkspace(fs, workspaceDir);
      WorkspaceIsPhysical(fs, workspaceDir);
      var existing := dir;
      while Lstat(fs, existing, limit).None? && existing != []
        invariant existing <= dir
        invariant Deepest(fs, existing, limit) == Deepest(fs, dir, limit)
        decreases |existing|
      {
        existing := existing[..|existing| - 1];
      }
      DeepestSpec(fs, dir, limit);
      assert existing == Deepest(fs, dir, limit);
      // The root always exists, so the walk ends at something that does.
      var resolved := EvalSymlinks(fs, existing);
      if resolved.None? { return Unresolvable; }
      EvalIsPhysical(fs, existing);
      PhysicalIsClean(resolvedWorkspace);
      PhysicalIsClean(resolved.value);
      EscapesIffOutside(resolvedWorkspace, resolved.value);
      if Escapes(Rel(resolvedWorkspace, resolved.value)) { return Denied; }
      if EvalSymlinks(fs, workspaceDir).None? {
        MissingWorkspace(fs, workspaceDir, resolved.value);
        assert false;
      }

      MkdirAllContained(fs, dir, limit, resolvedWorkspace);
      var (fs', ok) := MkdirAll(fs, dir, limit);
      fs := fs';
      r := if ok then Made else MkdirFailed;
    }
  }

  // What MkdirAll does once the check on the deepest existing ancestor has passed.
  lemma {:induction false} MkdirAllContained(fs: Tree, dir: Comps, limit: nat, ws: Comps)
    requires WellFormed(fs) && Physical(dir)
    requires var e := EvalSymlinks(fs, Deepest(fs, dir, limit)); e.Some? && ws <= e.value
    ensures var (fs', ok) := MkdirAll(fs, dir, limit);
            && (ok <==> Ready(fs, dir, limit))
            && (!ok ==> fs' == fs)
            && WellFormed(fs') && Extends(fs, fs')
            && (forall q :: q in fs' && q !in fs ==> fs'[q].Dir? && ws <= q)
            && (ok ==> var w := Walk(fs', [], dir, limit); w.Some? && ws <= w.value.at && IsDir(fs', w.value.at))
  {
    var e := Deepest(fs, dir, limit);
    DeepestSpec(fs, dir, limit);
    assert dir[..|e|] == e;
    if Ready(fs, dir, limit) {
      var r := Walk(fs, [], e, limit).value;
      WalkSamePlace(fs, e, limit, EVAL_SYMLINKS_LIMIT);
      GrownContained(fs, dir, |e|, r, limit, ws);
    } else {
      MkdirAllBlocked(fs, dir, |e|, limit);
    }
  }

  lemma {:induction false} GrownContained(fs: Tree, p: Comps, n: nat, r: Reached, limit: nat, ws: Comps)
    requires WellFormed(fs) && Physical(p) && n <= |p| && MissingFrom(fs, p, n, limit)
    requires Walk(fs, [], p[..n], limit) == Some(r) && IsDir(fs, r.at) && ws <= r.at
    ensures var fs' := Grown(fs, r.at, p[n..]);
            && MkdirAll(fs, p, limit) == (fs', true)
            && Walk(fs', [], p, limit) == Some(Reached(r.at + p[n..], r.left))
            && WellFormed(fs') && Extends(fs, fs')
            && (forall q :: q in fs' && q !in fs ==> fs'[q].Dir? && ws <= q)
            && ws <= r.at + p[n..] && IsDir(fs', r.at + p[n..])
  {
    MkdirAllGrows(fs, p, n, r, limit);
    SuffixPhysical(p, n);
    if n < |p| { NextMissing(fs, p, n, r, limit); }
    GrownSpec(fs, r.at, p[n..]);
    GrownNew(fs, r.at, p[n..]);
  }

  // Where a path ends up when its missing directories are created: inside exactly if the deepest existing
  // ancestor resolves inside. This is the test mkdirSafe makes and sanitizePath does not.
  lemma {:induction false} CreatedInsideIff(fs: Tree, p: Comps, limit: nat, ws: Comps)
    requires WellFormed(fs) && ws in fs && Physical(p) && Ready(fs, p, limit)
    ensures var (fs', ok) := MkdirAll(fs, p, limit);
            && ok && Walk(fs', [], p, limit).Some?
            && (ws <= Walk(fs', [], p, limit).value.at <==> ws <= Walk(fs, [], Deepest(fs, p, limit), limit).value.at)
  {
    var e := Deepest(fs, p, limit);
    var n, r := |e|, Walk(fs, [], e, limit).value;
    DeepestSpec(fs, p, limit);
    assert p[..n] == e;
    MkdirAllGrows(fs, p, n, r, limit);
    if n < |p| { NextMissing(fs, p, n, r, limit); }
    if ws <= r.at + p[n..] && |r.at| < |ws| {
      assert ws[..|r.at| + 1] == r.at + [p[n]];
      AncestorExists(fs, ws, |r.at| + 1);
    }
  }

  // So it is for every path sanitizePath accepts, if the workspace exists.
  lemma {:induction false} AcceptedCreatedInsideIff(fs: Tree, workspace: Comps, p: string, limit: nat)
    requires WellFormed(fs) && Physical(workspace) && EvalSymlinks(fs, workspace).Some?
    requires SanitizePath(fs, Some(workspace), p).Safe? && Ready(fs, SanitizePath(fs, Some(workspace), p).path, limit)
    ensures var path, ws := SanitizePath(fs, Some(workspace), p).path, ResolvedWorkspace(fs, workspace);
            var (fs', ok) := MkdirAll(fs, path, limit);
            && ok && Walk(fs', [], path, limit).Some?
            && (ws <= Walk(fs', [], path, limit).value.at <==>
                ws <= Walk(fs, [], Deepest(fs, path, limit), limit).value.at)
  {
    SanitizeIff(fs, workspace, p);
    EvalIsPhysical(fs, workspace);
    CreatedInsideIff(fs, SanitizePath(fs, Some(workspace), p).path, limit, ResolvedWorkspace(fs, workspace));
  }

  // An entry of the workspace that resolves to a directory out: a new name below it is accepted, and
  // is created in out, be that inside the workspace or not.
  lemma {:induction false} AcceptedBelowLink(fs: Tree, ws: Comps, l: string, c: string, out: Comps, limit: nat)
    requires WellFormed(fs) && IsDir(fs, ws) && Component(l) && Component(c)
    requires EvalSymlinks(fs, ws + [l]) == Some(out) && Stat(fs, ws + [l], limit) == Some(Dir)
    requires IsDir(fs, out) && out + [c] !in fs
    ensures SanitizePath(fs, Some(ws), l + "/" + c) == Safe(ws + [l, c])
    ensures MkdirAll(fs, ws + [l, c], limit) == (fs[out + [c] := Dir], true)
  {
    var full, link := ws + [l, c], ws + [l];
    assert full == link + [c] && full[..|link|] == link && full[|link|..] == [c];
    assert Physical(ws);
    PhysicalResolves(fs, ws, ws);
    BelowLinkIntended(ws, l, c);
    WalkSamePlace(fs, link, limit, EVAL_SYMLINKS_LIMIT);
    WalkSplit(fs, [], link, [c], EVAL_SYMLINKS_LIMIT);
    SanitizeIff(fs, ws, l + "/" + c);
    BelowLinkCreated(fs, link, c, out, limit);
  }

  lemma {:induction false} BelowLinkIntended(ws: Comps, l: string, c: string)
    requires Physical(ws) && Component(l) && Component(c)
    ensures !IsAbs(l + "/" + c) && Intended(ws, l + "/" + c) == ws + [l, c] && Physical(ws + [l, c])
  {
    SplitPlain(l, c);
    SplitPlain(c, "");
    assert [l] + [c] == [l, c];
    var full := ws + [l, c];
    PhysicalIsClean(full);
    assert [] + full == full;
    CleanFixesNormal(true, [], full);
  }

  lemma {:induction false} BelowLinkCreated(fs: Tree, link: Comps, c: string, out: Comps, limit: nat)
    requires WellFormed(fs) && Physical(link) && Component(c) && IsDir(fs, out) && out + [c] !in fs
    requires Walk(fs, [], link, limit).Some? && Walk(fs, [], link, limit).value.at == out
    ensures MkdirAll(fs, link + [c], limit) == (fs[out + [c] := Dir], true)
  {
    var p, n := link + [c], |link|;
    assert p[..n] == link && p[n..] == [c] && p[..|p|] == p;
    assert MissingAt(fs, p, n + 1, limit);
    MkdirAllGrows(fs, p, n, Walk(fs, [], link, limit).value, limit);
    assert [c][1..] == [];
  }

  // A tree with such an entry that leads out of the workspace.
  const LinkTree: Tree := map[[] := Dir, ["w"] := Dir, ["o"] := Dir, ["w", "l"] := Link("/o")]

  lemma {:induction false} AcceptedCreatedOutside(limit: nat)
    requires 0 < limit
    ensures WellFormed(LinkTree) && IsDir(LinkTree, ["w"])
    ensures SanitizePath(LinkTree, Some(["w"]), "l/c") == Safe(["w", "l", "c"])
    ensures MkdirAll(LinkTree, ["w", "l", "c"], limit) == (LinkTree[["o", "c"] := Dir], true)
    ensures !(["w"] <= ["o", "c"])
  {
    LinkTreeWellFormed();
    LinkTreeWalk(limit);
    LinkTreeWalk(EVAL_SYMLINKS_LIMIT);
    assert ["w"] + ["l"] == ["w", "l"] && ["w"] + ["l", "c"] == ["w", "l", "c"] && ["o"] + ["c"] == ["o", "c"];
    assert "l" + "/" + "c" == "l/c";
    AcceptedBelowLink(LinkTree, ["w"], "l", "c", ["o"], limit);
  }

  lemma {:induction false} LinkTreeWellFormed()
    ensures WellFormed(LinkTree)
  {
    forall p | p in LinkTree ensures HasParent(LinkTree, p) && Physical(p) {
      assert ["w"][..0] == [] && ["o"][..0] == [] && ["w", "l"][..1] == ["w"];
    }
  }

  lemma {:induction false} LinkTreeWalk(limit: nat)
    requires 0 < limit
    ensures Walk(LinkTree, [], ["w", "l"], limit) == Some(Reached(["o"], limit - 1))
  {
    LinkTreeWellFormed();
    assert ["w"] + ["l"] == ["w", "l"] && "/" + "o" == "/o";
    LinkResolves(LinkTree, ["w"], "l", "/o", limit);
    AbsoluteWalk(LinkTree, "o", limit - 1);
  }

  lemma {:induction false} AbsoluteWalk(fs: Tree, o: string, limit: nat)
    requires Component(o) && IsDir(fs, [o])
    ensures Walk(fs, [], Split("/" + o), limit) == Some(Reached([o], limit))
  {
    assert Split("/" + o) == ["", o] by {
      SplitPlain("", o);
      SplitPlain(o, "");
      assert "" + "/" + o == "/" + o;
    }
    FromRoot(fs, o, limit);
  }

  lemma {:induction false} FromRoot(fs: Tree, o: string, limit: nat)
    requires Component(o) && IsDir(fs, [o])
    ensures Walk(fs, [], ["", o], limit) == Some(Reached([o], limit))
  {
    assert ["", o][1..] == [o] && [] + [o] == [o];
    WalkOne(fs, [], o, limit);
  }

  // ---- Links of the workspace ----

  // A link of the workspace resolves to where its target leads, from the workspace or from the root.
  lemma {:induction false} LinkResolves(fs: Tree, ws: Comps, l: string, t: string, limit: nat)
    requires WellFormed(fs) && IsDir(fs, ws) && Component(l) && IsLink(fs, ws + [l], t)
    ensures Walk(fs, [], ws + [l], limit) ==
            if limit == 0 then None else Walk(fs, if IsAbs(t) then [] else ws, Split(t), limit - 1)
  {
    WalkPhysical(fs, ws, 0, limit);
    assert ws[..0] == [] && ws[0..] == ws;
    ThroughLink(fs, [], ws, l, t, [], limit, ws, limit);
    assert ws + [l] + [] == ws + [l] && Split(t) + [] == Split(t);
  }

  // So sanitizePath takes the link exactly if its target, if there is one, is inside.
  lemma {:induction false} LinkIsSafeIff(fs: Tree, ws: Comps, l: string, t: string)
    requires WellFormed(fs) && IsDir(fs, ws) && Component(l) && IsLink(fs, ws + [l], t)
    ensures var target := Walk(fs, if IsAbs(t) then [] else ws, Split(t), EVAL_SYMLINKS_LIMIT - 1);
            SanitizePath(fs, Some(ws), l) ==
              if target.None? then Safe(ws + [l])
              else if ws <= target.value.at then Safe(target.value.at) else SymlinkEscape
  {
    LinkResolves(fs, ws, l, t, EVAL_SYMLINKS_LIMIT);
    assert Physical(ws);
    PhysicalResolves(fs, ws, ws);
    SplitPlain(l, "");
    var full := ws + [l];
    PhysicalIsClean(full);
    assert [] + full == full;
    CleanFixesNormal(true, [], full);
    SanitizeIff(fs, ws, l);
  }

  // And a link is as deep as mkdirSafe looks for a new name below it, whether its target exists or not.
  lemma {:induction false} DeepestIsLink(fs: Tree, ws: Comps, l: string, t: string, c: string, limit: nat)
    requires WellFormed(fs) && IsDir(fs, ws) && Component(l) && IsLink(fs, ws + [l], t)
    requires var target := Walk(fs, [], ws + [l], limit); target.Some? ==> target.value.at + [c] !in fs
    ensures Deepest(fs, ws + [l, c], limit) == ws + [l]
    ensures ResolvedWorkspace(fs, ws) == ws
  {
    var full, link := ws + [l, c], ws + [l];
    assert full[..|full| - 1] == link && link[..|link| - 1] == ws;
    PhysicalResolves(fs, ws, ws);
    WalkPhysical(fs, ws, 0, limit);
    assert ws[..0] == [] && ws[0..] == ws;
  }

  // For instance a link to a neighbour of the workspace.
  lemma {:induction false} NeighbourWalk(fs: Tree, ws: Comps, o: string, limit: nat)
    requires WellFormed(fs) && ws != [] && IsDir(fs, ws) && Component(o) && IsDir(fs, Up(ws) + [o])
    ensures Walk(fs, ws, Split("../" + o), limit) == Some(Reached(Up(ws) + [o], limit))
  {
    SplitPlain("..", o);
    SplitPlain(o, "");
    assert ".." + "/" + o == "../" + o;
    var todo := ["..", o];
    assert Split("../" + o) == todo;
    assert HasParent(fs, ws) && Physical(ws);
    assert todo[1..] == [o] && [o][1..] == [];
    assert Walk(fs, Up(ws), [o], limit) == Some(Reached(Up(ws) + [o], limit));
  }

  // sanitizePath refuses it ...
  lemma {:induction false} NeighbourLinkEscapes(fs: Tree, ws: Comps, l: string, o: string)
    requires WellFormed(fs) && ws != [] && IsDir(fs, ws) && Component(l) && Component(o)
    requires IsLink(fs, ws + [l], "../" + o) && IsDir(fs, Up(ws) + [o]) && o != ws[|ws| - 1]
    ensures SanitizePath(fs, Some(ws), l) == SymlinkEscape
  {
    NeighbourWalk(fs, ws, o, EVAL_SYMLINKS_LIMIT - 1);
    LinkIsSafeIff(fs, ws, l, "../" + o);
    assert (Up(ws) + [o])[|ws| - 1] == o;
  }

  lemma {:induction false} NeighbourDeepest(fs: Tree, ws: Comps, l: string, o: string, c: string, limit: nat)
    requires WellFormed(fs) && ws != [] && IsDir(fs, ws) && Component(l) && Component(o)
    requires IsLink(fs, ws + [l], "../" + o) && IsDir(fs, Up(ws) + [o]) && o != ws[|ws| - 1]
    requires Up(ws) + [o, c] !in fs && 0 < limit
    ensures EvalSymlinks(fs, Deepest(fs, ws + [l, c], limit)) == Some(Up(ws) + [o])
    ensures ResolvedWorkspace(fs, ws) == ws && !(ws <= Up(ws) + [o])
  {
    NeighbourWalk(fs, ws, o, limit - 1);
    NeighbourWalk(fs, ws, o, EVAL_SYMLINKS_LIMIT - 1);
    LinkResolves(fs, ws, l, "../" + o, limit);
    LinkResolves(fs, ws, l, "../" + o, EVAL_SYMLINKS_LIMIT);
    assert Up(ws) + [o, c] == Up(ws) + [o] + [c];
    DeepestIsLink(fs, ws, l, "../" + o, c, limit);
    assert (Up(ws) + [o])[|ws| - 1] == o;
  }

  // ... and mkdirSafe a new directory below it.
  method NeighbourLinkDenied(fs: Tree, ws: Comps, l: string, o: string, c: string, limit: nat)
    returns (r: MkdirResult, fs': Tree)
    requires WellFormed(fs) && ws != [] && IsDir(fs, ws) && Component(l) && Component(o) && Component(c)
    requires IsLink(fs, ws + [l], "../" + o) && IsDir(fs, Up(ws) + [o]) && o != ws[|ws| - 1]
    requires Up(ws) + [o, c] !in fs && 0 < limit
    ensures r == Denied && fs' == fs
  {
    NeighbourDeepest(fs, ws, l, o, c, limit);
    assert Physical(ws);
    var s := new Server(fs, ws);
    r := s.MkdirSafe(ws + [l, c], limit);
    fs' := s.fs;
  }

  const NeighbourTree: Tree := map[[] := Dir, ["w"] := Dir, ["o"] := Dir, ["w", "l"] := Link("../o")]

  lemma {:induction false} NeighbourTreeWellFormed()
    ensures WellFormed(NeighbourTree)
  {
    forall p | p in NeighbourTree ensures HasParent(NeighbourTree, p) && Physical(p) {
      assert ["w"][..0] == [] && ["o"][..0] == [] && ["w", "l"][..1] == ["w"];
    }
  }

  lemma {:induction false} NeighbourTreeShape()
    ensures IsDir(NeighbourTree, ["w"]) && IsDir(NeighbourTree, Up(["w"]) + ["o"])
    ensures IsLink(NeighbourTree, ["w"] + ["l"], "../" + "o") && Up(["w"]) + ["o", "c"] !in NeighbourTree
  {
    assert "../" + "o" == "../o" && ["w"] + ["l"] == ["w", "l"] && Up(["w"]) + ["o"] == ["o"];
    assert Up(["w"]) + ["o", "c"] == ["o", "c"];
  }

  lemma {:induction false} NeighbourTreeEscapes()
    ensures SanitizePath(NeighbourTree, Some(["w"]), "l") == SymlinkEscape
  {
    NeighbourTreeWellFormed();
    NeighbourTreeShape();
    NeighbourLinkEscapes(NeighbourTree, ["w"], "l", "o");
  }

  method NeighbourTreeDenied(limit: nat) returns (r: MkdirResult)
    requires 0 < limit
    ensures r == Denied
  {
    NeighbourTreeWellFormed();
    NeighbourTreeShape();
    var fs;
    r, fs := NeighbourLinkDenied(NeighbourTree, ["w"], "l", "o", "c", limit);
  }

  // The comment in the code expects MkdirAll to create a missing workspace; in fact the walk stops
  // above it and the request is refused, whatever is asked for.
  lemma {:induction false} MissingWorkspaceIsRefused(fs: Tree, workspace: Comps, dir: Comps, limit: nat)
    requires WellFormed(fs) && Physical(workspace) && Physical(dir)
    requires EvalSymlinks(fs, workspace).None?
    ensures EvalSymlinks(fs, Deepest(fs, dir, limit)).Some? ==>
              !(ResolvedWorkspace(fs, workspace) <= EvalSymlinks(fs, Deepest(fs, dir, limit)).value)
  {
    if EvalSymlinks(fs, Deepest(fs, dir, limit)).Some? {
      EvalIsPhysical(fs, Deepest(fs, dir, limit));
      MissingWorkspace(fs, workspace, EvalSymlinks(fs, Deepest(fs, dir, limit)).value);
    }
  }
}
