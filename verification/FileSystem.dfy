/** A filesystem with symbolic links, as a finite map from physical locations to nodes, and the
    system calls PicoD makes on it. */
module FileSystem {
  import opened Sandboxes
  import opened Paths

  datatype Node = Dir | File | Link(target: string)

  // Keyed by physical location: the components from the root, none of which is a link.
  type Tree = map<Comps, Node>

  predicate Component(c: string) { Ordinary(c) && Plain(c) }

  ghost predicate WellFormed(fs: Tree) {
    && [] in fs && fs[[]].Dir?
    && (forall p {:trigger HasParent(fs, p)} :: p in fs ==> HasParent(fs, p))
    && (forall p :: p in fs ==> Physical(p))
  }

  predicate HasParent(fs: Tree, p: Comps) { p != [] ==> IsDir(fs, p[..|p| - 1]) }

  predicate Physical(p: Comps) { forall i :: 0 <= i < |p| ==> Component(p[i]) }

  predicate IsDir(fs: Tree, p: Comps) { p in fs && fs[p].Dir? }

  datatype Reached = Reached(at: Comps, left: nat)

  // What one component leads to: nowhere, a file at the end of the path, or further resolution.
  datatype Move = Nowhere | AtFile(at: Comps) | Go(done: Comps, todo: Comps, links: nat)

  function Up(p: Comps): Comps { if p == [] then [] else p[..|p| - 1] }

  function Move1(fs: Tree, done: Comps, c: string, rest: Comps, links: nat): Move {
    if c == "" || c == "." then Go(done, rest, links)
    else if c == ".." then Go(Up(done), rest, links)
    else if done + [c] !in fs then Nowhere
    else match fs[done + [c]]
      case Dir => Go(done + [c], rest, links)
      case File => if rest == [] then AtFile(done + [c]) else Nowhere
      case Link(t) => if links == 0 then Nowhere else Go(if IsAbs(t) then [] else done, Split(t) + rest, links - 1)
  }

  // Resolve todo from the directory done, following at most links links. This is both what the kernel
  // does and what filepath.EvalSymlinks does, with different limits.
  function Walk(fs: Tree, done: Comps, todo: Comps, links: nat): Option<Reached>
    decreases links, |todo|
  {
    if todo == [] then Some(Reached(done, links))
    else match Move1(fs, done, todo[0], todo[1..], links)
      case Nowhere => None
      case AtFile(at) => Some(Reached(at, links))
      case Go(d, t, k) => Walk(fs, d, t, k)
  }

  const EVAL_SYMLINKS_LIMIT: nat := 255

  // filepath.EvalSymlinks of an absolute path
  function EvalSymlinks(fs: Tree, p: Comps): Option<Comps> {
    match Walk(fs, [], p, EVAL_SYMLINKS_LIMIT)
    case Some(r) => Some(r.at)
    case None => None
  }

  // The kernel's own limit on links, a parameter of the calls below.

  // os.Stat follows a final link; os.Lstat does not.
  function Stat(fs: Tree, p: Comps, limit: nat): Option<Node> {
    match Walk(fs, [], p, limit)
    case Some(r) => if r.at in fs then Some(fs[r.at]) else None
    case None => None
  }

  function Lstat(fs: Tree, p: Comps, limit: nat): Option<Node> {
    if p == [] then (if [] in fs then Some(fs[[]]) else None)
    else match Walk(fs, [], p[..|p| - 1], limit)
      case Some(r) => if r.at + [p[|p| - 1]] in fs then Some(fs[r.at + [p[|p| - 1]]]) else None
      case None => None
  }

  function Mkdir(fs: Tree, p: Comps, limit: nat): Option<Tree> {
    if p == [] then None
    else match Walk(fs, [], p[..|p| - 1], limit)
      case None => None
      case Some(r) =>
        var q := r.at + [p[|p| - 1]];
        if IsDir(fs, r.at) && q !in fs then Some(fs[q := Dir]) else None
  }

  // os.MkdirAll: the tree it leaves, and whether it succeeded.
  function MkdirAll(fs: Tree, p: Comps, limit: nat): (Tree, bool)
    decreases |p|
  {
    match Stat(fs, p, limit)
    case Some(node) => (fs, node.Dir?)
    case None =>
      if p == [] then (fs, false)
      else
        var (fs1, ok) := if |p| > 1 then MkdirAll(fs, p[..|p| - 1], limit) else (fs, true);
        if !ok then (fs1, false)
        else match Mkdir(fs1, p, limit)
          case Some(fs2) => (fs2, true)
          case None => (fs1, Lstat(fs1, p, limit) == Some(Dir))
  }

  // ---- Properties of Walk ----

  lemma MoveDone(fs: Tree, done: Comps, c: string, rest: Comps, links: nat)
    requires WellFormed(fs) && IsDir(fs, done)
    ensures var m := Move1(fs, done, c, rest, links);
            && (m.Go? ==> IsDir(fs, m.done))
            && (m.AtFile? ==> m.at in fs && fs[m.at].File? && rest == [])
  {
    assert HasParent(fs, done);
  }

  // Resolution ends at a directory or a file.
  lemma {:induction false} WalkEnds(fs: Tree, done: Comps, todo: Comps, links: nat)
    requires WellFormed(fs) && IsDir(fs, done) && Walk(fs, done, todo, links).Some?
    ensures Walk(fs, done, todo, links).value.at in fs
    ensures !fs[Walk(fs, done, todo, links).value.at].Link?
    decreases links, |todo|
  {
    if todo != [] {
      MoveDone(fs, done, todo[0], todo[1..], links);
      var m := Move1(fs, done, todo[0], todo[1..], links);
      if m.Go? { WalkEnds(fs, m.done, m.todo, m.links); }
    }
  }

  function Continue(fs: Tree, r: Option<Reached>, more: Comps): Option<Reached> {
    match r
    case None => None
    case Some(r) => if IsDir(fs, r.at) then Walk(fs, r.at, more, r.left) else None
  }

  lemma MoveAppend(fs: Tree, done: Comps, c: string, rest: Comps, b: Comps, links: nat)
    requires b != []
    ensures var m := Move1(fs, done, c, rest, links);
            Move1(fs, done, c, rest + b, links) ==
              if m.Go? then Go(m.done, m.todo + b, m.links) else Nowhere
  {
    if c != "" && c != "." && c != ".." && done + [c] in fs && fs[done + [c]].Link? {
      var t := fs[done + [c]].target;
      assert Split(t) + (rest + b) == (Split(t) + rest) + b;
    }
  }

  // Resolving a path is resolving its front, which must end at a directory, and going on from there.
  lemma {:induction false} WalkSplit(fs: Tree, done: Comps, a: Comps, b: Comps, links: nat)
    requires WellFormed(fs) && IsDir(fs, done) && b != []
    ensures Walk(fs, done, a + b, links) == Continue(fs, Walk(fs, done, a, links), b)
    decreases links, |a|
  {
    if a == [] {
      assert a + b == b;
    } else {
      assert (a + b)[0] == a[0] && (a + b)[1..] == a[1..] + b;
      MoveAppend(fs, done, a[0], a[1..], b, links);
      MoveDone(fs, done, a[0], a[1..], links);
      var m := Move1(fs, done, a[0], a[1..], links);
      if m.Go? { WalkSplit(fs, m.done, m.todo, b, m.links); }
    }
  }

  // A higher limit changes nothing but the number of links left over.
  lemma {:induction false} WalkMoreLinks(fs: Tree, done: Comps, todo: Comps, links: nat, extra: nat)
    requires Walk(fs, done, todo, links).Some?
    ensures var r := Walk(fs, done, todo, links).value;
            Walk(fs, done, todo, links + extra) == Some(Reached(r.at, r.left + extra))
    decreases links, |todo|
  {
    if todo != [] {
      var m := Move1(fs, done, todo[0], todo[1..], links);
      var m' := Move1(fs, done, todo[0], todo[1..], links + extra);
      if m.Go? {
        assert m' == Go(m.done, m.todo, m.links + extra);
        WalkMoreLinks(fs, m.done, m.todo, m.links, extra);
      }
    }
  }

  // So two limits under which resolution succeeds lead to the same place.
  lemma WalkSamePlace(fs: Tree, p: Comps, k: nat, l: nat)
    requires Walk(fs, [], p, k).Some? && Walk(fs, [], p, l).Some?
    ensures Walk(fs, [], p, k).value.at == Walk(fs, [], p, l).value.at
  {
    if k <= l { WalkMoreLinks(fs, [], p, k, l - k); } else { WalkMoreLinks(fs, [], p, l, k - l); }
  }

  ghost predicate Extends(fs: Tree, fs': Tree) {
    forall p :: p in fs ==> p in fs' && fs'[p] == fs[p]
  }

  // New nodes do not disturb what already resolves.
  lemma {:induction false} WalkExtends(fs: Tree, fs': Tree, done: Comps, todo: Comps, links: nat)
    requires Extends(fs, fs') && Walk(fs, done, todo, links).Some?
    ensures Walk(fs', done, todo, links) == Walk(fs, done, todo, links)
    decreases links, |todo|
  {
    if todo != [] {
      var m := Move1(fs, done, todo[0], todo[1..], links);
      assert Move1(fs', done, todo[0], todo[1..], links) == m;
      if m.Go? { WalkExtends(fs, fs', m.done, m.todo, m.links); }
    }
  }

  lemma {:induction false} PrefixIsDir(fs: Tree, p: Comps, n: nat)
    requires WellFormed(fs) && p in fs && n < |p|
    ensures IsDir(fs, p[..n])
    decreases |p|
  {
    var up := p[..|p| - 1];
    assert HasParent(fs, p);
    if n < |p| - 1 {
      PrefixIsDir(fs, up, n);
      assert up[..n] == p[..n];
    }
  }

  lemma {:induction false} AncestorExists(fs: Tree, p: Comps, n: nat)
    requires WellFormed(fs) && n <= |p|
    ensures p in fs ==> p[..n] in fs
  {
    if n == |p| {
      assert p[..n] == p;
    } else if p in fs {
      PrefixIsDir(fs, p, n);
    }
  }

  // A new directory in an existing one.
  lemma {:induction false} AddDir(fs: Tree, d: Comps, c: string)
    requires WellFormed(fs) && IsDir(fs, d) && Component(c) && d + [c] !in fs
    ensures WellFormed(fs[d + [c] := Dir]) && Extends(fs, fs[d + [c] := Dir])
  {
    var q := d + [c];
    var fs' := fs[q := Dir];
    assert q[..|q| - 1] == d;
    assert Physical(d);
    forall p | p in fs' ensures HasParent(fs', p) {
      if p != q { assert HasParent(fs, p); }
    }
  }

  // A physical location resolves to itself.
  lemma {:induction false} WalkPhysical(fs: Tree, p: Comps, n: nat, links: nat)
    requires WellFormed(fs) && p in fs && !fs[p].Link? && n <= |p|
    ensures Walk(fs, p[..n], p[n..], links) == Some(Reached(p, links))
    decreases |p| - n
  {
    if n == |p| {
      assert p[..n] == p && p[n..] == [];
    } else {
      var c := p[n..][0];
      assert c == p[n];
      assert p[..n] + [c] == p[..n + 1];
      assert p[n..][1..] == p[n + 1..];
      if n + 1 < |p| {
        PrefixIsDir(fs, p, n + 1);
        WalkPhysical(fs, p, n + 1, links);
      } else {
        assert p[..n + 1] == p;
      }
    }
  }

  // A clean path whose target can be found can be seen by Lstat, too.
  lemma {:induction false} StatImpliesLstat(fs: Tree, p: Comps, limit: nat)
    requires WellFormed(fs) && Physical(p) && Walk(fs, [], p, limit).Some?
    ensures Lstat(fs, p, limit).Some?
    ensures p != [] ==> Walk(fs, [], p[..|p| - 1], limit).Some? && IsDir(fs, Walk(fs, [], p[..|p| - 1], limit).value.at)
  {
    if p != [] {
      assert p == p[..|p| - 1] + [p[|p| - 1]];
      WalkSplit(fs, [], p[..|p| - 1], [p[|p| - 1]], limit);
    }
  }

  // A step to a directory that is there.
  lemma {:induction false} WalkOne(fs: Tree, d: Comps, c: string, links: nat)
    requires Ordinary(c) && IsDir(fs, d + [c])
    ensures Walk(fs, d, [c], links) == Some(Reached(d + [c], links))
  {
    assert [c][1..] == [];
  }

  // ---- Where a path leads ----

  // The places on the way: directories, and at the end whatever is there.
  ghost predicate WayExists(fs: Tree, d: Comps, todo: Comps) {
    && Fold(true, d, todo) in fs
    && forall n :: 0 <= n < |todo| ==> IsDir(fs, Fold(true, d, todo[..n]))
  }

  lemma {:induction false} WayStep(fs: Tree, d: Comps, todo: Comps)
    requires todo != []
    ensures WayExists(fs, d, todo) <==> IsDir(fs, d) && WayExists(fs, Push(true, d, todo[0]), todo[1..])
  {
    var d1, rest := Push(true, d, todo[0]), todo[1..];
    assert Fold(true, d, todo[..0]) == d;
    forall n | 0 <= n < |rest| ensures Fold(true, d1, rest[..n]) == Fold(true, d, todo[..n + 1]) {
      assert todo[..n + 1][1..] == rest[..n];
    }
    if WayExists(fs, d, todo) {
      forall n | 0 <= n < |rest| ensures IsDir(fs, Fold(true, d1, rest[..n])) {
        assert IsDir(fs, Fold(true, d, todo[..n + 1]));
      }
    }
    if IsDir(fs, d) && WayExists(fs, d1, rest) {
      forall n | 0 <= n < |todo| ensures IsDir(fs, Fold(true, d, todo[..n])) {
        if n > 0 { assert IsDir(fs, Fold(true, d1, rest[..n - 1])); }
      }
    }
  }

  ghost predicate NoLinks(fs: Tree) { forall p :: p in fs ==> !fs[p].Link? }

  // Where there is no link, the kernel goes where the words of the path say: ".." is the parent, the root's being
  // the root; "." and an empty component stay.
  lemma {:induction false} WalkFollowsWords(fs: Tree, d: Comps, todo: Comps, links: nat)
    requires WellFormed(fs) && WayExists(fs, d, todo) && !fs[Fold(true, d, todo)].Link?
    ensures Walk(fs, d, todo, links) == Some(Reached(Fold(true, d, todo), links))
    decreases |todo|
  {
    if todo != [] {
      WayStep(fs, d, todo);
      assert Physical(d);
      var d1 := Push(true, d, todo[0]);
      if todo[1..] != [] {
        assert Fold(true, d1, todo[1..][..0]) == d1;
        WalkFollowsWords(fs, d1, todo[1..], links);
      }
    }
  }

  // In a tree without links a path resolves exactly if the places on its way exist, and then to where its words lead.
  lemma {:induction false} WalkWithoutLinks(fs: Tree, d: Comps, todo: Comps, links: nat)
    requires WellFormed(fs) && NoLinks(fs) && IsDir(fs, d)
    ensures Walk(fs, d, todo, links).Some? <==> WayExists(fs, d, todo)
    ensures Walk(fs, d, todo, links).Some? ==> Walk(fs, d, todo, links).value == Reached(Fold(true, d, todo), links)
    decreases |todo|
  {
    if todo != [] {
      WayStep(fs, d, todo);
      if WayExists(fs, d, todo) { WalkFollowsWords(fs, d, todo, links); }
      MoveDone(fs, d, todo[0], todo[1..], links);
      assert Physical(d);
      var m := Move1(fs, d, todo[0], todo[1..], links);
      if m.Go? { WalkWithoutLinks(fs, m.done, m.todo, links); }
    }
  }

  predicate IsLink(fs: Tree, p: Comps, t: string) { p in fs && fs[p] == Link(t) }

  // A link on the way leads where its target leads from the directory that holds it, or from the root.
  lemma {:induction false} ThroughLink(fs: Tree, d: Comps, a: Comps, c: string, t: string, b: Comps, links: nat,
                                       p: Comps, left: nat)
    requires WellFormed(fs) && IsDir(fs, d) && Ordinary(c) && IsDir(fs, p) && IsLink(fs, p + [c], t)
    requires Walk(fs, d, a, links) == Some(Reached(p, left))
    ensures Walk(fs, d, a + [c] + b, links) ==
            if left == 0 then None else Walk(fs, if IsAbs(t) then [] else p, Split(t) + b, left - 1)
  {
    assert a + [c] + b == a + ([c] + b);
    WalkSplit(fs, d, a, [c] + b, links);
    assert ([c] + b)[1..] == b;
  }

  // So a relative link may be replaced by its text, at the price of the link.
  lemma {:induction false} LinkIsItsText(fs: Tree, d: Comps, a: Comps, c: string, t: string, b: Comps, links: nat,
                                         p: Comps, left: nat)
    requires WellFormed(fs) && IsDir(fs, d) && Ordinary(c) && IsDir(fs, p) && IsLink(fs, p + [c], t) && !IsAbs(t)
    requires Walk(fs, d, a, links) == Some(Reached(p, left))
    ensures Walk(fs, d, a + [c] + b, links + 1) == Walk(fs, d, a + Split(t) + b, links)
  {
    WalkMoreLinks(fs, d, a, links, 1);
    ThroughLink(fs, d, a, c, t, b, links + 1, p, left + 1);
    assert a + Split(t) + b == a + (Split(t) + b);
    WalkSplit(fs, d, a, Split(t) + b, links);
  }
}
