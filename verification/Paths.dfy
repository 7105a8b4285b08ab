/** Lexical path processing as Go's filepath does it: Clean, Join and Rel, on the components
    between slashes and on the strings they are written as. */
module Paths {

  type Comps = seq<string>

  // ---- Strings ----

  predicate Plain(c: string) { '/' !in c }

  // The pieces between slashes, empty ones included.
  function Split(s: string): (cs: Comps)
    ensures |cs| >= 1
    ensures forall i :: 0 <= i < |cs| ==> Plain(cs[i])
  {
    if s == [] then [""]
    else if s[0] == '/' then [""] + Split(s[1..])
    else
      var r := Split(s[1..]);
      [[s[0]] + r[0]] + r[1..]
  }

  function Glue(cs: Comps): string {
    if cs == [] then "" else if |cs| == 1 then cs[0] else cs[0] + "/" + Glue(cs[1..])
  }

  predicate IsAbs(s: string) { s != [] && s[0] == '/' }

  // ---- Clean ----

  function Push(abs: bool, st: Comps, c: string): Comps {
    if c == "" || c == "." then st
    else if c == ".." then
      if st != [] && st[|st| - 1] != ".." then st[..|st| - 1]
      else if abs then st
      else st + [c]
    else st + [c]
  }

  function Fold(abs: bool, st: Comps, cs: Comps): Comps
    decreases cs
  {
    if cs == [] then st else Fold(abs, Push(abs, st, cs[0]), cs[1..])
  }

  function Clean(abs: bool, cs: Comps): Comps { Fold(abs, [], cs) }

  function Render(abs: bool, cs: Comps): string {
    if abs then "/" + Glue(cs) else if cs == [] then "." else Glue(cs)
  }

  // filepath.Clean
  function CleanString(s: string): string { Render(IsAbs(s), Clean(IsAbs(s), Split(s))) }

  predicate Ordinary(c: string) { c != "" && c != "." && c != ".." }

  // A clean path: ordinary components only, after a run of ".." if the path is relative.
  ghost predicate Normal(abs: bool, cs: Comps) {
    && (forall i :: 0 <= i < |cs| ==> Ordinary(cs[i]) || (!abs && cs[i] == ".."))
    && (forall i, j :: 0 <= i < j < |cs| && cs[j] == ".." ==> cs[i] == "..")
  }

  lemma PushNormal(abs: bool, st: Comps, c: string)
    requires Normal(abs, st)
    ensures Normal(abs, Push(abs, st, c))
  {
    if c == ".." && !abs && !(st != [] && st[|st| - 1] != "..") && st != [] {
      assert forall i :: 0 <= i < |st| ==> st[i] == "..";
    }
  }

  lemma {:induction false} FoldNormal(abs: bool, st: Comps, cs: Comps)
    requires Normal(abs, st)
    ensures Normal(abs, Fold(abs, st, cs))
    decreases cs
  {
    if cs != [] {
      PushNormal(abs, st, cs[0]);
      FoldNormal(abs, Push(abs, st, cs[0]), cs[1..]);
    }
  }

  lemma {:induction false} FoldAppend(abs: bool, st: Comps, a: Comps, b: Comps)
    ensures Fold(abs, st, a + b) == Fold(abs, Fold(abs, st, a), b)
    decreases a
  {
    if a == [] {
      assert a + b == b;
    } else {
      assert (a + b)[1..] == a[1..] + b;
      FoldAppend(abs, Push(abs, st, a[0]), a[1..], b);
    }
  }

  // Cleaning leaves a clean path alone.
  lemma {:induction false} CleanFixesNormal(abs: bool, st: Comps, cs: Comps)
    requires Normal(abs, st + cs)
    ensures Fold(abs, st, cs) == st + cs
    decreases cs
  {
    if cs == [] {
      assert st + cs == st;
    } else {
      var c := cs[0];
      assert (st + cs)[|st|] == c;
      if c == ".." && st != [] { assert (st + cs)[|st| - 1] == ".."; }
      assert Push(abs, st, c) == st + [c];
      assert (st + [c]) + cs[1..] == st + cs;
      CleanFixesNormal(abs, st + [c], cs[1..]);
    }
  }

  // Clean is idempotent.
  lemma CleanIdempotent(abs: bool, cs: Comps)
    ensures Normal(abs, Clean(abs, cs))
    ensures Clean(abs, Clean(abs, cs)) == Clean(abs, cs)
  {
    FoldNormal(abs, [], cs);
    assert [] + Clean(abs, cs) == Clean(abs, cs);
    CleanFixesNormal(abs, [], Clean(abs, cs));
  }

  lemma {:induction false} PushComposes(st: Comps, r: Comps, c: string)
    requires Normal(false, r)
    ensures Fold(true, st, Push(false, r, c)) == Push(true, Fold(true, st, r), c)
  {
    if c == "" || c == "." {
    } else if c == ".." && r != [] && r[|r| - 1] != ".." {
      var front, x := r[..|r| - 1], r[|r| - 1];
      assert r == front + [x];
      FoldAppend(true, st, front, [x]);
      assert Fold(true, st, r) == Push(true, Fold(true, st, front), x);
    } else {
      FoldAppend(true, st, r, [c]);
    }
  }

  // Clean is compositional under Join: a relative path may be cleaned before or after it is joined.
  lemma {:induction false} CleanComposes(st: Comps, r: Comps, cs: Comps)
    requires Normal(false, r)
    ensures Fold(true, st, Fold(false, r, cs)) == Fold(true, Fold(true, st, r), cs)
    decreases cs
  {
    if cs != [] {
      PushComposes(st, r, cs[0]);
      PushNormal(false, r, cs[0]);
      CleanComposes(st, Push(false, r, cs[0]), cs[1..]);
    }
  }

  lemma {:induction false} JoinCleaned(base: Comps, cs: Comps)
    requires Normal(true, base)
    ensures Clean(true, base + Clean(false, cs)) == Clean(true, base + cs)
    ensures Clean(true, base + cs) == Fold(true, base, cs)
  {
    CleanComposes(base, [], cs);
    FoldAppend(true, [], base, cs);
    FoldAppend(true, [], base, Clean(false, cs));
    assert [] + base == base;
    CleanFixesNormal(true, [], base);
  }

  // ---- Strings again: a rendered clean path reads back as the same path ----

  lemma {:induction false} SplitPlain(c: string, s: string)
    requires Plain(c)
    ensures Split(c + "/" + s) == [c] + Split(s)
    ensures Split(c) == [c]
  {
    if c == [] {
      assert c + "/" + s == "/" + s;
    } else {
      SplitPlain(c[1..], s);
      assert (c + "/" + s)[1..] == c[1..] + "/" + s;
      assert c == [c[0]] + c[1..];
    }
  }

  lemma {:induction false} SplitGlue(cs: Comps)
    requires cs != [] && forall i :: 0 <= i < |cs| ==> Plain(cs[i])
    ensures Split(Glue(cs)) == cs
  {
    if |cs| == 1 {
      SplitPlain(cs[0], "");
    } else {
      SplitPlain(cs[0], Glue(cs[1..]));
      SplitGlue(cs[1..]);
    }
  }

  lemma {:induction false} FoldPlain(abs: bool, st: Comps, cs: Comps)
    requires (forall i :: 0 <= i < |st| ==> Plain(st[i])) && (forall i :: 0 <= i < |cs| ==> Plain(cs[i]))
    ensures forall i :: 0 <= i < |Fold(abs, st, cs)| ==> Plain(Fold(abs, st, cs)[i])
    decreases cs
  {
    if cs != [] { FoldPlain(abs, Push(abs, st, cs[0]), cs[1..]); }
  }

  // filepath.Clean is idempotent on strings.
  lemma {:induction false} CleanStringIdempotent(s: string)
    ensures CleanString(CleanString(s)) == CleanString(s)
  {
    var abs := IsAbs(s);
    var cs := Clean(abs, Split(s));
    FoldPlain(abs, [], Split(s));
    CleanIdempotent(abs, Split(s));
    var t := CleanString(s);
    if abs {
      SplitPlain("", Glue(cs));
      assert t == "" + "/" + Glue(cs);
      if cs == [] {
        assert Split(Glue(cs)) == [""];
        assert Split(t) == ["", ""];
        assert Clean(true, ["", ""]) == [];
      } else {
        SplitGlue(cs);
        FoldAppend(true, [], [""], cs);
      }
    } else if cs == [] {
      assert Split(".") == ["."] by { SplitPlain(".", ""); }
    } else {
      SplitGlue(cs);
      assert cs[0] != "";
      assert Glue(cs)[0] == cs[0][0];
    }
  }

  // ---- Rel ----

  function Common(a: Comps, b: Comps): nat {
    if a == [] || b == [] || a[0] != b[0] then 0 else 1 + Common(a[1..], b[1..])
  }

  lemma {:induction false} CommonSpec(a: Comps, b: Comps)
    ensures Common(a, b) <= |a| && Common(a, b) <= |b|
    ensures a[..Common(a, b)] == b[..Common(a, b)]
    ensures Common(a, b) == |a| <==> a <= b
  {
    if a != [] && b != [] && a[0] == b[0] {
      CommonSpec(a[1..], b[1..]);
      assert a == [a[0]] + a[1..] && b == [b[0]] + b[1..];
      assert a <= b <==> a[1..] <= b[1..];
    }
  }

  function Dots(n: nat): Comps { seq(n, i => "..") }

  // The way from base to target, both clean and absolute: up over the rest of base, down the rest of target.
  function RelComps(base: Comps, target: Comps): Comps {
    CommonSpec(base, target);
    var k := Common(base, target);
    Dots(|base| - k) + target[k..]
  }

  // filepath.Rel
  function Rel(base: Comps, target: Comps): string {
    if base == target then "." else Glue(RelComps(base, target))
  }

  // Following the way leads to the target.
  lemma {:induction false} RelRoundTrip(base: Comps, target: Comps)
    requires Normal(true, base) && Normal(true, target)
    ensures Fold(true, base, RelComps(base, target)) == target
  {
    CommonSpec(base, target);
    var k := Common(base, target);
    FoldAppend(true, base, Dots(|base| - k), target[k..]);
    ClimbDots(base, |base| - k);
    assert base[..k] + target[k..] == target;
    CleanFixesNormal(true, base[..k], target[k..]);
  }

  lemma {:induction false} ClimbDots(base: Comps, n: nat)
    requires Normal(true, base) && n <= |base|
    ensures Fold(true, base, Dots(n)) == base[..|base| - n]
  {
    if n > 0 {
      var up := base[..|base| - 1];
      assert Dots(n)[1..] == Dots(n - 1);
      assert Normal(true, up);
      ClimbDots(up, n - 1);
    }
  }

  // The test the code makes on the string Rel returns.
  predicate Escapes(rel: string) { "../" <= rel || rel == ".." }

  lemma {:induction false} GlueStart(cs: Comps)
    requires cs != [] && Plain(cs[0])
    ensures Escapes(Glue(cs)) <==> cs[0] == ".."
  {
    var c, s := cs[0], Glue(cs);
    assert |c| > 2 ==> c[2] in c;
    if |cs| > 1 {
      assert s == c + ("/" + Glue(cs[1..]));
      assert s[|c|] == '/' && s[..|c|] == c;
      assert |c| > 2 ==> c[2] == s[2];
      assert |c| == 2 ==> s[..2] == c && s[2] == '/';
    }
  }

  // The string test is component-wise containment.
  lemma {:induction false} EscapesIffOutside(base: Comps, target: Comps)
    requires Normal(true, base) && Normal(true, target)
    requires forall i :: 0 <= i < |target| ==> Plain(target[i])
    ensures Escapes(Rel(base, target)) <==> !(base <= target)
  {
    CommonSpec(base, target);
    var k := Common(base, target);
    var r := RelComps(base, target);
    if base != target {
      if k < |base| {
        assert r[0] == "..";
      } else {
        assert r == target[k..];
        assert |target| > k;
        assert r[0] == target[k];
      }
      GlueStart(r);
    }
  }
}
