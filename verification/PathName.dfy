/**
 * What the path printers should print: the absolute path of a directory entry, by which a mount is
 * crossed at its own root only. The walk also crosses at the root of a file system, whichever mount it
 * was given, so the two need not agree.
 */
module PathName {
  import opened Machine
  import opened PathWalk

  /** A name a directory entry can have, of any length. */
  predicate Ordinary(name: string) { name != [] && '/' !in name && '\0' !in name }

  /**
   * Names can be read; below a mount's root they are ordinary, a mount's root is called "/" or has an
   * ordinary name (a bind mount).
   */
  ghost predicate Named(f: Forest) {
    forall d :: d in f.dentries ==>
      f.dentries[d].name.Some? && (Ordinary(f.dentries[d].name.value) || (f.dentries[d].name.value == "/"
        && IsRoot(f, d)))
  }

  ghost predicate IsRoot(f: Forest, d: nat) requires d in f.dentries { d == f.dentries[d].parent }

  ghost predicate Reaches(f: Forest, d: nat, m: nat, left: nat)
    requires Closed(f) && d in f.dentries && m in f.mounts
  {
    Walk(f, d, m, left).end.RealRoot?
  }

  /** The real root is exactly `n` steps up. */
  ghost predicate RootAfter(f: Forest, d: nat, m: nat, n: nat)
    requires Closed(f) && d in f.dentries && m in f.mounts
    decreases n
  {
    assert DentryOk(f, d) && MountOk(f, m);
    if AtRoot(f, d, m) && f.mounts[m].parent == m then n == 0
    else n > 0 && if AtRoot(f, d, m) then RootAfter(f, f.mounts[m].mountpoint, f.mounts[m].parent, n - 1)
                  else RootAfter(f, f.dentries[d].parent, m, n - 1)
  }

  /**
   * With readable names the walk reaches the real root if and only if that is less than `left` steps up;
   * otherwise it runs out of slots.
   */
  lemma {:induction false} ReachesIff(f: Forest, d: nat, m: nat, left: nat)
    requires Closed(f) && Named(f) && d in f.dentries && m in f.mounts
    ensures Reaches(f, d, m, left) <==> exists n: nat :: n < left && RootAfter(f, d, m, n)
    ensures !Reaches(f, d, m, left) ==> Walk(f, d, m, left).end.Exhausted? && |Walk(f, d, m, left).names| == left
    decreases left
  {
    if left > 0 {
      assert DentryOk(f, d) && MountOk(f, m);
      if AtRoot(f, d, m) && f.mounts[m].parent == m {
        assert Walk(f, d, m, left).end.RealRoot?;
        assert RootAfter(f, d, m, 0);
        RootWithin(f, d, m, 0, left);
      } else {
        var p := if AtRoot(f, d, m) then f.mounts[m].mountpoint else f.dentries[d].parent;
        var n := if AtRoot(f, d, m) then f.mounts[m].parent else m;
        ReachesIff(f, p, n, left - 1);
        assert Reaches(f, d, m, left) <==> Reaches(f, p, n, left - 1);
        if k: nat :| k < left - 1 && RootAfter(f, p, n, k) { RootWithin(f, d, m, k + 1, left); }
        if k: nat :| k < left && RootAfter(f, d, m, k) { RootWithin(f, p, n, k - 1, left - 1); }
      }
    }
  }

  lemma RootWithin(f: Forest, d: nat, m: nat, n: nat, left: nat)
    requires Closed(f) && d in f.dentries && m in f.mounts && n < left && RootAfter(f, d, m, n)
    ensures exists n: nat :: n < left && RootAfter(f, d, m, n)
  {}

  // ---------- the true path ----------

  /**
   * The components of the absolute path of `d` seen through mount `m`, found in at most `n` steps: the
   * root of a mount stands for its mount point. None if there is none, as when `d` is not below the
   * root of `m`.
   */
  ghost function TruePath(f: Forest, d: nat, m: nat, n: nat): Option<seq<string>>
    requires Closed(f) && Named(f) && d in f.dentries && m in f.mounts
    decreases n
  {
    assert DentryOk(f, d) && MountOk(f, m);
    if d == f.mounts[m].root then
      if f.mounts[m].parent == m then Some([])
      else if n == 0 then None
      else TruePath(f, f.mounts[m].mountpoint, f.mounts[m].parent, n - 1)
    else if IsRoot(f, d) || n == 0 then None
    else
      match TruePath(f, f.dentries[d].parent, m, n - 1)
      case None => None
      case Some(p) => Some(p + [f.dentries[d].name.value])
  }

  ghost predicate HasPath(f: Forest, d: nat, m: nat, p: seq<string>)
    requires Closed(f) && Named(f) && d in f.dentries && m in f.mounts
  {
    exists n: nat :: TruePath(f, d, m, n) == Some(p)
  }

  // ---------- what the walk makes of it ----------

  /** What the walk takes for the components. */
  ghost function Walked(f: Forest, d: nat, m: nat, left: nat): seq<string>
    requires Closed(f) && Named(f) && d in f.dentries && m in f.mounts && Reaches(f, d, m, left)
    decreases left
  {
    assert DentryOk(f, d) && MountOk(f, m);
    if !AtRoot(f, d, m) then Walked(f, f.dentries[d].parent, m, left - 1) + [f.dentries[d].name.value]
    else if f.mounts[m].parent == m then []
    else Walked(f, f.mounts[m].mountpoint, f.mounts[m].parent, left - 1)
  }

  /** Seen through a mount that contains it, they are those of the true path. */
  lemma {:induction false} TruePathIsWalked(f: Forest, d: nat, m: nat, n: nat, left: nat)
    requires Closed(f) && Named(f) && d in f.dentries && m in f.mounts && TruePath(f, d, m, n).Some?
    ensures n < left ==> Reaches(f, d, m, left)
    ensures Reaches(f, d, m, left) ==> TruePath(f, d, m, n) == Some(Walked(f, d, m, left))
    decreases left
  {
    assert DentryOk(f, d) && MountOk(f, m);
    if left > 0 {
      if d != f.mounts[m].root {
        TruePathIsWalked(f, f.dentries[d].parent, m, n - 1, left - 1);
      } else if f.mounts[m].parent != m {
        TruePathIsWalked(f, f.mounts[m].mountpoint, f.mounts[m].parent, n - 1, left - 1);
      }
    }
  }

  /** There is at most one true path through a mount. */
  lemma PathIsUnique(f: Forest, d: nat, m: nat, p: seq<string>, q: seq<string>)
    requires Closed(f) && Named(f) && d in f.dentries && m in f.mounts && HasPath(f, d, m, p) && HasPath(f, d, m, q)
    ensures p == q
  {
    hide TruePath, Walked, Reaches;
    var n: nat :| TruePath(f, d, m, n) == Some(p);
    var k: nat :| TruePath(f, d, m, k) == Some(q);
    TruePathIsWalked(f, d, m, n, n + k + 1);
    TruePathIsWalked(f, d, m, k, n + k + 1);
  }

  /**
   * Every mount root met on the way is called "/"; of the last one, the real root, that is asked only if
   * its slot is printed (`top`).
   */
  ghost predicate RootsAreSlash(f: Forest, d: nat, m: nat, left: nat, top: bool)
    requires Closed(f) && Named(f) && d in f.dentries && m in f.mounts && Reaches(f, d, m, left)
    decreases left
  {
    assert DentryOk(f, d) && MountOk(f, m);
    var slash := f.dentries[d].name.value == "/";
    if !AtRoot(f, d, m) then RootsAreSlash(f, f.dentries[d].parent, m, left - 1, top)
    else if f.mounts[m].parent == m then top ==> slash
    else slash && RootsAreSlash(f, f.mounts[m].mountpoint, f.mounts[m].parent, left - 1, top)
  }

  /** No name of a component on the way is longer than a slot holds. */
  ghost predicate NamesFit(f: Forest, d: nat, m: nat, left: nat)
    requires Closed(f) && Named(f) && d in f.dentries && m in f.mounts && Reaches(f, d, m, left)
    decreases left
  {
    assert DentryOk(f, d) && MountOk(f, m);
    if !AtRoot(f, d, m) then |f.dentries[d].name.value| < NAME_MAX && NamesFit(f, f.dentries[d].parent, m, left - 1)
    else f.mounts[m].parent != m ==> NamesFit(f, f.mounts[m].mountpoint, f.mounts[m].parent, left - 1)
  }

  /** The names as they are shown, topmost first: cut to a slot, and without those called "/". */
  ghost function Shown(f: Forest, d: nat, m: nat, left: nat, top: bool): seq<string>
    requires Closed(f) && Named(f) && d in f.dentries && m in f.mounts && Reaches(f, d, m, left)
    decreases left
  {
    assert DentryOk(f, d) && MountOk(f, m);
    var own := OwnShown(f.dentries[d].name.value);
    if !AtRoot(f, d, m) then Shown(f, f.dentries[d].parent, m, left - 1, top) + own
    else if f.mounts[m].parent == m then (if top then own else [])
    else Shown(f, f.mounts[m].mountpoint, f.mounts[m].parent, left - 1, top) + own
  }

  function OwnShown(name: string): seq<string> { if name == "/" then [] else [Stored(name)] }

  ghost function RealRootName(f: Forest, d: nat, m: nat, left: nat): string
    requires Closed(f) && Named(f) && d in f.dentries && m in f.mounts && Reaches(f, d, m, left)
    decreases left
  {
    assert DentryOk(f, d) && MountOk(f, m);
    if !AtRoot(f, d, m) then RealRootName(f, f.dentries[d].parent, m, left - 1)
    else if f.mounts[m].parent == m then f.dentries[d].name.value
    else RealRootName(f, f.mounts[m].mountpoint, f.mounts[m].parent, left - 1)
  }

  /**
   * What is shown is what the walk takes for the components if and only if all mount roots are called "/" and
   * all names fit.
   */
  lemma {:induction false} ShownIsWalkedIff(f: Forest, d: nat, m: nat, left: nat, top: bool)
    requires Closed(f) && Named(f) && d in f.dentries && m in f.mounts && Reaches(f, d, m, left)
    ensures |Shown(f, d, m, left, top)| >= |Walked(f, d, m, left)|
    ensures RootsAreSlash(f, d, m, left, top) <==> |Shown(f, d, m, left, top)| == |Walked(f, d, m, left)|
    ensures RootsAreSlash(f, d, m, left, top) ==>
              (Shown(f, d, m, left, top) == Walked(f, d, m, left) <==> NamesFit(f, d, m, left))
    ensures RootsAreSlash(f, d, m, left, true) ==> RealRootName(f, d, m, left) == "/"
    decreases left
  {
    assert DentryOk(f, d) && MountOk(f, m);
    if !AtRoot(f, d, m) {
      var p, name := f.dentries[d].parent, f.dentries[d].name.value;
      ShownIsWalkedIff(f, p, m, left - 1, top);
      SameEnds(Shown(f, p, m, left - 1, top), Stored(name), Walked(f, p, m, left - 1), name);
      assert Stored(name) == name <==> |name| < NAME_MAX;
    } else if f.mounts[m].parent != m {
      ShownIsWalkedIff(f, f.mounts[m].mountpoint, f.mounts[m].parent, left - 1, top);
    }
  }

  lemma SameEnds(a: seq<string>, x: string, b: seq<string>, y: string)
    ensures |a| == |b| ==> (a + [x] == b + [y] <==> a == b && x == y)
  {
    if |a| == |b| && a + [x] == b + [y] {
      assert a == (a + [x])[..|a|] && b == (b + [y])[..|b|];
      assert x == (a + [x])[|a|] && y == (b + [y])[|b|];
    }
  }

  ghost predicate AllOrdinary(cs: seq<string>) { forall i :: 0 <= i < |cs| ==> Ordinary(cs[i]) }

  /** The last slash of a joined path is the one before its last component. */
  lemma LastSlash(a: string, x: string, b: string, y: string)
    requires '/' !in x && '/' !in y && a + ("/" + x) == b + ("/" + y)
    ensures a == b && x == y
  {
    var s := a + ("/" + x);
    assert s[|a|] == '/' && forall k :: |a| < k < |s| ==> s[k] == x[k - |a| - 1];
    assert s[|b|] == '/' && forall k :: |b| < k < |s| ==> s[k] == y[k - |b| - 1];
    assert |a| == |b|;
    assert a == s[..|a|] && b == (b + ("/" + y))[..|b|];
    assert x == s[|a| + 1..] && y == (b + ("/" + y))[|b| + 1..];
  }

  /** Different lists of names make different paths. */
  lemma {:induction false} JoinedInjective(a: seq<string>, b: seq<string>)
    requires AllOrdinary(a) && AllOrdinary(b) && Joined(a) == Joined(b)
    ensures a == b
  {
    if a != [] && b != [] {
      var n, k := |a| - 1, |b| - 1;
      assert Joined(a) == Joined(a[..n]) + ("/" + a[n]) && Joined(b) == Joined(b[..k]) + ("/" + b[k]);
      LastSlash(Joined(a[..n]), a[n], Joined(b[..k]), b[k]);
      JoinedInjective(a[..n], b[..k]);
      assert a == a[..n] + [a[n]] && b == b[..k] + [b[k]];
    }
  }

  lemma {:induction false} ShownAreOrdinary(f: Forest, d: nat, m: nat, left: nat, top: bool)
    requires Closed(f) && Named(f) && d in f.dentries && m in f.mounts && Reaches(f, d, m, left)
    ensures AllOrdinary(Shown(f, d, m, left, top)) && AllOrdinary(Walked(f, d, m, left))
    decreases left
  {
    assert DentryOk(f, d) && MountOk(f, m);
    if !AtRoot(f, d, m) {
      ShownAreOrdinary(f, f.dentries[d].parent, m, left - 1, top);
    } else if f.mounts[m].parent != m {
      ShownAreOrdinary(f, f.mounts[m].mountpoint, f.mounts[m].parent, left - 1, top);
    }
  }

  lemma {:induction false} PathIsOrdinary(f: Forest, d: nat, m: nat, n: nat)
    requires Closed(f) && Named(f) && d in f.dentries && m in f.mounts && TruePath(f, d, m, n).Some?
    ensures AllOrdinary(TruePath(f, d, m, n).value)
    decreases n
  {
    assert DentryOk(f, d) && MountOk(f, m);
    if d != f.mounts[m].root {
      PathIsOrdinary(f, f.dentries[d].parent, m, n - 1);
    } else if f.mounts[m].parent != m {
      PathIsOrdinary(f, f.mounts[m].mountpoint, f.mounts[m].parent, n - 1);
    }
  }

  // ---------- printing ----------

  function Joined(cs: seq<string>): string {
    if cs == [] then "" else Joined(cs[..|cs| - 1]) + "/" + cs[|cs| - 1]
  }

  /** Printing peels the lowest slot off last, unless it is the only one. */
  lemma {:induction false} PrintedCons(name: string, names: seq<string>, last: nat, bare: bool)
    requires last >= 1 && |names| <= last
    ensures Printed([name] + names, last, bare) == Printed(names, last - 1, bare) + Piece(name, false)
  {
    var all := [name] + names;
    if names == [] {
      assert all[..0] == [];
      assert Printed([], last, bare) == "";
      assert all[0] == name;
    } else {
      var n := |names| - 1;
      PrintedCons(name, names[..n], last, bare);
      assert all[..n + 1] == [name] + names[..n];
      assert all[n + 1] == names[n];
    }
  }

  /**
   * The printer's output for the slots: the names shown, each after a slash, but a real root with a name of
   * its own may lack the slash.
   */
  ghost predicate Prints(out: string, shown: seq<string>, bareTop: bool) {
    if bareTop then shown != [] && |Joined(shown)| > 0 && out == Joined(shown)[1..] else out == Joined(shown)
  }

  lemma PrintsMore(out: string, shown: seq<string>, bareTop: bool, name: string)
    requires Prints(out, shown, bareTop) && (Ordinary(name) || name == "/")
    ensures Prints(out + Piece(Stored(name), false), shown + OwnShown(name), bareTop)
  {
    hide Joined;
    if name == "/" {
      assert Piece(Stored(name), false) == "" && shown + [] == shown;
    } else {
      assert Stored(name)[0] == name[0] && name[0] in name;
      JoinedStep(shown, Stored(name));
    }
  }

  lemma JoinedStep(cs: seq<string>, name: string)
    ensures Joined(cs + [name]) == Joined(cs) + ("/" + name)
  {
    assert (cs + [name])[..|cs|] == cs;
  }

  /** One slot alone. */
  lemma PrintsOne(name: string, bare: bool)
    requires Ordinary(name) || name == "/"
    ensures Prints(Printed([Stored(name)], 0, bare), OwnShown(name), bare && name != "/")
  {
    assert [Stored(name)][..0] == [];
    assert Printed([], 0, bare) == "" && Joined([]) == "";
    if name != "/" {
      assert Stored(name)[0] == name[0] && name[0] in name;
      JoinedStep([], Stored(name));
      assert [] + [Stored(name)] == [Stored(name)];
    }
  }

  lemma {:induction false} PrintsWhatIsShown(f: Forest, d: nat, m: nat, left: nat, bare: bool)
    requires Closed(f) && Named(f) && d in f.dentries && m in f.mounts && Reaches(f, d, m, left)
    ensures var names := Walk(f, d, m, left).names;
            && names != []
            && Prints(Printed(names, |names| - 1, bare), Shown(f, d, m, left, true),
                      bare && RealRootName(f, d, m, left) != "/")
    decreases left
  {
    hide Printed, Prints, Piece;
    assert DentryOk(f, d) && MountOk(f, m);
    var name := f.dentries[d].name.value;
    if AtRoot(f, d, m) && f.mounts[m].parent == m {
      PrintsOne(name, bare);
    } else {
      var p := if AtRoot(f, d, m) then f.mounts[m].mountpoint else f.dentries[d].parent;
      var n := if AtRoot(f, d, m) then f.mounts[m].parent else m;
      PrintsWhatIsShown(f, p, n, left - 1, bare);
      var rest := Walk(f, p, n, left - 1).names;
      PrintedCons(Stored(name), rest, |rest|, bare);
      PrintsMore(Printed(rest, |rest| - 1, bare), Shown(f, p, n, left - 1, true),
                 bare && RealRootName(f, p, n, left - 1) != "/", name);
    }
  }

  lemma {:induction false} JoinedStarts(cs: seq<string>)
    requires cs != []
    ensures |Joined(cs)| >= 1 + |cs[0]| && Joined(cs)[0] == '/' && Joined(cs)[1..1 + |cs[0]|] == cs[0]
  {
    var n := |cs| - 1;
    if n > 0 {
      JoinedStarts(cs[..n]);
      var front := Joined(cs[..n]);
      assert Joined(cs) == front + "/" + cs[n];
      assert Joined(cs)[1..1 + |cs[0]|] == front[1..1 + |cs[0]|];
    } else {
      assert cs[..0] == [] && Joined([]) == "";
    }
  }

  /** A path whose first slash is missing is no joined path. */
  lemma BareIsNoPath(shown: seq<string>, cs: seq<string>)
    requires AllOrdinary(shown) && AllOrdinary(cs) && shown != [] && |Joined(shown)| > 0
    ensures Joined(shown)[1..] != Joined(cs)
  {
    JoinedStarts(shown);
    assert Joined(shown)[1..][0] == Joined(shown)[1..1 + |shown[0]|][0] == shown[0][0] && shown[0][0] in shown[0];
    if cs != [] { JoinedStarts(cs); } else { assert Joined(cs) == ""; }
  }

  /**
   * The output is the slash-joined list of some ordinary names exactly when that list is shown and no slash
   * is missing.
   */
  lemma PrintsIff(f: Forest, d: nat, m: nat, left: nat, bare: bool, cs: seq<string>)
    requires Closed(f) && Named(f) && d in f.dentries && m in f.mounts && Reaches(f, d, m, left) && AllOrdinary(cs)
    ensures var names := Walk(f, d, m, left).names;
            && names != []
            && (Printed(names, |names| - 1, bare) == Joined(cs)
                <==> Shown(f, d, m, left, true) == cs && (bare ==> RealRootName(f, d, m, left) == "/"))
  {
    hide Walk, Shown, Walked, Closed, Named, Printed, Joined, Reaches, RealRootName, AllOrdinary;
    var shown := Shown(f, d, m, left, true);
    PrintsWhatIsShown(f, d, m, left, bare);
    ShownAreOrdinary(f, d, m, left, true);
    if bare && RealRootName(f, d, m, left) != "/" {
      BareIsNoPath(shown, cs);
    } else if Joined(shown) == Joined(cs) {
      JoinedInjective(shown, cs);
    }
  }

  // ---------- through its own mount ----------

  lemma PathWitness(f: Forest, d: nat, m: nat, p: seq<string>) returns (n: nat)
    requires Closed(f) && Named(f) && d in f.dentries && m in f.mounts && HasPath(f, d, m, p)
    ensures TruePath(f, d, m, n) == Some(p)
  {
    n :| TruePath(f, d, m, n) == Some(p);
  }

  /**
   * For an entry seen through a mount that contains it, across any number of mounts: when the walk reaches
   * the real root, the slots print as the absolute path if and only if every mount root on the way is
   * called "/" and no name of a component was cut.
   */
  lemma PrintsThePathIff(f: Forest, d: nat, m: nat, left: nat, bare: bool, p: seq<string>)
    requires Closed(f) && Named(f) && d in f.dentries && m in f.mounts && Reaches(f, d, m, left) && HasPath(f, d, m, p)
    ensures var names := Walk(f, d, m, left).names;
            && names != []
            && (Printed(names, |names| - 1, bare) == Joined(p)
                <==> RootsAreSlash(f, d, m, left, true) && NamesFit(f, d, m, left))
  {
    var n := PathWitness(f, d, m, p);
    hide Walk, Shown, Walked, RootsAreSlash, NamesFit, Closed, Named, Printed, Joined, Reaches, RealRootName, TruePath,
      HasPath;
    TruePathIsWalked(f, d, m, n, left);
    PathIsOrdinary(f, d, m, n);
    PrintsIff(f, d, m, left, bare, p);
    ShownIsWalkedIff(f, d, m, left, true);
  }

  function AbsolutePath(cs: seq<string>): string { if cs == [] then "/" else Joined(cs) }

  /** The root directory itself is the exception: it prints as nothing, not as "/". */
  lemma PrintsAbsolutePathIff(f: Forest, d: nat, m: nat, left: nat, bare: bool, p: seq<string>)
    requires Closed(f) && Named(f) && d in f.dentries && m in f.mounts && Reaches(f, d, m, left) && HasPath(f, d, m, p)
    requires RootsAreSlash(f, d, m, left, true) && NamesFit(f, d, m, left)
    ensures var names := Walk(f, d, m, left).names;
            names != [] && (Printed(names, |names| - 1, bare) == AbsolutePath(p) <==> p != [])
  {
    hide Printed, Walk, RootsAreSlash, NamesFit, HasPath;
    PrintsThePathIff(f, d, m, left, bare, p);
  }

  // ---------- through another mount ----------

  /** The walk from `d` with mount `m` comes to `r` after `k` steps, having crossed no mount. */
  ghost predicate Passes(f: Forest, d: nat, m: nat, r: nat, k: nat)
    requires Closed(f) && d in f.dentries && m in f.mounts
    decreases k
  {
    assert DentryOk(f, d);
    if k == 0 then d == r else d != r && !AtRoot(f, d, m) && Passes(f, f.dentries[d].parent, m, r, k - 1)
  }

  /** The names of `d` and of the `k - 1` entries above it, topmost first. */
  ghost function Below(f: Forest, d: nat, k: nat): seq<string>
    requires Closed(f) && Named(f) && d in f.dentries
    decreases k
  {
    assert DentryOk(f, d);
    if k == 0 then [] else Below(f, f.dentries[d].parent, k - 1) + [f.dentries[d].name.value]
  }

  function Cut(names: seq<string>): (r: seq<string>)
    ensures |r| == |names| && forall i :: 0 <= i < |names| ==> r[i] == Stored(names[i])
  {
    if names == [] then [] else Cut(names[..|names| - 1]) + [Stored(names[|names| - 1])]
  }

  ghost predicate AllFit(names: seq<string>) { forall i :: 0 <= i < |names| ==> |names[i]| < NAME_MAX }

  lemma CutIff(names: seq<string>)
    ensures Cut(names) == names <==> AllFit(names)
  {
    assert forall i :: 0 <= i < |names| ==> (Stored(names[i]) == names[i] <==> |names[i]| < NAME_MAX);
    if AllFit(names) { assert forall i :: 0 <= i < |names| ==> Cut(names)[i] == names[i]; }
    if Cut(names) == names { assert forall i :: 0 <= i < |names| ==> Cut(names)[i] == names[i]; }
  }

  /** What is shown is what would be shown for `r`, and the names below it. */
  lemma {:induction false} ShownSplits(f: Forest, d: nat, m: nat, r: nat, k: nat, left: nat)
    requires Closed(f) && Named(f) && d in f.dentries && m in f.mounts && r in f.dentries
    requires Passes(f, d, m, r, k) && Reaches(f, d, m, left)
    ensures k < left && Reaches(f, r, m, left - k)
    ensures Shown(f, d, m, left, true) == Shown(f, r, m, left - k, true) + Cut(Below(f, d, k))
    ensures RealRootName(f, d, m, left) == RealRootName(f, r, m, left - k)
    decreases k
  {
    hide Cut, Stored;
    assert DentryOk(f, d) && MountOk(f, m);
    if k == 0 {
      NothingCut(Shown(f, r, m, left, true));
    } else {
      var p, name := f.dentries[d].parent, f.dentries[d].name.value;
      ShownSplits(f, p, m, r, k - 1, left - 1);
      CutMore(Shown(f, r, m, left - k, true), Below(f, p, k - 1), name);
    }
  }

  lemma NothingCut(above: seq<string>)
    ensures above + Cut([]) == above
  {}

  lemma CutMore(above: seq<string>, names: seq<string>, name: string)
    ensures above + Cut(names + [name]) == above + Cut(names) + [Stored(name)]
  {
    assert (names + [name])[..|names|] == names;
  }

  lemma {:induction false} BelowLength(f: Forest, d: nat, k: nat)
    requires Closed(f) && Named(f) && d in f.dentries
    ensures |Below(f, d, k)| == k
    decreases k
  {
    assert DentryOk(f, d);
    if k > 0 { BelowLength(f, f.dentries[d].parent, k - 1); }
  }

  /** The true path through the entry's own mount is that of the mount's root, and the same names below it. */
  lemma {:induction false} PathSplits(f: Forest, d: nat, m: nat, own: nat, k: nat, n: nat)
    requires Closed(f) && Named(f) && d in f.dentries && m in f.mounts && own in f.mounts
    requires f.mounts[own].root in f.dentries && Passes(f, d, m, f.mounts[own].root, k) && TruePath(f, d, own, n).Some?
    ensures k <= n && TruePath(f, f.mounts[own].root, own, n - k).Some?
    ensures TruePath(f, d, own, n).value == TruePath(f, f.mounts[own].root, own, n - k).value + Below(f, d, k)
    decreases k
  {
    assert DentryOk(f, d) && MountOk(f, m);
    if k == 0 {
      assert TruePath(f, d, own, n).value + [] == TruePath(f, d, own, n).value;
    } else {
      PathSplits(f, f.dentries[d].parent, m, own, k - 1, n - 1);
    }
  }

  lemma SameTails<T>(a: seq<T>, x: seq<T>, b: seq<T>, y: seq<T>)
    requires |x| == |y|
    ensures a + x == b + y <==> a == b && x == y
  {
    if a + x == b + y {
      assert |a| == |b|;
      assert a == (a + x)[..|a|] && b == (b + y)[..|b|];
      assert x == (a + x)[|a|..] && y == (b + y)[|b|..];
    }
  }

  /**
   * The root of `own`, given with `m`, is shown as its own absolute path `q`; no name of the `k` entries from
   * `d` up to it is cut, and no slash is missing.
   */
  ghost predicate RootShownRight(f: Forest, d: nat, m: nat, own: nat, k: nat, left: nat, bare: bool, q: seq<string>)
    requires Closed(f) && Named(f) && d in f.dentries && m in f.mounts && own in f.mounts
    requires f.mounts[own].root in f.dentries
  {
    var r := f.mounts[own].root;
    && k < left && Reaches(f, r, m, left - k) && Shown(f, r, m, left - k, true) == q
    && AllFit(Below(f, d, k)) && (bare ==> RealRootName(f, r, m, left - k) == "/")
  }

  /**
   * For an entry of mount `own` given with any mount `m` whose root is not on the way to the root of `own`:
   * the output is the absolute path if and only if the root of `own` itself is shown right.
   */
  lemma OtherMountPrintsIff(f: Forest, d: nat, m: nat, own: nat, k: nat, left: nat, bare: bool,
                            p: seq<string>, q: seq<string>)
    requires Closed(f) && Named(f) && d in f.dentries && m in f.mounts && own in f.mounts
    requires f.mounts[own].root in f.dentries && HasPath(f, d, own, p) && HasPath(f, f.mounts[own].root, own, q)
    requires Passes(f, d, m, f.mounts[own].root, k) && Reaches(f, d, m, left)
    ensures var names := Walk(f, d, m, left).names;
            && names != []
            && (Printed(names, |names| - 1, bare) == Joined(p) <==> RootShownRight(f, d, m, own, k, left, bare, q))
  {
    hide Walk, Shown, Closed, Named, Printed, Joined, Reaches, RealRootName, TruePath, HasPath, Passes, Below, AllFit;
    ShownSplits(f, d, m, f.mounts[own].root, k, left);
    OtherMountShownIff(f, d, m, own, k, left, p, q);
    var n := PathWitness(f, d, own, p);
    PathIsOrdinary(f, d, own, n);
    PrintsIff(f, d, m, left, bare, p);
  }

  lemma OtherMountShownIff(f: Forest, d: nat, m: nat, own: nat, k: nat, left: nat, p: seq<string>, q: seq<string>)
    requires Closed(f) && Named(f) && d in f.dentries && m in f.mounts && own in f.mounts
    requires f.mounts[own].root in f.dentries && HasPath(f, d, own, p) && HasPath(f, f.mounts[own].root, own, q)
    requires Passes(f, d, m, f.mounts[own].root, k) && Reaches(f, d, m, left)
    requires k < left && Reaches(f, f.mounts[own].root, m, left - k)
    ensures Shown(f, d, m, left, true) == p
            <==> Shown(f, f.mounts[own].root, m, left - k, true) == q && AllFit(Below(f, d, k))
  {
    hide Shown, Closed, Named, Reaches, TruePath, HasPath, Passes, Below, AllFit, Cut;
    var r := f.mounts[own].root;
    var n := PathWitness(f, d, own, p);
    ShownSplits(f, d, m, r, k, left);
    PathSplits(f, d, m, own, k, n);
    PathIsFound(f, r, own, n - k);
    PathIsUnique(f, r, own, q, TruePath(f, r, own, n - k).value);
    SameTails(Shown(f, r, m, left - k, true), Cut(Below(f, d, k)), q, Below(f, d, k));
    CutIff(Below(f, d, k));
  }

  lemma PathIsFound(f: Forest, d: nat, m: nat, n: nat)
    requires Closed(f) && Named(f) && d in f.dentries && m in f.mounts && TruePath(f, d, m, n).Some?
    ensures HasPath(f, d, m, TruePath(f, d, m, n).value)
  {
    hide TruePath;
  }

  /** What is shown for the mount point of `m`. */
  ghost function MountPointShown(f: Forest, m: nat, left: nat): seq<string>
    requires Closed(f) && Named(f) && m in f.mounts && MountOk(f, m)
    requires f.mounts[m].parent != m ==> left > 0 && Reaches(f, f.mounts[m].mountpoint, f.mounts[m].parent, left - 1)
  {
    if f.mounts[m].parent == m then []
    else Shown(f, f.mounts[m].mountpoint, f.mounts[m].parent, left - 1, true)
  }

  /** The root of a file system, called "/", adds nothing to what is shown for the mount point. */
  lemma WholeFileSystemShown(f: Forest, r: nat, m: nat, left: nat)
    requires Closed(f) && Named(f) && r in f.dentries && m in f.mounts && Reaches(f, r, m, left)
    requires IsRoot(f, r) && f.dentries[r].name == Some("/")
    ensures MountOk(f, m)
    ensures f.mounts[m].parent != m ==> left > 0 && Reaches(f, f.mounts[m].mountpoint, f.mounts[m].parent, left - 1)
    ensures Shown(f, r, m, left, true) == MountPointShown(f, m, left)
  {
    assert DentryOk(f, r) && MountOk(f, m);
    if f.mounts[m].parent != m {
      var up := Shown(f, f.mounts[m].mountpoint, f.mounts[m].parent, left - 1, true);
      assert up + [] == up;
    }
  }

  /**
   * A file system mounted whole: an entry of it given with a mount that does not contain it prints as its
   * path if and only if what is shown for the mount point of that mount is the path of its own mount point
   * (and no name is cut, and no slash missing).
   */
  lemma WholeMountPrintsIff(f: Forest, d: nat, m: nat, own: nat, k: nat, left: nat, bare: bool,
                            p: seq<string>, q: seq<string>)
    requires Closed(f) && Named(f) && d in f.dentries && m in f.mounts && own in f.mounts && MountOk(f, m)
    requires MountOk(f, own) && f.mounts[own].parent != own && HasPath(f, d, own, p)
    requires HasPath(f, f.mounts[own].mountpoint, f.mounts[own].parent, q)
    requires IsRoot(f, f.mounts[own].root) && f.dentries[f.mounts[own].root].name == Some("/")
    requires Passes(f, d, m, f.mounts[own].root, k) && Reaches(f, d, m, left)
    ensures k < left && Reaches(f, f.mounts[own].root, m, left - k)
    ensures f.mounts[m].parent != m ==> k < left && Reaches(f, f.mounts[m].mountpoint, f.mounts[m].parent, left - k - 1)
    ensures var names := Walk(f, d, m, left).names;
            && names != []
            && (Printed(names, |names| - 1, bare) == Joined(p)
                <==> && MountPointShown(f, m, left - k) == q && AllFit(Below(f, d, k))
                     && (bare ==> RealRootName(f, f.mounts[own].root, m, left - k) == "/"))
  {
    hide Walk, Shown, Closed, Named, Printed, Joined, Reaches, RealRootName, HasPath, Passes, Below, AllFit,
      MountPointShown;
    ShownSplits(f, d, m, f.mounts[own].root, k, left);
    WholeFileSystemShown(f, f.mounts[own].root, m, left - k);
    RootHasMountPointPath(f, own, q);
    OtherMountPrintsIff(f, d, m, own, k, left, bare, p, q);
  }

  lemma RootHasMountPointPath(f: Forest, m: nat, q: seq<string>)
    requires Closed(f) && Named(f) && m in f.mounts && MountOk(f, m) && f.mounts[m].parent != m
    requires HasPath(f, f.mounts[m].mountpoint, f.mounts[m].parent, q)
    ensures HasPath(f, f.mounts[m].root, m, q)
  {
    var n: nat :| TruePath(f, f.mounts[m].mountpoint, f.mounts[m].parent, n) == Some(q);
    assert TruePath(f, f.mounts[m].root, m, n + 1) == Some(q);
  }

  /**
   * Given with two mounts neither of which contains it, an entry is shown alike if and only if the mount
   * points are.
   */
  lemma TwoMountsAgreeIff(f: Forest, d: nat, m: nat, m': nat, r: nat, k: nat, left: nat)
    requires Closed(f) && Named(f) && d in f.dentries && m in f.mounts && m' in f.mounts && r in f.dentries
    requires Passes(f, d, m, r, k) && Passes(f, d, m', r, k) && IsRoot(f, r) && f.dentries[r].name == Some("/")
    requires Reaches(f, d, m, left) && Reaches(f, d, m', left)
    ensures MountOk(f, m) && MountOk(f, m') && k < left
    ensures f.mounts[m].parent != m ==> k < left && Reaches(f, f.mounts[m].mountpoint, f.mounts[m].parent, left - k - 1)
    ensures f.mounts[m'].parent != m' ==>
              k < left && Reaches(f, f.mounts[m'].mountpoint, f.mounts[m'].parent, left - k - 1)
    ensures Shown(f, d, m, left, true) == Shown(f, d, m', left, true)
            <==> MountPointShown(f, m, left - k) == MountPointShown(f, m', left - k)
  {
    hide Shown, Below, Passes, Reaches, Closed, Named, Cut;
    ShownSplits(f, d, m, r, k, left);
    ShownSplits(f, d, m', r, k, left);
    WholeFileSystemShown(f, r, m, left - k);
    WholeFileSystemShown(f, r, m', left - k);
    hide MountPointShown;
    SameTails(Shown(f, r, m, left - k, true), Cut(Below(f, d, k)), Shown(f, r, m', left - k, true), Cut(Below(f, d,
      k)));
  }

  // ---------- end to end ----------

  /** `own` is a mount of the entry: `p` is its path through it, `q` that of the mount's root, `k` levels above it. */
  ghost predicate IsOwn(f: Forest, d: nat, m: nat, own: nat, k: nat, p: seq<string>, q: seq<string>)
    requires Closed(f) && Named(f) && d in f.dentries && m in f.mounts
  {
    && own in f.mounts && f.mounts[own].root in f.dentries && HasPath(f, d, own, p)
    && HasPath(f, f.mounts[own].root, own, q) && Passes(f, d, m, f.mounts[own].root, k)
  }

  lemma OwnPrintsIff(f: Forest, d: nat, m: nat, own: nat, k: nat, left: nat, bare: bool, p: seq<string>, q: seq<string>)
    requires Closed(f) && Named(f) && d in f.dentries && m in f.mounts && Reaches(f, d, m, left)
    requires IsOwn(f, d, m, own, k, p, q)
    ensures own in f.mounts && f.mounts[own].root in f.dentries
    ensures var names := Walk(f, d, m, left).names;
            && names != []
            && (Printed(names, |names| - 1, bare) == Joined(p) <==> RootShownRight(f, d, m, own, k, left, bare, q))
  {
    hide Walk, Closed, Named, Printed, Joined, Reaches, HasPath, Passes, RootShownRight;
    OtherMountPrintsIff(f, d, m, own, k, left, bare, p, q);
  }

  /**
   * Walking up and printing down, end to end: what is printed for any forest; when it is the path; and
   * that a walk which runs out of slots prints a space for the part it did not see.
   */
  method FullPath(f: Forest, dentry: nat, mnt: nat, buf: array<char>) returns (out: string)
    requires Closed(f) && dentry in f.dentries && mnt in f.mounts
    requires buf.Length == NAME_MAX * MAX_PATH_DEPTH
    modifies buf
    ensures var t := Walk(f, dentry, mnt, MAX_PATH_DEPTH);
            && (t.end.Exhausted? ==> out == "/ " + Printed(t.names, MAX_PATH_DEPTH, false))
            && (!t.end.Exhausted? ==>
                  t.names != [] && out == Printed(t.names, |t.names| - 1, |t.names| == MAX_PATH_DEPTH))
    ensures Named(f) && Reaches(f, dentry, mnt, MAX_PATH_DEPTH) ==>
              forall p :: HasPath(f, dentry, mnt, p) ==>
                (out == Joined(p)
                 <==> RootsAreSlash(f, dentry, mnt, MAX_PATH_DEPTH, true) && NamesFit(f, dentry, mnt, MAX_PATH_DEPTH))
    ensures Named(f) && Reaches(f, dentry, mnt, MAX_PATH_DEPTH) ==>
              var bare := |Walk(f, dentry, mnt, MAX_PATH_DEPTH).names| == MAX_PATH_DEPTH;
              forall own, k: nat, p, q :: IsOwn(f, dentry, mnt, own, k, p, q) ==>
                (out == Joined(p) <==> RootShownRight(f, dentry, mnt, own, k, MAX_PATH_DEPTH, bare, q))
  {
    hide RootsAreSlash, NamesFit, Printed, Closed, Named, Walk, HasPath, IsOwn, RootShownRight;
    NothingHeld(buf[..]);
    var depth, failed := DentryFullPath(f, dentry, mnt, MAX_PATH_DEPTH, buf, 0, []);
    ghost var t := Walk(f, dentry, mnt, MAX_PATH_DEPTH);
    assert [] + t.names == t.names;
    WalkLength(f, dentry, mnt, MAX_PATH_DEPTH);
    if Named(f) && Reaches(f, dentry, mnt, MAX_PATH_DEPTH) {
      forall p | HasPath(f, dentry, mnt, p)
        ensures Printed(t.names, |t.names| - 1, depth == MAX_PATH_DEPTH - 1) == Joined(p)
                <==> RootsAreSlash(f, dentry, mnt, MAX_PATH_DEPTH, true) && NamesFit(f, dentry, mnt, MAX_PATH_DEPTH)
      {
        PrintsThePathIff(f, dentry, mnt, MAX_PATH_DEPTH, depth == MAX_PATH_DEPTH - 1, p);
      }
      forall own, k: nat, p, q | IsOwn(f, dentry, mnt, own, k, p, q)
        ensures own in f.mounts && f.mounts[own].root in f.dentries
        ensures Printed(t.names, |t.names| - 1, depth == MAX_PATH_DEPTH - 1) == Joined(p)
                <==> RootShownRight(f, dentry, mnt, own, k, MAX_PATH_DEPTH, depth == MAX_PATH_DEPTH - 1, q)
      {
        OwnPrintsIff(f, dentry, mnt, own, k, MAX_PATH_DEPTH, depth == MAX_PATH_DEPTH - 1, p, q);
      }
    }
    out := PrintFullPath(buf, depth, failed, t.names);
    if t.end.Exhausted? { SpaceFirst(t.names); }
  }

  lemma {:induction false} WalkLength(f: Forest, d: nat, m: nat, left: nat)
    requires Closed(f) && d in f.dentries && m in f.mounts
    ensures var t := Walk(f, d, m, left); if t.end.Exhausted? then |t.names| == left else 1 <= |t.names| <= left
    decreases left
  {
    if left > 0 {
      assert DentryOk(f, d) && MountOk(f, m);
      WalkLength(f, f.dentries[d].parent, m, left - 1);
      WalkLength(f, f.mounts[m].mountpoint, f.mounts[m].parent, left - 1);
    }
  }

  lemma SpaceFirst(names: seq<string>)
    requires |names| == MAX_PATH_DEPTH
    ensures Printed(names + [" "], MAX_PATH_DEPTH, false) == "/ " + Printed(names, MAX_PATH_DEPTH, false)
  {
    assert (names + [" "])[..|names|] == names;
    assert Piece(" ", false) == "/ ";
  }

  // ---------- a relative name and the working directory ----------

  /** Without a slash to drop, it does not matter which slot is the topmost. */
  lemma {:induction false} LastIsIrrelevant(names: seq<string>, last: nat, last': nat)
    ensures Printed(names, last, false) == Printed(names, last', false)
  {
    if names != [] { LastIsIrrelevant(names[..|names| - 1], last, last'); }
  }

  /** All slots but that of the real root print as what is shown without it. */
  lemma {:induction false} PrintsWithoutTop(f: Forest, d: nat, m: nat, left: nat, last: nat)
    requires Closed(f) && Named(f) && d in f.dentries && m in f.mounts && Reaches(f, d, m, left)
    ensures var names := Walk(f, d, m, left).names;
            names != [] && Printed(names[..|names| - 1], last, false) == Joined(Shown(f, d, m, left, false))
    decreases left
  {
    hide Printed, Piece, Joined;
    assert DentryOk(f, d) && MountOk(f, m);
    var name := f.dentries[d].name.value;
    if AtRoot(f, d, m) && f.mounts[m].parent == m {
      assert [Stored(name)][..0] == [];
      NothingPrinted(last, false);
      NothingJoined();
    } else {
      var p := if AtRoot(f, d, m) then f.mounts[m].mountpoint else f.dentries[d].parent;
      var n := if AtRoot(f, d, m) then f.mounts[m].parent else m;
      PrintsWithoutTop(f, p, n, left - 1, last);
      var names, rest := Walk(f, d, m, left).names, Walk(f, p, n, left - 1).names;
      var inner := rest[..|rest| - 1];
      assert names[..|names| - 1] == [Stored(name)] + inner;
      PrintedCons(Stored(name), inner, |inner| + 1, false);
      LastIsIrrelevant([Stored(name)] + inner, last, |inner| + 1);
      LastIsIrrelevant(inner, last, |inner|);
      PrintsMore(Printed(inner, last, false), Shown(f, p, n, left - 1, false), false, name);
    }
  }

  lemma NothingJoined()
    ensures Joined([]) == ""
  {}

  /**
   * `bpf_getcwd` for a relative name, as opensnoop uses it: the name is in slot 0 and the directories go to
   * the slots from 1 on, but the depth is counted as if from slot 0, so the topmost slot is not printed. The
   * output is the path of the directory and the name if and only if the mount roots below the real root are
   * called "/" and no name is cut: the slot that is lost is the one that prints as nothing.
   */
  method OpenedPath(f: Forest, name: string, cwd: nat, mnt: nat, buf: array<char>) returns (out: string)
    requires Closed(f) && cwd in f.dentries && mnt in f.mounts && buf.Length == NAME_MAX * MAX_PATH_DEPTH
    requires name != [] && name[0] != '/' && '\0' !in name && |name| < NAME_MAX
    modifies buf
    ensures var t := Walk(f, cwd, mnt, MAX_PATH_DEPTH - 1);
            && (t.end.Exhausted? ==> out == Printed([name] + t.names, MAX_PATH_DEPTH - 1, true))
            && (!t.end.Exhausted? ==>
                  t.names != [] && out == Printed(t.names[..|t.names| - 1], 0, false) + ("/" + name))
    ensures Named(f) && Reaches(f, cwd, mnt, MAX_PATH_DEPTH - 1) ==>
              forall p :: HasPath(f, cwd, mnt, p) ==>
                (out == Joined(p) + ("/" + name)
                 <==> && RootsAreSlash(f, cwd, mnt, MAX_PATH_DEPTH - 1, false)
                      && NamesFit(f, cwd, mnt, MAX_PATH_DEPTH - 1))
  {
    hide RootsAreSlash, NamesFit, Printed, Closed, Named, Walk, HasPath, Holds, HoldsAll, Piece, Joined;
    var length := ReadName(buf, 0, Some(name));
    HoldsOne(buf[..], name);
    var depth, failed := DentryFullPath(f, cwd, mnt, MAX_PATH_DEPTH - 1, buf, 1, [name]);
    ghost var t := Walk(f, cwd, mnt, MAX_PATH_DEPTH - 1);
    WalkLength(f, cwd, mnt, MAX_PATH_DEPTH - 1);
    ghost var slots := ([name] + t.names)[..depth + 1];
    HoldsFewer(buf[..], [name] + t.names, depth + 1);
    out := PrintFullPath(buf, depth, failed, slots);
    if t.end.Exhausted? {
      assert slots == [name] + t.names;
    } else {
      RelativeName(name, t.names);
      ghost var inner := Printed(t.names[..|t.names| - 1], 0, false);
      assert slots == [name] + t.names[..|t.names| - 1];
      if Named(f) && Reaches(f, cwd, mnt, MAX_PATH_DEPTH - 1) {
        forall p | HasPath(f, cwd, mnt, p)
          ensures Printed(t.names[..|t.names| - 1], 0, false) == Joined(p)
                  <==> && RootsAreSlash(f, cwd, mnt, MAX_PATH_DEPTH - 1, false)
                       && NamesFit(f, cwd, mnt, MAX_PATH_DEPTH - 1)
        {
          DirectoryIff(f, cwd, mnt, MAX_PATH_DEPTH - 1, p);
        }
        forall p: seq<string> ensures inner + ("/" + name) == Joined(p) + ("/" + name) <==> inner == Joined(p) {
          SameTails(inner, "/" + name, Joined(p), "/" + name);
        }
      }
    }
  }

  lemma HoldsOne(buf: seq<char>, name: string)
    requires Holds(buf, 0, Stored(name)) && |name| < NAME_MAX
    ensures HoldsAll(buf, [name])
  {}

  lemma HoldsFewer(buf: seq<char>, names: seq<string>, n: nat)
    requires HoldsAll(buf, names) && n <= |names|
    ensures HoldsAll(buf, names[..n])
  {}

  lemma RelativeName(name: string, names: seq<string>)
    requires name != [] && name[0] != '/' && names != []
    ensures Printed([name] + names[..|names| - 1], |names| - 1, false)
         == Printed(names[..|names| - 1], 0, false) + ("/" + name)
  {
    assert Piece(name, false) == "/" + name;
    hide Printed, Piece;
    var inner := names[..|names| - 1];
    PrintedCons(name, inner, |names|, false);
    LastIsIrrelevant([name] + inner, |names| - 1, |names|);
    LastIsIrrelevant(inner, |names| - 1, 0);
  }

  lemma DirectoryIff(f: Forest, d: nat, m: nat, left: nat, p: seq<string>)
    requires Closed(f) && Named(f) && d in f.dentries && m in f.mounts && Reaches(f, d, m, left) && HasPath(f, d, m, p)
    ensures var names := Walk(f, d, m, left).names;
            && names != []
            && (Printed(names[..|names| - 1], 0, false) == Joined(p)
                <==> RootsAreSlash(f, d, m, left, false) && NamesFit(f, d, m, left))
  {
    var n := PathWitness(f, d, m, p);
    hide Walk, Shown, Walked, RootsAreSlash, NamesFit, Closed, Named, Printed, Joined, Reaches, TruePath, HasPath;
    TruePathIsWalked(f, d, m, n, left);
    PathIsOrdinary(f, d, m, n);
    PrintsWithoutTop(f, d, m, left, 0);
    ShownIsWalkedIff(f, d, m, left, false);
    ShownAreOrdinary(f, d, m, left, false);
    if Joined(Shown(f, d, m, left, false)) == Joined(p) { JoinedInjective(Shown(f, d, m, left, false), p); }
  }

  // ---------- wrong paths ----------

  /** `/mnt` is a bind mount of the directory 3, called "data", of another file system; 4 is a file in it. */
  const BIND := Forest(map[0 := Dentry(Some("/"), 0), 1 := Dentry(Some("mnt"), 0), 2 := Dentry(Some("/"), 2),
                           3 := Dentry(Some("data"), 2), 4 := Dentry(Some("f"), 3)],
                       map[0 := Mount(0, 0, 0), 1 := Mount(3, 1, 0)])

  lemma BindIsNamed()
    ensures Closed(BIND) && Named(BIND)
  {}

  /** The file /mnt/f is printed as /mnt/data/f. */
  lemma BindMountShowsItsRoot()
    ensures Closed(BIND) && Named(BIND) && Reaches(BIND, 4, 1, MAX_PATH_DEPTH)
    ensures HasPath(BIND, 4, 1, ["mnt", "f"]) && Joined(["mnt", "f"]) == "/mnt/f"
    ensures var names := Walk(BIND, 4, 1, MAX_PATH_DEPTH).names; Printed(names, |names| - 1, false) == "/mnt/data/f"
  {
    BindIsNamed();
    assert Walk(BIND, 0, 0, 29) == Trail(["/"], RealRoot);
    assert Walk(BIND, 1, 0, 30) == Trail(["mnt", "/"], RealRoot);
    assert Walk(BIND, 3, 1, 31) == Trail(["data", "mnt", "/"], RealRoot);
    assert Walk(BIND, 4, 1, 32) == Trail(["f", "data", "mnt", "/"], RealRoot);
    BindPieces();
    assert [] + ["mnt"] == ["mnt"] && ["mnt"] + ["f"] == ["mnt", "f"];
    assert TruePath(BIND, 0, 0, 0) == Some([]);
    assert TruePath(BIND, 1, 0, 1) == Some(["mnt"]);
    assert TruePath(BIND, 3, 1, 2) == Some(["mnt"]);
    assert TruePath(BIND, 4, 1, 3) == Some(["mnt", "f"]);
  }

  lemma BindPieces()
    ensures Printed(["f", "data", "mnt", "/"], 3, false) == "/mnt/data/f" && Joined(["mnt", "f"]) == "/mnt/f"
  {
    var names := ["f", "data", "mnt", "/"];
    assert names[..3] == ["f", "data", "mnt"] && names[..3][..2] == ["f", "data"] && ["f", "data"][..1] == ["f"]
           && ["f"][..0] == [];
    assert Printed(["f"], 3, false) == "/f";
    assert Printed(["f", "data"], 3, false) == "/data/f";
    assert Printed(["f", "data", "mnt"], 3, false) == "/mnt/data/f";
    assert ["mnt", "f"][..1] == ["mnt"] && ["mnt"][..0] == [];
    assert Joined(["mnt"]) == "/mnt";
  }

  /** A file system is mounted on `/mnt`; 3 is a file in it. */
  const OTHER := Forest(map[0 := Dentry(Some("/"), 0), 1 := Dentry(Some("mnt"), 0), 2 := Dentry(Some("/"), 2),
                            3 := Dentry(Some("f"), 2)],
                        map[0 := Mount(0, 0, 0), 1 := Mount(2, 1, 0)])

  lemma OtherIsNamed()
    ensures Closed(OTHER) && Named(OTHER)
  {}

  /** The file /mnt/f, given with the mount of a working directory on the root file system, is printed as /f. */
  lemma OtherMountLosesThePrefix()
    ensures Closed(OTHER) && Named(OTHER) && HasPath(OTHER, 3, 1, ["mnt", "f"]) && Reaches(OTHER, 3, 0, MAX_PATH_DEPTH)
    ensures RootsAreSlash(OTHER, 3, 0, MAX_PATH_DEPTH, true) && NamesFit(OTHER, 3, 0, MAX_PATH_DEPTH)
    ensures var names := Walk(OTHER, 3, 0, MAX_PATH_DEPTH).names; Printed(names, |names| - 1, false) == "/f"
  {
    OtherIsNamed();
    assert Walk(OTHER, 2, 0, 31) == Trail(["/"], RealRoot);
    assert Walk(OTHER, 3, 0, 32) == Trail(["f", "/"], RealRoot);
    assert ["f", "/"][..1] == ["f"] && ["f"][..0] == [];
    assert Printed(["f"], 1, false) == "/f";
    assert [] + ["mnt"] == ["mnt"] && ["mnt"] + ["f"] == ["mnt", "f"];
    assert TruePath(OTHER, 0, 0, 0) == Some([]);
    assert TruePath(OTHER, 1, 0, 1) == Some(["mnt"]);
    assert TruePath(OTHER, 2, 1, 2) == Some(["mnt"]);
    assert TruePath(OTHER, 3, 1, 3) == Some(["mnt", "f"]);
  }

  /** The root directory itself is printed as nothing. */
  lemma RootPrintsAsNothing(bare: bool)
    ensures Closed(BIND) && Reaches(BIND, 0, 0, MAX_PATH_DEPTH)
    ensures var names := Walk(BIND, 0, 0, MAX_PATH_DEPTH).names; Printed(names, |names| - 1, bare) == ""
  {
    BindIsNamed();
    assert ["/"][..0] == [];
    assert Printed(["/"], 0, bare) == "";
  }

  /** The one file of the root directory has a name of 255 bytes, which a file system allows. */
  const LONG := Forest(map[0 := Dentry(Some("/"), 0), 1 := Dentry(Some(Repeat('a', NAME_MAX)), 0)], map[0 := Mount(0,
    0, 0)])

  lemma LongIsNamed()
    ensures Closed(LONG) && Named(LONG)
  {
    hide Repeat;
    assert Repeat('a', NAME_MAX) != [];
  }

  /** Its path is printed without its last byte. */
  lemma LongNameIsCut(bare: bool)
    ensures Closed(LONG) && Named(LONG) && Reaches(LONG, 1, 0, MAX_PATH_DEPTH)
    ensures var names := Walk(LONG, 1, 0, MAX_PATH_DEPTH).names;
            && HasPath(LONG, 1, 0, [Repeat('a', NAME_MAX)])
            && names != [] && Printed(names, |names| - 1, bare) != Joined([Repeat('a', NAME_MAX)])
  {
    hide Repeat, Stored, Printed, Joined;
    LongIsNamed();
    assert Walk(LONG, 0, 0, 31).end.RealRoot?;
    assert Reaches(LONG, 1, 0, 32) && !NamesFit(LONG, 1, 0, 32);
    assert TruePath(LONG, 0, 0, 0) == Some([]);
    assert TruePath(LONG, 1, 0, 1) == Some([] + [Repeat('a', NAME_MAX)]);
    assert [] + [Repeat('a', NAME_MAX)] == [Repeat('a', NAME_MAX)];
    PrintsThePathIff(LONG, 1, 0, 32, bare, [Repeat('a', NAME_MAX)]);
  }

  /** A chain of directories: entry `d` is `d` levels below the root. */
  function Chain(size: nat): Forest { Forest(map d: nat | d <= size :: Link(d), map[0 := Mount(0, 0, 0)]) }

  function Link(d: nat): Dentry { if d == 0 then Dentry(Some("/"), 0) else Dentry(Some("a"), d - 1) }

  lemma {:induction false} ChainDepth(size: nat, d: nat, n: nat)
    requires d <= size
    ensures Closed(Chain(size)) && Named(Chain(size)) && (RootAfter(Chain(size), d, 0, n) <==> n == d)
    decreases d
  {
    if d > 0 && n > 0 { ChainDepth(size, d - 1, n - 1); }
  }

  /** A directory 32 levels down: the walk uses all slots without reaching the root. */
  lemma DeepDirectoryExhaustsSlots(d: nat)
    requires d >= MAX_PATH_DEPTH
    ensures Closed(Chain(d)) && Walk(Chain(d), d, 0, MAX_PATH_DEPTH).end.Exhausted?
  {
    hide RootAfter, Walk;
    forall n: nat
      ensures Closed(Chain(d)) && Named(Chain(d)) && (RootAfter(Chain(d), d, 0, n) <==> n == d)
    {
      ChainDepth(d, d, n);
    }
    ReachesIff(Chain(d), d, 0, MAX_PATH_DEPTH);
  }
}
