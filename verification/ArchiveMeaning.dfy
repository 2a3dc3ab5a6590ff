/** Which archives are accepted, and which of them can be extracted to the end. */
module ArchiveMeaning {
  import opened Archive
  import opened Ordering
  import opened PosixPath
  import opened Results

  // ----- paths and their components

  /** Components as `Parts` yields them: not empty and without a separator. */
  predicate Clean(ps: seq<string>) {
    forall i :: 0 <= i < |ps| ==> ps[i] != "" && '/' !in ps[i]
  }

  lemma {:induction false} SplitClean(s: string)
    ensures forall i :: 0 <= i < |Split(s)| ==> '/' !in Split(s)[i]
  {
    if s != "" {
      SplitClean(s[1..]);
    }
  }

  lemma {:induction false} KeptClean(components: seq<string>)
    requires forall i :: 0 <= i < |components| ==> '/' !in components[i]
    ensures Clean(Kept(components))
  {
    if components != [] {
      KeptClean(components[1..]);
    }
  }

  lemma PartsClean(name: string)
    ensures Clean(Parts(name))
  {
    SplitClean(name);
    KeptClean(Split(name));
  }

  /** The path of components below a directory. */
  function Path(destination: string, ps: seq<string>): string {
    if ps == [] then destination else Path(destination, ps[..|ps| - 1]) + "/" + ps[|ps| - 1]
  }

  lemma {:induction false} JoinSnoc(ps: seq<string>, last: string)
    requires ps != []
    ensures Join(ps + [last]) == Join(ps) + "/" + last
  {
    var all := ps + [last];
    if |ps| == 1 {
      assert all[1..] == [last];
    } else {
      JoinSnoc(ps[1..], last);
      assert all[1..] == ps[1..] + [last];
    }
  }

  lemma {:induction false} PathJoins(destination: string, ps: seq<string>)
    requires ps != []
    ensures Path(destination, ps) == destination + "/" + Join(ps)
  {
    var init, last := ps[..|ps| - 1], ps[|ps| - 1];
    if init != [] {
      PathJoins(destination, init);
      JoinSnoc(init, last);
      assert ps == init + [last];
    }
  }

  lemma TargetIsPath(destination: string, info: Info)
    ensures Target(destination, info) == Path(destination, Parts(info.name))
  {
    if Parts(info.name) != [] {
      PathJoins(destination, Parts(info.name));
    }
    hide Parts, Join;
  }

  lemma {:induction false} ParentOfComponent(above: string, part: string)
    requires '/' !in part
    ensures Parent(above + "/" + part) == above
  {
    var p := above + "/" + part;
    if part == "" {
      assert p[..|p| - 1] == above;
    } else {
      assert p[|p| - 1] == part[|part| - 1];
      assert p[..|p| - 1] == above + "/" + part[..|part| - 1];
      ParentOfComponent(above, part[..|part| - 1]);
    }
  }

  /** One component further down there is only one directory more on the way. */
  lemma AboveComponent(q: string, above: string, part: string)
    requires '/' !in part && part != ""
    ensures Above(q, above + "/" + part) <==> q == above + "/" + part || Above(q, above)
  {
    var p := above + "/" + part;
    assert forall i :: 0 <= i < |above| ==> p[i] == above[i];
    assert p[..|above|] == above && p[|above|] == '/';
    assert forall i :: |above| < i < |p| ==> p[i] == part[i - |above| - 1];
    if Above(q, p) && |q| < |p| {
      assert p[|q|] == '/';
      assert |q| <= |above|;
      assert q == above[..|q|];
    }
    if Above(q, above) {
      assert p[..|q|] == above[..|q|];
    }
    if |q| == |p| && Above(q, p) {
      assert p[..|q|] == p;
    }
  }

  /** The directories on the way to a path below the destination. */
  lemma {:induction false} AbovePath(q: string, destination: string, ps: seq<string>)
    requires Clean(ps)
    ensures Above(q, Path(destination, ps)) <==>
      Above(q, destination) || exists m :: 0 < m <= |ps| && q == Path(destination, ps[..m])
  {
    if ps != [] {
      var n := |ps| - 1;
      AbovePath(q, destination, ps[..n]);
      AboveComponent(q, Path(destination, ps[..n]), ps[n]);
      hide Above, Path;
      assert forall m :: 0 < m <= n ==> ps[..n][..m] == ps[..m];
      assert ps[..n + 1] == ps;
      PathStep(destination, ps);
    }
  }

  lemma PathStep(destination: string, ps: seq<string>)
    requires ps != []
    ensures Path(destination, ps) == Path(destination, ps[..|ps| - 1]) + "/" + ps[|ps| - 1]
  {
  }

  lemma {:induction false} PathInjective(destination: string, a: seq<string>, b: seq<string>)
    requires Clean(a) && Clean(b) && Path(destination, a) == Path(destination, b)
    ensures a == b
  {
    if a == [] || b == [] {
      PathLonger(destination, a);
      PathLonger(destination, b);
    } else {
      var i, j := |a| - 1, |b| - 1;
      ParentOfComponent(Path(destination, a[..i]), a[i]);
      ParentOfComponent(Path(destination, b[..j]), b[j]);
      PathInjective(destination, a[..i], b[..j]);
      var above := Path(destination, a[..i]) + "/";
      assert (above + a[i])[|above|..] == a[i] && (above + b[j])[|above|..] == b[j];
      assert a == a[..i] + [a[i]] && b == b[..j] + [b[j]];
    }
  }

  lemma {:induction false} PathLonger(destination: string, ps: seq<string>)
    ensures |Path(destination, ps)| >= |destination| + |ps|
    ensures Path(destination, ps)[..|destination|] == destination
    ensures ps != [] ==> Inside(destination, Path(destination, ps))
  {
    if ps != [] {
      PathLonger(destination, ps[..|ps| - 1]);
    }
  }

  // ----- making directories

  lemma {:induction false} AboveSplit(q: string, p: string)
    requires Above(q, p) && q != p && q != ""
    ensures Parent(p) != "" && Above(q, Parent(p))
  {
    var n := |p| - 1;
    assert |q| < |p|;
    assert p[..n][..|q|] == p[..|q|];
    if p[n] != '/' {
      assert |q| < n;
      AboveSplit(q, p[..n]);
    }
  }

  /** In a store where everything lies in directories, so does what lies further up. */
  lemma {:induction false} DirectoriesAbove(fs: Store, p: string, q: string)
    requires WellFormed(fs) && p in fs && Above(q, p) && q != p && q != ""
    ensures q in fs && fs[q].Directory?
    decreases |p|
  {
    AboveSplit(q, p);
    ParentShorter(p);
    hide Above, Parent;
    if q != Parent(p) {
      DirectoriesAbove(fs, Parent(p), q);
    }
  }

  /** No file stands on the way to the path, or at it. */
  ghost predicate WayFree(fs: Store, p: string) {
    forall q :: q in fs && q != "" && Above(q, p) ==> fs[q].Directory?
  }

  /** Directories can be made exactly when no file is in the way; then all of them are there. */
  lemma {:induction false} MakeDirsExactly(fs: Store, p: string)
    requires WellFormed(fs) && "" !in fs
    ensures MakeDirs(fs, p).Some? <==> WayFree(fs, p)
    ensures MakeDirs(fs, p).Some? ==>
      forall q :: q in MakeDirs(fs, p).value <==> q in fs || (q != "" && Above(q, p))
    decreases |p|
  {
    hide Above, Parent, WellFormed;
    if p in fs {
      AboveItself(p);
      forall q | q != "" && Above(q, p) && q != p ensures q in fs && fs[q].Directory? {
        DirectoriesAbove(fs, p, q);
      }
    } else if p == "" {
      forall q | q != "" ensures !Above(q, p) {
        NothingAboveRoot(q);
      }
    } else {
      ParentShorter(p);
      MakeDirsExactly(fs, Parent(p));
      AboveItself(p);
      forall q | q != "" && q != p ensures Above(q, p) <==> Above(q, Parent(p)) {
        if Above(q, p) { AboveSplit(q, p); }
        if Above(q, Parent(p)) {
          NotEmptyParent(q, p);
          ParentAbove(p);
          AboveTransitive(q, Parent(p), p);
        }
      }
    }
  }

  lemma NothingAboveRoot(q: string)
    requires q != ""
    ensures !Above(q, "")
  {
  }

  lemma MakeDirsWellFormed(fs: Store, p: string)
    requires WellFormed(fs) && "" !in fs && MakeDirs(fs, p).Some?
    ensures WellFormed(MakeDirs(fs, p).value) && "" !in MakeDirs(fs, p).value
  {
    MakeDirsExactly(fs, p);
    MakeDirsAdds(fs, p);
    var made := MakeDirs(fs, p).value;
    hide Above, Parent, MakeDirs;
    forall q | q in made && Parent(q) != "" ensures Parent(q) in made && made[Parent(q)].Directory? {
      if q !in fs {
        ParentAbove(q);
        AboveTransitive(Parent(q), q, p);
      }
    }
  }

  // ----- what is below the destination after the first entries

  function Components(infos: seq<Info>, i: nat): seq<string>
    requires i < |infos|
  {
    Parts(infos[i].name)
  }

  /** Among the first `n` entries one is this path or lies below it. */
  predicate OnTheWay(infos: seq<Info>, n: nat, ps: seq<string>)
    requires n <= |infos|
  {
    exists i: nat :: i < n && ps <= Components(infos, i)
  }

  /** Among the first `n` entries this path is a file. */
  predicate IsFile(infos: seq<Info>, n: nat, ps: seq<string>)
    requires n <= |infos|
  {
    exists i: nat :: i < n && !IsDir(infos[i]) && Components(infos, i) == ps
  }

  /** The directories above the destination, and below it the first `n` entries. */
  ghost predicate Shape(fs: Store, destination: string, infos: seq<Info>, n: nat)
    requires n <= |infos|
  {
    && WellFormed(fs) && "" !in fs
    && (forall q :: q != "" && Above(q, destination) ==> q in fs && fs[q].Directory?)
    && forall ps :: Clean(ps) && ps != [] ==>
        && (Path(destination, ps) in fs <==> OnTheWay(infos, n, ps))
        && (Path(destination, ps) in fs ==> (fs[Path(destination, ps)].File? <==> IsFile(infos, n, ps)))
  }

  /** No two entries are the same path. */
  predicate Distinct(infos: seq<Info>) {
    forall i: nat, j: nat :: i < j < |infos| ==> Components(infos, i) != Components(infos, j)
  }

  /** Entry `k` finds no file where it needs a directory, and its own place free. */
  predicate Fits(infos: seq<Info>, k: nat)
    requires k < |infos|
  {
    var ps := Components(infos, k);
    && (forall i: nat :: i < k && !IsDir(infos[i]) ==> !(Components(infos, i) < ps))
    && (!IsDir(infos[k]) ==> ps != [] && forall i: nat :: i < k ==> !(ps < Components(infos, i)))
  }

  lemma PrefixClean(ps: seq<string>, m: nat)
    requires Clean(ps) && m <= |ps|
    ensures Clean(ps[..m])
  {
  }

  /** The way to a path below the destination is free exactly when no entry so far is a file on it. */
  lemma WayExactly(fs: Store, destination: string, infos: seq<Info>, n: nat, ps: seq<string>)
    requires n <= |infos| && Shape(fs, destination, infos, n) && Clean(ps)
    ensures WayFree(fs, Path(destination, ps)) <==> forall m :: 0 < m <= |ps| ==> !IsFile(infos, n, ps[..m])
  {
    hide Above, Path, IsFile, OnTheWay, WellFormed;
    if WayFree(fs, Path(destination, ps)) {
      forall m | 0 < m <= |ps| ensures !IsFile(infos, n, ps[..m]) {
        PrefixClean(ps, m);
        var q := Path(destination, ps[..m]);
        AbovePath(q, destination, ps);
        PathNotEmpty(destination, ps[..m]);
        if IsFile(infos, n, ps[..m]) {
          FileOnTheWay(infos, n, ps[..m]);
        }
      }
    }
    if forall m :: 0 < m <= |ps| ==> !IsFile(infos, n, ps[..m]) {
      forall q | q in fs && q != "" && Above(q, Path(destination, ps)) ensures fs[q].Directory? {
        AbovePath(q, destination, ps);
        if !Above(q, destination) {
          var m :| 0 < m <= |ps| && q == Path(destination, ps[..m]);
          PrefixClean(ps, m);
        }
      }
    }
  }

  lemma PathNotEmpty(destination: string, ps: seq<string>)
    requires ps != []
    ensures Path(destination, ps) != ""
  {
    PathLonger(destination, ps);
  }

  lemma FileOnTheWay(infos: seq<Info>, n: nat, ps: seq<string>)
    requires n <= |infos| && IsFile(infos, n, ps)
    ensures OnTheWay(infos, n, ps)
  {
  }

  /** No file among the first `n` entries is a path on the way to `ps`, `ps` included. */
  lemma NoFileBefore(infos: seq<Info>, n: nat, ps: seq<string>)
    requires n <= |infos| && forall i: nat :: i < n && !IsDir(infos[i]) ==> Components(infos, i) != []
    ensures (forall m :: 0 < m <= |ps| ==> !IsFile(infos, n, ps[..m])) <==>
      forall i: nat :: i < n && !IsDir(infos[i]) ==> !(Components(infos, i) <= ps)
  {
    hide IsDir, Components;
    if forall m :: 0 < m <= |ps| ==> !IsFile(infos, n, ps[..m]) {
      forall i: nat | i < n && !IsDir(infos[i]) ensures !(Components(infos, i) <= ps) {
        var c := Components(infos, i);
        if |c| <= |ps| {
          assert !IsFile(infos, n, ps[..|c|]);
        }
      }
    }
    if forall i: nat :: i < n && !IsDir(infos[i]) ==> !(Components(infos, i) <= ps) {
      forall m | 0 < m <= |ps| ensures !IsFile(infos, n, ps[..m]) {
      }
    }
  }

  // ----- one entry more

  /** After making the directories down to `ps`. */
  lemma MadeShape(fs: Store, destination: string, infos: seq<Info>, n: nat, ps: seq<string>, q: seq<string>)
    requires n <= |infos| && Shape(fs, destination, infos, n) && Clean(ps) && Clean(q) && q != []
    requires MakeDirs(fs, Path(destination, ps)).Some?
    ensures var made := MakeDirs(fs, Path(destination, ps)).value;
      && (Path(destination, q) in made <==> OnTheWay(infos, n, q) || q <= ps)
      && (Path(destination, q) in made ==> (made[Path(destination, q)].File? <==> IsFile(infos, n, q)))
  {
    hide Above, IsFile, OnTheWay, WellFormed, MakeDirs, Inside;
    var p := Path(destination, q);
    MakeDirsExactly(fs, Path(destination, ps));
    MakeDirsAdds(fs, Path(destination, ps));
    PathNotEmpty(destination, q);
    PathLonger(destination, q);
    AboveNotInside(p, destination);
    AbovePath(p, destination, ps);
    hide Path;
    if m :| 0 < m <= |ps| && p == Path(destination, ps[..m]) {
      PrefixClean(ps, m);
      PathInjective(destination, q, ps[..m]);
    }
    if q <= ps {
      assert q == ps[..|q|];
    }
    if p !in fs && IsFile(infos, n, q) {
      FileOnTheWay(infos, n, q);
    }
  }

  /** The files among the first `n` entries have a name below the destination. */
  predicate FilesNamed(infos: seq<Info>, n: nat)
    requires n <= |infos|
  {
    forall i: nat :: i < n && !IsDir(infos[i]) ==> Components(infos, i) != []
  }

  /** Directories can be made down to `ps` exactly when no file so far is on the way. */
  lemma MadeExactly(fs: Store, destination: string, infos: seq<Info>, n: nat, ps: seq<string>)
    requires n <= |infos| && Shape(fs, destination, infos, n) && Clean(ps) && FilesNamed(infos, n)
    ensures MakeDirs(fs, Path(destination, ps)).Some? <==>
      forall i: nat :: i < n && !IsDir(infos[i]) ==> !(Components(infos, i) <= ps)
  {
    hide Above, IsDir, Components, MakeDirs, WellFormed, WayFree, IsFile, OnTheWay, Path;
    MakeDirsExactly(fs, Path(destination, ps));
    WayExactly(fs, destination, infos, n, ps);
    NoFileBefore(infos, n, ps);
  }

  /** No path repeats, so a file that would have to be a directory lies strictly above. */
  lemma StrictlyAbove(infos: seq<Info>, k: nat)
    requires k < |infos| && Distinct(infos)
    ensures var ps := Components(infos, k);
      (forall i: nat :: i < k && !IsDir(infos[i]) ==> !(Components(infos, i) <= ps)) <==>
      forall i: nat :: i < k && !IsDir(infos[i]) ==> !(Components(infos, i) < ps)
  {
    hide IsDir, Components;
    var ps := Components(infos, k);
    if forall i: nat :: i < k && !IsDir(infos[i]) ==> !(Components(infos, i) < ps) {
      forall i: nat | i < k && !IsDir(infos[i]) ensures !(Components(infos, i) <= ps) {
        assert Components(infos, i) != ps;
      }
    }
  }

  lemma DirectoryShape(fs: Store, destination: string, infos: seq<Info>, k: nat)
    requires k < |infos| && Shape(fs, destination, infos, k) && IsDir(infos[k])
    requires MakeDirs(fs, Path(destination, Components(infos, k))).Some?
    ensures Shape(MakeDirs(fs, Path(destination, Components(infos, k))).value, destination, infos, k + 1)
  {
    hide Above, IsDir, MakeDirs, WellFormed, Path, IsFile, OnTheWay;
    var ps := Components(infos, k);
    var p := Path(destination, ps);
    var made := MakeDirs(fs, p).value;
    PartsClean(infos[k].name);
    MakeDirsWellFormed(fs, p);
    MakeDirsAdds(fs, p);
    hide Components;
    forall q | Clean(q) && q != []
      ensures Path(destination, q) in made <==> OnTheWay(infos, k + 1, q)
      ensures Path(destination, q) in made ==> (made[Path(destination, q)].File? <==> IsFile(infos, k + 1, q))
    {
      MadeShape(fs, destination, infos, k, ps, q);
      OneEntryMore(infos, k, q);
    }
  }

  lemma DirectoryEntry(fs: Store, destination: string, infos: seq<Info>, k: nat)
    requires k < |infos| && Shape(fs, destination, infos, k) && Distinct(infos) && FilesNamed(infos, k)
    requires IsDir(infos[k]) && !Escapes(destination, infos[k])
    ensures ExtractOne(fs, destination, infos[k]).ok <==> Fits(infos, k)
    ensures ExtractOne(fs, destination, infos[k]).ok ==>
      Shape(ExtractOne(fs, destination, infos[k]).store, destination, infos, k + 1)
  {
    var ps := Components(infos, k);
    PartsClean(infos[k].name);
    TargetIsPath(destination, infos[k]);
    assert Target(destination, infos[k]) == Path(destination, ps);
    hide Above, IsDir, MakeDirs, Path, Escapes, Parent, Target, Shape, Distinct, FilesNamed, Components;
    MadeExactly(fs, destination, infos, k, ps);
    StrictlyAbove(infos, k);
    if MakeDirs(fs, Path(destination, ps)).Some? {
      DirectoryShape(fs, destination, infos, k);
    }
  }

  lemma ProperPrefix(a: seq<string>, ps: seq<string>)
    requires ps != []
    ensures a < ps <==> a <= ps[..|ps| - 1]
    ensures a <= ps <==> a <= ps[..|ps| - 1] || a == ps
  {
    if a <= ps && |a| < |ps| {
      assert a == ps[..|ps| - 1][..|a|];
    }
    if a <= ps[..|ps| - 1] {
      assert a == ps[..|a|];
    }
  }

  /** The store after a file was created below directories that were made. */
  lemma FileShape(fs: Store, destination: string, infos: seq<Info>, k: nat, bytes: Bytes)
    requires k < |infos| && Shape(fs, destination, infos, k) && !IsDir(infos[k]) && Components(infos, k) != []
    requires var ps := Components(infos, k);
      var made := MakeDirs(fs, Path(destination, ps[..|ps| - 1]));
      made.Some? && Path(destination, ps) !in made.value
    ensures var ps := Components(infos, k);
      Shape(
        MakeDirs(fs, Path(destination, ps[..|ps| - 1])).value[Path(destination, ps) := File(bytes)], destination, infos, k + 1)
  {
    hide Above, IsDir, MakeDirs, WellFormed, IsFile, OnTheWay, Path, Inside;
    var ps := Components(infos, k);
    var init := ps[..|ps| - 1];
    var target := Path(destination, ps);
    var made := MakeDirs(fs, Path(destination, init)).value;
    var after := made[target := File(bytes)];
    PartsClean(infos[k].name);
    PrefixClean(ps, |ps| - 1);
    hide Components;
    MakeDirsWellFormed(fs, Path(destination, init));
    MakeDirsAdds(fs, Path(destination, init));
    FileWellFormed(made, destination, ps, bytes);
    PathNotEmpty(destination, ps);
    forall q | q != "" && Above(q, destination) ensures q in after && after[q].Directory? {
      PathLonger(destination, ps);
      AboveNotInside(target, destination);
    }
    forall q | Clean(q) && q != []
      ensures Path(destination, q) in after <==> OnTheWay(infos, k + 1, q)
      ensures Path(destination, q) in after ==> (after[Path(destination, q)].File? <==> IsFile(infos, k + 1, q))
    {
      MadeShape(fs, destination, infos, k, init, q);
      OneEntryMore(infos, k, q);
      ProperPrefix(q, ps);
      if Path(destination, q) == target {
        PathInjective(destination, q, ps);
      }
    }
  }

  lemma FileWellFormed(made: Store, destination: string, ps: seq<string>, bytes: Bytes)
    requires WellFormed(made) && ps != [] && Clean(ps) && Path(destination, ps) !in made
    requires var above := Path(destination, ps[..|ps| - 1]); above != "" ==> above in made && made[above].Directory?
    ensures WellFormed(made[Path(destination, ps) := File(bytes)])
  {
    PathStep(destination, ps);
    ParentOfComponent(Path(destination, ps[..|ps| - 1]), ps[|ps| - 1]);
    hide Path, Parent;
  }

  /** The place of a file is taken exactly when an entry so far lies below it. */
  lemma PlaceTaken(fs: Store, destination: string, infos: seq<Info>, k: nat)
    requires k < |infos| && Shape(fs, destination, infos, k) && Distinct(infos) && Components(infos, k) != []
    requires var ps := Components(infos, k);
      MakeDirs(fs, Path(destination, ps[..|ps| - 1])).Some?
    ensures var ps := Components(infos, k);
      Path(destination, ps) in MakeDirs(fs, Path(destination, ps[..|ps| - 1])).value <==>
        exists i: nat :: i < k && ps < Components(infos, i)
  {
    var ps := Components(infos, k);
    PartsClean(infos[k].name);
    hide Components, Path, MakeDirs, Above, WellFormed, IsFile;
    PrefixClean(ps, |ps| - 1);
    MadeShape(fs, destination, infos, k, ps[..|ps| - 1], ps);
    hide Shape;
    assert !(ps <= ps[..|ps| - 1]);
    if i: nat :| i < k && ps <= Components(infos, i) {
      assert Components(infos, i) != ps;
      assert ps < Components(infos, i);
    }
  }

  lemma FileFits(infos: seq<Info>, k: nat)
    requires k < |infos| && !IsDir(infos[k]) && Components(infos, k) != []
    ensures var ps := Components(infos, k);
      Fits(infos, k) <==>
        && (forall i: nat :: i < k && !IsDir(infos[i]) ==> !(Components(infos, i) <= ps[..|ps| - 1]))
        && !exists i: nat :: i < k && ps < Components(infos, i)
  {
    hide IsDir, Components;
    var ps := Components(infos, k);
    forall i: nat | i < k ensures Components(infos, i) < ps <==> Components(infos, i) <= ps[..|ps| - 1] {
      ProperPrefix(Components(infos, i), ps);
    }
  }

  lemma FileOutcome(fs: Store, destination: string, info: Info, target: string, above: string)
    requires !IsDir(info) && info.data.Some? && !Escapes(destination, info)
    requires Target(destination, info) == target && Parent(target) == above
    ensures var made, r := MakeDirs(fs, above), ExtractOne(fs, destination, info);
      && (r.ok <==> made.Some? && target !in made.value)
      && (r.ok ==> r.store == made.value[target := File(info.data.value)])
  {
    hide IsDir, MakeDirs, Escapes, Parent, Target;
  }

  /** What happens to a file member with a name below the destination. */
  lemma FileStep(fs: Store, destination: string, infos: seq<Info>, k: nat)
    requires k < |infos| && !IsDir(infos[k]) && infos[k].data.Some? && !Escapes(destination, infos[k])
    requires Components(infos, k) != []
    ensures var ps, r := Components(infos, k), ExtractOne(fs, destination, infos[k]);
      var made, target := MakeDirs(fs, Path(destination, ps[..|ps| - 1])), Path(destination, ps);
      && (r.ok <==> made.Some? && target !in made.value)
      && (r.ok ==> r.store == made.value[target := File(infos[k].data.value)])
  {
    hide IsDir, MakeDirs, Escapes, Parent, Target, ExtractOne, Path;
    var ps := Components(infos, k);
    TargetIsPath(destination, infos[k]);
    PartsClean(infos[k].name);
    hide Components;
    PathStep(destination, ps);
    ParentOfComponent(Path(destination, ps[..|ps| - 1]), ps[|ps| - 1]);
    FileOutcome(fs, destination, infos[k], Path(destination, ps), Path(destination, ps[..|ps| - 1]));
  }

  lemma FileEntry(fs: Store, destination: string, infos: seq<Info>, k: nat)
    requires k < |infos| && destination != "" && Shape(fs, destination, infos, k) && Distinct(infos) && FilesNamed(infos, k)
    requires !IsDir(infos[k]) && infos[k].data.Some? && !Escapes(destination, infos[k])
    ensures ExtractOne(fs, destination, infos[k]).ok <==> Fits(infos, k)
    ensures ExtractOne(fs, destination, infos[k]).ok ==>
      Shape(ExtractOne(fs, destination, infos[k]).store, destination, infos, k + 1)
  {
    var ps := Components(infos, k);
    if ps == [] {
      FileAtDestination(fs, destination, infos, k);
    } else {
      PartsClean(infos[k].name);
      PrefixClean(ps, |ps| - 1);
      FileStep(fs, destination, infos, k);
      FileFits(infos, k);
      MadeExactly(fs, destination, infos, k, ps[..|ps| - 1]);
      hide IsDir, MakeDirs, Path, Escapes, Distinct, FilesNamed, Components, Fits, ExtractOne, Shape;
      if MakeDirs(fs, Path(destination, ps[..|ps| - 1])).Some? {
        PlaceTaken(fs, destination, infos, k);
        if Path(destination, ps) !in MakeDirs(fs, Path(destination, ps[..|ps| - 1])).value {
          FileShape(fs, destination, infos, k, infos[k].data.value);
        }
      }
    }
  }

  /** A file cannot take the place of the destination itself. */
  lemma FileAtDestination(fs: Store, destination: string, infos: seq<Info>, k: nat)
    requires k < |infos| && destination != "" && Shape(fs, destination, infos, k)
    requires !IsDir(infos[k]) && Components(infos, k) == []
    ensures !ExtractOne(fs, destination, infos[k]).ok && !Fits(infos, k)
  {
    TargetIsPath(destination, infos[k]);
    PathOfNothing(destination);
    AboveItself(destination);
    assert Target(destination, infos[k]) == destination && destination in fs;
    hide Shape, Path, Target, Parent, Above, Escapes, MakeDirs;
    if MakeDirs(fs, Parent(destination)).Some? {
      MakeDirsAdds(fs, Parent(destination));
    }
  }

  lemma PathOfNothing(destination: string)
    ensures Path(destination, []) == destination
  {
  }

  lemma OneEntryMore(infos: seq<Info>, k: nat, q: seq<string>)
    requires k < |infos|
    ensures OnTheWay(infos, k + 1, q) <==> OnTheWay(infos, k, q) || q <= Components(infos, k)
    ensures IsFile(infos, k + 1, q) <==> IsFile(infos, k, q) || (!IsDir(infos[k]) && Components(infos, k) == q)
  {
    hide IsDir, Components;
  }

  // ----- the whole archive

  lemma {:induction false} EntriesExtracted(t: Tools, fs: Store, destination: string, infos: seq<Info>, n: nat)
    requires n <= |infos| && destination != "" && Shape(fs, destination, infos, 0) && Acceptable(t, infos) && Distinct(infos)
    ensures var r := ExtractTo(fs, destination, infos, n);
      && (r.ok <==> forall k: nat :: k < n ==> Fits(infos, k))
      && (r.ok ==> Shape(r.store, destination, infos, n))
  {
    hide Acceptable, Shape, Fits, ExtractOne;
    if n > 0 {
      var k := n - 1;
      EntriesExtracted(t, fs, destination, infos, k);
      var before := ExtractTo(fs, destination, infos, k);
      if before.ok {
        AcceptedEntriesStayBelow(t, infos, destination, k);
        FittingFilesNamed(infos, k);
        if IsDir(infos[k]) {
          DirectoryEntry(before.store, destination, infos, k);
        } else {
          EntriesReadable(t, infos, |infos|, k);
          FileEntry(before.store, destination, infos, k);
        }
      }
    }
  }

  lemma FittingFilesNamed(infos: seq<Info>, n: nat)
    requires n <= |infos| && forall k: nat :: k < n ==> Fits(infos, k)
    ensures FilesNamed(infos, n)
  {
    hide IsDir, Components;
    forall i: nat | i < n && !IsDir(infos[i]) ensures Components(infos, i) != [] {
      assert Fits(infos, i);
    }
  }

  // ----- which archives are accepted

  /** An entry that is neither unsafe nor unreadable. */
  predicate SafeEntry(info: Info) {
    && info.name != "" && '\0' !in info.name && '\\' !in info.name && info.name[0] != '/'
    && !(|info.name| >= 2 && info.name[1] == ':' && ('a' <= info.name[0] <= 'z' || 'A' <= info.name[0] <= 'Z'))
    && ".." !in Parts(info.name) && !info.link && !info.encrypted
    && (IsDir(info) || (!info.special && info.data.Some?))
  }

  /** The path it is recorded under. */
  function NameOf(infos: seq<Info>, i: nat): string
    requires i < |infos|
  {
    AsPosix(Parts(infos[i].name))
  }

  function Sizes(infos: seq<Info>): nat {
    if infos == [] then 0 else infos[0].size + Sizes(infos[1..])
  }

  lemma {:induction false} TotalIsSum(infos: seq<Info>, n: nat)
    requires n <= |infos|
    ensures TotalSize(infos, n) + Sizes(infos[n..]) == Sizes(infos)
  {
    if n > 0 {
      TotalIsSum(infos, n - 1);
      assert infos[n - 1..][1..] == infos[n..];
    } else {
      assert infos[0..] == infos;
    }
  }

  lemma {:induction false} NamesSeen(t: Tools, infos: seq<Info>, n: nat, name: string)
    requires n <= |infos|
    ensures name in AllNames(infos, n) <==> exists i: nat :: i < n && NameOf(infos, i) == name
    ensures name in AllFolded(t, infos, n) <==> exists i: nat :: i < n && t.fold(NameOf(infos, i)) == name
  {
    hide Parts, AsPosix;
    if n > 0 {
      NamesSeen(t, infos, n - 1, name);
      assert NameOf(infos, n - 1) == MemberName(infos[n - 1]);
    }
  }

  lemma EntrySafe(info: Info)
    ensures Safe(info) && (IsDir(info) || info.data.Some?) <==> SafeEntry(info)
  {
    hide Parts, IsDir;
  }

  /** The first `n` entries are safe, and their names differ even without regard to case. */
  ghost predicate SafeAndApart(t: Tools, infos: seq<Info>, n: nat)
    requires n <= |infos|
  {
    && (forall i :: 0 <= i < n ==> SafeEntry(infos[i]))
    && forall i: nat, j: nat :: i < j < n ==>
        NameOf(infos, i) != NameOf(infos, j) && t.fold(NameOf(infos, i)) != t.fold(NameOf(infos, j))
  }

  lemma ApartStep(t: Tools, infos: seq<Info>, n: nat)
    requires 0 < n <= |infos|
    ensures SafeAndApart(t, infos, n) <==>
      && SafeAndApart(t, infos, n - 1) && SafeEntry(infos[n - 1])
      && forall i: nat :: i < n - 1 ==>
          NameOf(infos, i) != NameOf(infos, n - 1) && t.fold(NameOf(infos, i)) != t.fold(NameOf(infos, n - 1))
  {
    hide SafeEntry, NameOf;
  }

  lemma NewName(t: Tools, infos: seq<Info>, n: nat)
    requires 0 < n <= |infos|
    ensures MemberName(infos[n - 1]) !in AllNames(infos, n - 1) <==>
      forall i: nat :: i < n - 1 ==> NameOf(infos, i) != NameOf(infos, n - 1)
  {
    assert NameOf(infos, n - 1) == MemberName(infos[n - 1]);
    NamesSeen(t, infos, n - 1, NameOf(infos, n - 1));
    hide NameOf, MemberName, AllNames, AllFolded;
  }

  lemma NewFolded(t: Tools, infos: seq<Info>, n: nat)
    requires 0 < n <= |infos|
    ensures t.fold(MemberName(infos[n - 1])) !in AllFolded(t, infos, n - 1) <==>
      forall i: nat :: i < n - 1 ==> t.fold(NameOf(infos, i)) != t.fold(NameOf(infos, n - 1))
  {
    assert NameOf(infos, n - 1) == MemberName(infos[n - 1]);
    NamesSeen(t, infos, n - 1, t.fold(NameOf(infos, n - 1)));
    hide NameOf, MemberName, AllNames, AllFolded;
  }

  lemma {:induction false} ReadableExactly(t: Tools, infos: seq<Info>, n: nat)
    requires n <= |infos|
    ensures Readable(t, infos, n) <==> SafeAndApart(t, infos, n)
  {
    hide SafeEntry, Safe, IsDir, NameOf, MemberName, AllNames, AllFolded;
    if n > 0 {
      ReadableExactly(t, infos, n - 1);
      EntrySafe(infos[n - 1]);
      NewName(t, infos, n);
      NewFolded(t, infos, n);
      ApartStep(t, infos, n);
      hide SafeAndApart;
    }
  }

  lemma {:induction false} MembersExactly(infos: seq<Info>, n: nat)
    requires n <= |infos|
    ensures Members(infos, n).Keys != {} <==> exists i: nat :: i < n && !IsDir(infos[i])
  {
    hide IsDir, MemberName;
    if n > 0 {
      MembersExactly(infos, n - 1);
      if !IsDir(infos[n - 1]) {
        assert MemberName(infos[n - 1]) in Members(infos, n).Keys;
      }
    }
  }

  /** An archive is accepted exactly when it is not too large, holds a file, and its entries are safe and can be told
      apart by name, even without regard to case. */
  lemma AcceptableSpelledOut(t: Tools, infos: seq<Info>)
    ensures Acceptable(t, infos) <==>
      && |infos| <= 100000 && Sizes(infos) <= 8589934592
      && (exists i: nat :: i < |infos| && !IsDir(infos[i]))
      && (forall i :: 0 <= i < |infos| ==> SafeEntry(infos[i]))
      && forall i: nat, j: nat :: i < j < |infos| ==>
          NameOf(infos, i) != NameOf(infos, j) && t.fold(NameOf(infos, i)) != t.fold(NameOf(infos, j))
  {
    TotalIsSum(infos, |infos|);
    ReadableExactly(t, infos, |infos|);
    MembersExactly(infos, |infos|);
    hide SafeEntry, IsDir, Readable, Members, TotalSize, NameOf;
  }

  lemma EntriesReadable(t: Tools, infos: seq<Info>, n: nat, i: nat)
    requires i < n == |infos| && Acceptable(t, infos)
    ensures IsDir(infos[i]) || infos[i].data.Some?
  {
    ReadableExactly(t, infos, n);
    hide Readable, Members, TotalSize, NameOf;
    assert SafeEntry(infos[i]);
  }

  lemma NamesDistinct(t: Tools, infos: seq<Info>)
    requires Acceptable(t, infos)
    ensures Distinct(infos)
  {
    ReadableExactly(t, infos, |infos|);
    hide Readable, Members, TotalSize, SafeEntry, Parts, AsPosix;
    forall i: nat, j: nat | i < j < |infos| ensures Components(infos, i) != Components(infos, j) {
      assert NameOf(infos, i) != NameOf(infos, j);
    }
  }

  // ----- which extractions come to their end

  /** The destination is new, and only directories stand on the way to it. */
  ghost predicate PlaceFree(fs: Store, destination: string) {
    destination !in fs && forall q :: q in fs && q != "" && Above(q, destination) ==> fs[q].Directory?
  }

  lemma DestinationShape(fs: Store, destination: string, infos: seq<Info>)
    requires WellFormed(fs) && "" !in fs && destination != "" && destination !in fs
    requires MakeDirs(fs, destination).Some?
    ensures Shape(MakeDirs(fs, destination).value, destination, infos, 0)
  {
    MakeDirsExactly(fs, destination);
    MakeDirsAdds(fs, destination);
    MakeDirsWellFormed(fs, destination);
    hide MakeDirs, Above, Parent, Path, WellFormed, Inside;
    var made := MakeDirs(fs, destination).value;
    forall ps | Clean(ps) && ps != [] ensures Path(destination, ps) !in made {
      var p := Path(destination, ps);
      PathLonger(destination, ps);
      AboveNotInside(p, destination);
      if p in fs {
        NothingBelowMissing(fs, destination, p);
      }
    }
  }

  /** An extraction comes to its end exactly when the archive is accepted, the destination is free, every file member
      has a name below it, and no file member lies on the way to another entry. */
  lemma ExtractsExactly(t: Tools, fs: Store, destination: string, infos: seq<Info>)
    requires WellFormed(fs) && "" !in fs && destination != ""
    ensures Extracted(t, fs, destination, infos).ok <==>
      && Acceptable(t, infos) && PlaceFree(fs, destination)
      && (forall i: nat :: i < |infos| && !IsDir(infos[i]) ==> Parts(infos[i].name) != [])
      && forall i: nat, j: nat :: i < |infos| && j < |infos| && !IsDir(infos[i]) ==>
          !(Parts(infos[i].name) < Parts(infos[j].name))
  {
    hide Acceptable, Above, IsDir, MakeDirs, WellFormed, ExtractTo, Parts, Shape;
    MakeDirsExactly(fs, destination);
    if destination !in fs && Acceptable(t, infos) && MakeDirs(fs, destination).Some? {
      NamesDistinct(t, infos);
      DestinationShape(fs, destination, infos);
      EntriesExtracted(t, MakeDirs(fs, destination).value, destination, infos, |infos|);
      FitsExactly(infos);
    }
  }

  lemma FitsExactly(infos: seq<Info>)
    ensures (forall k: nat :: k < |infos| ==> Fits(infos, k)) <==>
      && (forall i: nat :: i < |infos| && !IsDir(infos[i]) ==> Parts(infos[i].name) != [])
      && forall i: nat, j: nat :: i < |infos| && j < |infos| && !IsDir(infos[i]) ==>
          !(Parts(infos[i].name) < Parts(infos[j].name))
  {
    hide IsDir, Parts;
    if forall k: nat :: k < |infos| ==> Fits(infos, k) {
      forall i: nat, j: nat | i < |infos| && j < |infos| && !IsDir(infos[i])
        ensures !(Parts(infos[i].name) < Parts(infos[j].name))
      {
        assert Fits(infos, i) && Fits(infos, j);
        assert Components(infos, i) == Parts(infos[i].name) && Components(infos, j) == Parts(infos[j].name);
      }
      forall i: nat | i < |infos| && !IsDir(infos[i]) ensures Parts(infos[i].name) != [] {
        assert Fits(infos, i);
      }
    }
  }

  // ----- the rows

  lemma {:induction false} MemberIsEntry(t: Tools, infos: seq<Info>, n: nat, name: string)
    requires n <= |infos| && SafeAndApart(t, infos, n)
    ensures name in Members(infos, n) <==> exists i: nat :: i < n && !IsDir(infos[i]) && NameOf(infos, i) == name
    ensures forall i: nat :: i < n && !IsDir(infos[i]) && NameOf(infos, i) == name ==>
      name in Members(infos, n) && Members(infos, n)[name] == infos[i]
  {
    hide IsDir, Parts, AsPosix, SafeEntry;
    if n > 0 {
      MemberIsEntry(t, infos, n - 1, name);
      assert NameOf(infos, n - 1) == MemberName(infos[n - 1]);
      hide NameOf, MemberName;
    }
  }

  /** The inventory of an accepted archive lists every file member with the size of its header and the digest of its
      bytes, by growing path, and nothing else. */
  lemma InventorySpelledOut(t: Tools, infos: seq<Info>, row: Row)
    requires Acceptable(t, infos)
    ensures var rows := ZipRows(t, Members(infos, |infos|));
      && (row in rows <==>
          exists i: nat :: i < |infos| && !IsDir(infos[i]) && infos[i].data.Some?
                           && row == Row(NameOf(infos, i), infos[i].size, t.digest(infos[i].data.value)))
      && forall i, j :: 0 <= i < j < |rows| ==> Less(rows[i].path, rows[j].path)
  {
    ReadableExactly(t, infos, |infos|);
    var members := Members(infos, |infos|);
    MemberIsEntry(t, infos, |infos|, row.path);
    forall i: nat | i < |infos| && !IsDir(infos[i]) ensures infos[i].data.Some? {
      EntriesReadable(t, infos, |infos|, i);
    }
    hide Readable, Members, TotalSize, NameOf, IsDir, SafeAndApart, Acceptable, Less;
    RowExactly(t, members, row);
    hide ZipRows;
  }

  lemma RowExactly(t: Tools, members: map<string, Info>, row: Row)
    ensures var rows := ZipRows(t, members);
      && (row in rows <==> row.path in members && row == RowOf(t, row.path, members[row.path]))
      && forall i, j :: 0 <= i < j < |rows| ==> Less(rows[i].path, rows[j].path)
  {
    hide Less, RowOf;
    var names := SortedSeq(members.Keys);
    var rows := ZipRows(t, members);
    NamesListed(members.Keys, names);
    forall i | 0 <= i < |names| ensures names[i] in members && rows[i] == RowOf(t, names[i], members[names[i]]) {
    }
    forall name, info ensures RowOf(t, name, info).path == name {
      RowPath(t, name, info);
    }
    if row.path in members && row == RowOf(t, row.path, members[row.path]) {
      assert row.path in names;
      var i :| 0 <= i < |names| && names[i] == row.path;
      assert rows[i] == row;
    }
  }

  lemma RowPath(t: Tools, name: string, info: Info)
    ensures RowOf(t, name, info).path == name
  {
  }
}
