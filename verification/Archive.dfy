/** Capturing a workflow artifact: the inventory of its ZIP, its extraction, and the inventory of the
    extracted tree. */
module Archive {
  import opened Results
  import opened Ordering
  import opened PosixPath

  type Bytes = string

  /** A ZIP entry. `size` is what its header states, `data` what reading it yields; `link` and
      `special` come from its mode bits. */
  datatype Info = Info(name: string, size: nat, data: Option<Bytes>, link: bool, special: bool, encrypted: bool)

  /** `str.casefold` and SHA-256. */
  datatype Tools = Tools(fold: string -> string, digest: Bytes -> string)

  const MAX_ZIP_ENTRIES := 100000
  const MAX_UNCOMPRESSED_BYTES := 8 * 1024 * 1024 * 1024

  datatype Row = Row(path: string, size: nat, sha256: string)

  /** `info.is_dir()` */
  predicate IsDir(info: Info) {
    info.name != "" && info.name[|info.name| - 1] == '/'
  }

  predicate DriveLetter(name: string) {
    |name| >= 2 && ('A' <= name[0] <= 'Z' || 'a' <= name[0] <= 'z') && name[1] == ':'
  }

  /** `_zip_member_path` accepts. */
  predicate Safe(info: Info) {
    && info.name != "" && '\0' !in info.name && '\\' !in info.name && info.name[0] != '/' && !DriveLetter(info.name)
    && ".." !in Parts(info.name) && !info.link && (IsDir(info) || !info.special) && !info.encrypted
  }

  /** The member's path as it is recorded. */
  function MemberName(info: Info): string {
    AsPosix(Parts(info.name))
  }

  // ----- the inventory of the archive

  /** The recorded paths of the first `n` entries. */
  function AllNames(infos: seq<Info>, n: nat): set<string>
    requires n <= |infos|
  {
    if n == 0 then {} else AllNames(infos, n - 1) + {MemberName(infos[n - 1])}
  }

  function AllFolded(t: Tools, infos: seq<Info>, n: nat): set<string>
    requires n <= |infos|
  {
    if n == 0 then {} else AllFolded(t, infos, n - 1) + {t.fold(MemberName(infos[n - 1]))}
  }

  function TotalSize(infos: seq<Info>, n: nat): nat
    requires n <= |infos|
  {
    if n == 0 then 0 else TotalSize(infos, n - 1) + infos[n - 1].size
  }

  /** The file members among the first `n` entries, by recorded path. */
  function Members(infos: seq<Info>, n: nat): map<string, Info>
    requires n <= |infos|
  {
    if n == 0 then map[]
    else if IsDir(infos[n - 1]) then Members(infos, n - 1)
    else Members(infos, n - 1)[MemberName(infos[n - 1]) := infos[n - 1]]
  }

  /** The first `n` entries are safe, readable and named differently, also case-insensitively. */
  predicate Readable(t: Tools, infos: seq<Info>, n: nat)
    requires n <= |infos|
  {
    n == 0 ||
    (var info := infos[n - 1];
     && Readable(t, infos, n - 1) && Safe(info)
     && MemberName(info) !in AllNames(infos, n - 1) && t.fold(MemberName(info)) !in AllFolded(t, infos, n - 1)
     && (IsDir(info) || info.data.Some?))
  }

  predicate Acceptable(t: Tools, infos: seq<Info>) {
    && |infos| <= MAX_ZIP_ENTRIES && TotalSize(infos, |infos|) <= MAX_UNCOMPRESSED_BYTES
    && Readable(t, infos, |infos|) && Members(infos, |infos|).Keys != {}
  }

  function RowOf(t: Tools, name: string, info: Info): Row {
    Row(name, info.size, if info.data.Some? then t.digest(info.data.value) else "")
  }

  /** The rows of a set of members, sorted by path. */
  ghost function ZipRows(t: Tools, members: map<string, Info>): seq<Row> {
    var names := SortedSeq(members.Keys);
    seq(|names|, i requires 0 <= i < |names| =>
      if names[i] in members then RowOf(t, names[i], members[names[i]]) else Row("", 0, ""))
  }

  lemma {:induction false} StaysUnreadable(t: Tools, infos: seq<Info>, i: nat, n: nat)
    requires i <= n <= |infos| && !Readable(t, infos, i)
    ensures !Readable(t, infos, n)
  {
    hide Safe, MemberName;
    if i < n {
      StaysUnreadable(t, infos, i, n - 1);
    }
  }

  /** The loop over the entries. */
  method ScanEntries(t: Tools, infos: seq<Info>) returns (r: Option<map<string, Info>>)
    ensures r.Some? <==> Readable(t, infos, |infos|)
    ensures r.Some? ==> r.value == Members(infos, |infos|)
  {
    hide Safe, MemberName;
    var seen: set<string> := {};
    var seenFolded: set<string> := {};
    var members: map<string, Info> := map[];
    for i := 0 to |infos|
      invariant seen == AllNames(infos, i) && seenFolded == AllFolded(t, infos, i) && members == Members(infos, i)
      invariant Readable(t, infos, i)
    {
      var info := infos[i];
      var name := MemberName(info);
      if !Safe(info) || name in seen || t.fold(name) in seenFolded || (!IsDir(info) && info.data.None?) {
        StaysUnreadable(t, infos, i + 1, |infos|);
        return None;
      }
      seen := seen + {name};
      seenFolded := seenFolded + {t.fold(name)};
      if !IsDir(info) {
        members := members[name := info];
      }
    }
    r := Some(members);
  }

  /** `zip_inventory`; a refusal is its ValueError or an error while reading. */
  method ZipInventory(t: Tools, infos: seq<Info>) returns (r: Option<seq<Row>>)
    ensures r.Some? <==> Acceptable(t, infos)
    ensures r.Some? ==> r.value == ZipRows(t, Members(infos, |infos|))
  {
    hide Readable, Members, ZipRows;
    if |infos| > MAX_ZIP_ENTRIES {
      return None;
    }
    var total := 0;
    for i := 0 to |infos|
      invariant total == TotalSize(infos, i)
    {
      total := total + infos[i].size;
    }
    if total > MAX_UNCOMPRESSED_BYTES {
      return None;
    }
    var members := ScanEntries(t, infos);
    if members.None? || members.value.Keys == {} {
      return None;
    }
    var rows := SortedRows(t, members.value);
    r := Some(rows);
  }

  method SortedRows(t: Tools, members: map<string, Info>) returns (rows: seq<Row>)
    ensures rows == ZipRows(t, members)
  {
    hide SortedSeq;
    var names := SortSet(members.Keys);
    NamesListed(members.Keys, names);
    rows := [];
    for i := 0 to |names|
      invariant |rows| == i && forall k :: 0 <= k < i ==> names[k] in members && rows[k] == RowOf(t, names[k], members[names[k]])
    {
      rows := rows + [RowOf(t, names[i], members[names[i]])];
    }
  }

  lemma NamesListed(s: set<string>, names: seq<string>)
    requires names == SortedSeq(s)
    ensures forall i :: 0 <= i < |names| ==> names[i] in s
  {
    hide StrictlySorted;
    forall i | 0 <= i < |names| ensures names[i] in s {
      assert names[i] in names;
    }
  }

  // ----- the file store

  datatype Node = File(bytes: Bytes) | Directory

  type Store = map<string, Node>

  /** The path before the last separator. */
  function Parent(p: string): string {
    if p == "" then "" else if p[|p| - 1] == '/' then p[..|p| - 1] else Parent(p[..|p| - 1])
  }

  lemma {:induction false} ParentShorter(p: string)
    ensures p != "" ==> |Parent(p)| < |p|
  {
    if p != "" && p[|p| - 1] != '/' {
      ParentShorter(p[..|p| - 1]);
    }
  }

  /** `mkdir(parents=True, exist_ok=True)`; the root is there. */
  function MakeDirs(fs: Store, p: string): Option<Store>
    decreases |p|
  {
    if p in fs then if fs[p].Directory? then Some(fs) else None
    else if p == "" then Some(fs)
    else
      ParentShorter(p);
      var above := MakeDirs(fs, Parent(p));
      if above.None? then None else Some(above.value[p := Directory])
  }

  /** Where a member goes. */
  function Target(destination: string, info: Info): string {
    var parts := Parts(info.name);
    if parts == [] then destination else destination + "/" + Join(parts)
  }

  /** Where a path leads from a directory: ".." goes back up. */
  function Resolve(base: seq<string>, parts: seq<string>): seq<string>
    decreases |parts|
  {
    if parts == [] then base
    else if parts[0] == ".." then Resolve(if base == [] then [] else base[..|base| - 1], parts[1..])
    else Resolve(base + [parts[0]], parts[1..])
  }

  /** The resolved target is not below the destination. */
  predicate Escapes(destination: string, info: Info) {
    !(Parts(destination) <= Resolve(Parts(destination), Parts(info.name)))
  }

  /** The store an extraction leaves behind, and whether it came to its end without an exception. */
  datatype Extraction = Extraction(store: Store, ok: bool)

  /** One entry: a directory is made, a file is created exclusively below its parent. What was made
      before an exception stays. */
  function ExtractOne(fs: Store, destination: string, info: Info): Extraction {
    var target := Target(destination, info);
    if Escapes(destination, info) then Extraction(fs, false)
    else
      var made := MakeDirs(fs, if IsDir(info) then target else Parent(target));
      if made.None? then Extraction(fs, false)
      else if IsDir(info) then Extraction(made.value, true)
      else if target in made.value || info.data.None? then Extraction(made.value, false)
      else Extraction(made.value[target := File(info.data.value)], true)
  }

  function ExtractTo(fs: Store, destination: string, infos: seq<Info>, n: nat): Extraction
    requires n <= |infos|
  {
    if n == 0 then Extraction(fs, true)
    else
      var before := ExtractTo(fs, destination, infos, n - 1);
      if before.ok then ExtractOne(before.store, destination, infos[n - 1]) else before
  }

  function Extracted(t: Tools, fs: Store, destination: string, infos: seq<Info>): Extraction {
    if destination in fs || !Acceptable(t, infos) then Extraction(fs, false)
    else
      var made := MakeDirs(fs, destination);
      if made.None? then Extraction(fs, false) else ExtractTo(made.value, destination, infos, |infos|)
  }

  /** `safe_extract` */
  method SafeExtract(t: Tools, fs: Store, destination: string, infos: seq<Info>) returns (r: Extraction)
    ensures r == Extracted(t, fs, destination, infos)
  {
    hide ExtractOne, Acceptable, MakeDirs;
    if destination in fs {
      return Extraction(fs, false);
    }
    var inventory := ZipInventory(t, infos);
    if inventory.None? {
      return Extraction(fs, false);
    }
    var made := MakeDirs(fs, destination);
    if made.None? {
      return Extraction(fs, false);
    }
    r := Extraction(made.value, true);
    for i := 0 to |infos|
      invariant ExtractTo(made.value, destination, infos, i) == r && r.ok
    {
      r := ExtractEntry(r.store, destination, infos[i]);
      if !r.ok {
        StaysFailed(made.value, destination, infos, i + 1, |infos|);
        return;
      }
    }
  }

  method ExtractEntry(fs: Store, destination: string, info: Info) returns (r: Extraction)
    ensures r == ExtractOne(fs, destination, info)
  {
    hide MakeDirs, Target, Escapes;
    var target := Target(destination, info);
    if Escapes(destination, info) {
      return Extraction(fs, false);
    }
    if IsDir(info) {
      var made := MakeDirs(fs, target);
      return if made.None? then Extraction(fs, false) else Extraction(made.value, true);
    }
    var above := MakeDirs(fs, Parent(target));
    if above.None? {
      return Extraction(fs, false);
    }
    if target in above.value || info.data.None? {
      return Extraction(above.value, false);
    }
    r := Extraction(above.value[target := File(info.data.value)], true);
  }

  lemma {:induction false} StaysFailed(fs: Store, destination: string, infos: seq<Info>, i: nat, n: nat)
    requires i <= n <= |infos| && !ExtractTo(fs, destination, infos, i).ok
    ensures ExtractTo(fs, destination, infos, n) == ExtractTo(fs, destination, infos, i)
  {
    hide ExtractOne;
    if i < n {
      StaysFailed(fs, destination, infos, i, n - 1);
    }
  }

  /** How many of the first `n` entries were extracted. */
  function Reached(fs: Store, destination: string, infos: seq<Info>, n: nat): (r: nat)
    requires n <= |infos|
    ensures r <= n && (r == n <==> ExtractTo(fs, destination, infos, n).ok)
  {
    if ExtractTo(fs, destination, infos, n).ok then n else Reached(fs, destination, infos, n - 1)
  }

  // ----- the inventory of a tree

  /** `p` lies below `destination`. */
  predicate Inside(destination: string, p: string) {
    |p| > |destination| && p[..|destination|] == destination && p[|destination|] == '/'
  }

  function At(destination: string, name: string): string {
    destination + "/" + name
  }

  /** The relative paths of the files below `destination`. */
  function TreeNames(fs: Store, destination: string): set<string> {
    set p | p in fs && Inside(destination, p) && fs[p].File? :: p[|destination| + 1..]
  }

  lemma TreeNameAt(fs: Store, destination: string, name: string)
    ensures name in TreeNames(fs, destination) <==> At(destination, name) in fs && fs[At(destination, name)].File?
  {
    var p := At(destination, name);
    assert Inside(destination, p) && p[|destination| + 1..] == name;
    if name in TreeNames(fs, destination) {
      var q :| q in fs && Inside(destination, q) && fs[q].File? && q[|destination| + 1..] == name;
      assert q == destination + "/" + q[|destination| + 1..];
    }
  }

  function TreeRow(t: Tools, fs: Store, destination: string, name: string): Row {
    var p := At(destination, name);
    if p in fs && fs[p].File? then Row(name, |fs[p].bytes|, t.digest(fs[p].bytes)) else Row("", 0, "")
  }

  /** The rows of the files below `destination`, sorted by relative path. */
  ghost function TreeRows(t: Tools, fs: Store, destination: string): seq<Row> {
    var names := SortedSeq(TreeNames(fs, destination));
    seq(|names|, i requires 0 <= i < |names| => TreeRow(t, fs, destination, names[i]))
  }

  /** The `files` of `tree_inventory`; a missing or empty tree is refused. */
  method TreeInventory(t: Tools, fs: Store, destination: string) returns (r: Option<seq<Row>>)
    ensures r.Some? <==> destination in fs && fs[destination].Directory? && TreeNames(fs, destination) != {}
    ensures r.Some? ==> r.value == TreeRows(t, fs, destination)
  {
    hide SortedSeq, TreeRow;
    if destination !in fs || !fs[destination].Directory? {
      return None;
    }
    var names := SortSet(TreeNames(fs, destination));
    NamesListed(TreeNames(fs, destination), names);
    if names == [] {
      NothingListed(TreeNames(fs, destination), names);
      return None;
    }
    assert names[0] in TreeNames(fs, destination);
    var rows: seq<Row> := [];
    for i := 0 to |names|
      invariant |rows| == i && forall k :: 0 <= k < i ==> rows[k] == TreeRow(t, fs, destination, names[k])
    {
      rows := rows + [TreeRow(t, fs, destination, names[i])];
    }
    r := Some(rows);
  }

  lemma NothingListed(s: set<string>, names: seq<string>)
    requires names == SortedSeq(s) && names == []
    ensures s == {}
  {
    forall x ensures x !in s {
      assert x in names <==> x in s;
    }
  }

  // ----- where directories are made

  /** `q` is `p` or one of the directories `p` lies in. */
  predicate Above(q: string, p: string) {
    |q| <= |p| && p[..|q|] == q && (|q| == |p| || p[|q|] == '/')
  }

  lemma {:induction false} ParentAbove(p: string)
    requires p != "" && Parent(p) != ""
    ensures Above(Parent(p), p)
  {
    if p[|p| - 1] != '/' {
      ParentAbove(p[..|p| - 1]);
      ParentShorter(p[..|p| - 1]);
    }
  }

  lemma AboveTransitive(a: string, b: string, c: string)
    requires Above(a, b) && Above(b, c)
    ensures Above(a, c)
  {
    assert c[..|a|] == b[..|a|];
    if |a| < |b| { assert c[|a|] == b[|a|]; }
  }

  /** Making directories changes nothing that is there and adds only directories on the way. */
  lemma {:induction false} MakeDirsAdds(fs: Store, p: string)
    requires MakeDirs(fs, p).Some?
    ensures forall q :: q in fs ==> q in MakeDirs(fs, p).value && MakeDirs(fs, p).value[q] == fs[q]
    ensures forall q :: q in MakeDirs(fs, p).value && q !in fs ==> Above(q, p) && q != "" && MakeDirs(fs, p).value[q] == Directory
    ensures p != "" ==> p in MakeDirs(fs, p).value && MakeDirs(fs, p).value[p].Directory?
    decreases |p|
  {
    hide Above, Parent;
    if p !in fs && p != "" {
      ParentShorter(p);
      MakeDirsAdds(fs, Parent(p));
      AboveItself(p);
      forall q | q in MakeDirs(fs, Parent(p)).value && q !in fs ensures Above(q, p) {
        NotEmptyParent(q, p);
        ParentAbove(p);
        AboveTransitive(q, Parent(p), p);
      }
    }
  }

  lemma AboveItself(p: string)
    ensures Above(p, p)
  {
  }

  lemma NotEmptyParent(q: string, p: string)
    requires q != "" && Above(q, Parent(p))
    ensures Parent(p) != ""
  {
    hide Parent;
  }

  /** Below a directory that is there, nothing outside it is made. */
  lemma {:induction false} MakeDirsInside(fs: Store, destination: string, p: string)
    requires destination in fs && fs[destination].Directory? && (p == destination || Inside(destination, p))
    requires MakeDirs(fs, p).Some?
    ensures forall q :: q in MakeDirs(fs, p).value && q !in fs ==> Inside(destination, q)
    decreases |p|
  {
    hide Inside, Parent;
    if p !in fs && p != "" {
      ParentShorter(p);
      ParentInside(destination, p);
      MakeDirsInside(fs, destination, Parent(p));
    }
  }

  lemma {:induction false} ParentInside(destination: string, p: string)
    requires Inside(destination, p)
    ensures Parent(p) == destination || Inside(destination, Parent(p))
  {
    if p[|p| - 1] != '/' {
      ParentInside(destination, p[..|p| - 1]);
    } else if |p| - 1 == |destination| {
      assert p[..|p| - 1] == destination;
    }
  }

  // ----- members stay below the destination

  lemma {:induction false} NoWayUp(base: seq<string>, parts: seq<string>)
    requires ".." !in parts
    ensures Resolve(base, parts) == base + parts
    decreases |parts|
  {
    if parts == [] {
      assert base + parts == base;
    } else {
      assert parts[0] in parts;
      NoWayUp(base + [parts[0]], parts[1..]);
      assert base + [parts[0]] + parts[1..] == base + parts;
    }
  }

  lemma {:induction false} EntriesAreSafe(t: Tools, infos: seq<Info>, n: nat, i: nat)
    requires i < n <= |infos| && Readable(t, infos, n)
    ensures Safe(infos[i])
  {
    hide MemberName, Safe;
    if i < n - 1 {
      EntriesAreSafe(t, infos, n - 1, i);
    }
  }

  /** On an accepted archive no entry leaves the destination, so the extraction's own check of the
      resolved target never fires. */
  lemma AcceptedEntriesStayBelow(t: Tools, infos: seq<Info>, destination: string, i: nat)
    requires Acceptable(t, infos) && i < |infos|
    ensures !Escapes(destination, infos[i])
    ensures Resolve(Parts(destination), Parts(infos[i].name)) == Parts(destination) + Parts(infos[i].name)
  {
    EntriesAreSafe(t, infos, |infos|, i);
    NoWayUp(Parts(destination), Parts(infos[i].name));
    hide Parts;
  }

  // ----- one entry

  lemma TargetAt(destination: string, info: Info)
    ensures Target(destination, info) == if Parts(info.name) == [] then destination else At(destination, MemberName(info))
    ensures Parts(info.name) != [] ==> Inside(destination, Target(destination, info))
  {
    hide Parts, Join;
  }

  /** `q` may appear when extracting: below the destination, or as a directory above it. */
  predicate MayAppear(destination: string, q: string, node: Node) {
    Inside(destination, q) || (Above(q, destination) && node == Directory)
  }

  lemma ParentDirsAdd(fs: Store, destination: string, target: string)
    requires destination in fs && fs[destination].Directory? && (target == destination || Inside(destination, target))
    requires MakeDirs(fs, Parent(target)).Some?
    ensures var made := MakeDirs(fs, Parent(target)).value;
      && (forall q :: q in fs ==> q in made && made[q] == fs[q])
      && forall q :: q in made && q !in fs ==> made[q] == Directory && MayAppear(destination, q, made[q])
  {
    assert target == "" ==> Parent(target) == "";
    hide Inside, MakeDirs, Parent, Above;
    MakeDirsAdds(fs, Parent(target));
    if target == destination {
      forall q | q in MakeDirs(fs, Parent(target)).value && q !in fs ensures Above(q, destination) {
        NotEmptyParent(q, target);
        ParentAbove(target);
        AboveTransitive(q, Parent(target), target);
      }
    } else {
      ParentInside(destination, target);
      MakeDirsInside(fs, destination, Parent(target));
    }
  }

  /** Extracting an entry leaves everything there as it is, adds only what may appear, and adds exactly
      one file for a file member; for a directory, or when it fails, only directories. */
  lemma ExtractOneAdds(fs: Store, destination: string, info: Info)
    requires destination in fs && fs[destination].Directory?
    ensures var r := ExtractOne(fs, destination, info);
      && (forall q :: q in fs ==> q in r.store && r.store[q] == fs[q])
      && (forall q :: q in r.store && q !in fs ==> MayAppear(destination, q, r.store[q]))
      && (IsDir(info) || !r.ok ==> forall q :: q in r.store && q !in fs ==> r.store[q].Directory?)
      && (r.ok && !IsDir(info) ==>
            var target := At(destination, MemberName(info));
            && info.data.Some? && target !in fs && target in r.store && r.store[target] == File(info.data.value)
            && forall q :: q in r.store && q !in fs && q != target ==> r.store[q].Directory?)
  {
    hide Inside, Above, At, Target, MemberName, MakeDirs, Escapes, Parent;
    var target := Target(destination, info);
    TargetAt(destination, info);
    if IsDir(info) {
      if MakeDirs(fs, target).Some? {
        MakeDirsAdds(fs, target);
        MakeDirsInside(fs, destination, target);
      }
    } else if MakeDirs(fs, Parent(target)).Some? {
      ParentDirsAdd(fs, destination, target);
      if target !in MakeDirs(fs, Parent(target)).value { MissingIsNotDestination(fs, destination, info); }
    }
  }

  lemma MissingIsNotDestination(fs: Store, destination: string, info: Info)
    requires destination in fs && MakeDirs(fs, Parent(Target(destination, info))).Some?
    requires Target(destination, info) !in MakeDirs(fs, Parent(Target(destination, info))).value
    ensures Parts(info.name) != []
  {
    hide Parts, Join, MakeDirs, Parent;
    MakeDirsAdds(fs, Parent(Target(destination, info)));
  }

  // ----- the whole archive

  lemma AtInjective(destination: string, a: string, b: string)
    requires At(destination, a) == At(destination, b)
    ensures a == b
  {
    var n := |destination| + 1;
    assert At(destination, a)[n..] == a && At(destination, b)[n..] == b;
  }

  /** The file members that are in the store, and nothing else below the destination. */
  ghost predicate Holds(fs: Store, destination: string, members: map<string, Info>, name: string) {
    var p := At(destination, name);
    && (p in fs && fs[p].File? <==> name in members)
    && (name in members ==> members[name].data.Some? && fs[p] == File(members[name].data.value))
  }

  lemma {:induction false} ExtractToHolds(fs: Store, destination: string, infos: seq<Info>, n: nat, name: string)
    requires n <= |infos| && destination in fs && fs[destination].Directory?
    requires forall q :: q in fs ==> !Inside(destination, q)
    ensures var r := ExtractTo(fs, destination, infos, n);
      && destination in r.store && r.store[destination].Directory?
      && Holds(r.store, destination, Members(infos, Reached(fs, destination, infos, n)), name)
  {
    hide ExtractOne, MemberName, Holds, Inside;
    if n == 0 {
      HoldsNothing(fs, destination, name);
    } else {
      ExtractToHolds(fs, destination, infos, n - 1, name);
      var before := ExtractTo(fs, destination, infos, n - 1);
      if before.ok {
        ExtractOneAdds(before.store, destination, infos[n - 1]);
        HoldsStep(before.store, destination, Members(infos, n - 1), infos[n - 1], name);
        assert Reached(fs, destination, infos, n - 1) == n - 1;
      }
    }
  }

  lemma HoldsNothing(fs: Store, destination: string, name: string)
    requires forall q :: q in fs ==> !Inside(destination, q)
    ensures Holds(fs, destination, map[], name)
  {
    assert Inside(destination, At(destination, name));
  }

  lemma HoldsStep(fs: Store, destination: string, members: map<string, Info>, info: Info, name: string)
    requires destination in fs && fs[destination].Directory? && Holds(fs, destination, members, name)
    ensures var r := ExtractOne(fs, destination, info);
      Holds(r.store, destination, if r.ok && !IsDir(info) then members[MemberName(info) := info] else members, name)
  {
    hide ExtractOne, Inside, Above, At, MemberName, IsDir, MayAppear;
    ExtractOneAdds(fs, destination, info);
    if !IsDir(info) && At(destination, MemberName(info)) == At(destination, name) {
      AtInjective(destination, MemberName(info), name);
    }
  }

  lemma {:induction false} ExtractToAdds(fs: Store, destination: string, infos: seq<Info>, n: nat)
    requires n <= |infos| && destination in fs && fs[destination].Directory?
    ensures var fs' := ExtractTo(fs, destination, infos, n).store;
      && (forall q :: q in fs ==> q in fs' && fs'[q] == fs[q])
      && (forall q :: q in fs' && q !in fs ==> MayAppear(destination, q, fs'[q]))
  {
    hide ExtractOne, MayAppear;
    if n > 0 {
      ExtractToAdds(fs, destination, infos, n - 1);
      ExtractOneAdds(ExtractTo(fs, destination, infos, n - 1).store, destination, infos[n - 1]);
    }
  }

  /** Everything in the store lies in directories that are there. */
  ghost predicate WellFormed(fs: Store) {
    forall p :: p in fs && Parent(p) != "" ==> Parent(p) in fs && fs[Parent(p)].Directory?
  }

  lemma {:induction false} NothingBelowMissing(fs: Store, destination: string, p: string)
    requires WellFormed(fs) && destination != "" && destination !in fs && Inside(destination, p)
    ensures p !in fs
    decreases |p|
  {
    hide Inside, Parent;
    ParentInside(destination, p);
    assert p != "" && Parent(p) != "" by { InsideNotEmpty(destination, p); ParentNotEmpty(destination, p); }
    ParentShorter(p);
    if Parent(p) != destination {
      NothingBelowMissing(fs, destination, Parent(p));
    }
  }

  lemma InsideNotEmpty(destination: string, p: string)
    requires Inside(destination, p)
    ensures p != ""
  {
  }

  lemma ParentNotEmpty(destination: string, p: string)
    requires Inside(destination, p) && destination != ""
    ensures Parent(p) != ""
  {
    ParentInside(destination, p);
    hide Parent;
  }

  /** Whether it comes to its end or not, extracting changes nothing that is there; what it adds is
      below the destination, or a directory above it. */
  lemma NothingOutsideChanges(t: Tools, fs: Store, destination: string, infos: seq<Info>)
    requires destination != ""
    ensures var fs' := Extracted(t, fs, destination, infos).store;
      && (forall q :: q in fs ==> q in fs' && fs'[q] == fs[q])
      && (forall q :: q in fs' && q !in fs ==> MayAppear(destination, q, fs'[q]))
  {
    hide Inside, Above, Acceptable;
    if destination !in fs && Acceptable(t, infos) && MakeDirs(fs, destination).Some? {
      MakeDirsAdds(fs, destination);
      ExtractToAdds(MakeDirs(fs, destination).value, destination, infos, |infos|);
    }
  }

  /** How many entries a call extracts. */
  function Done(t: Tools, fs: Store, destination: string, infos: seq<Info>): (n: nat)
    ensures n <= |infos| && (Extracted(t, fs, destination, infos).ok ==> n == |infos|)
  {
    if destination in fs || !Acceptable(t, infos) || MakeDirs(fs, destination).None? then 0
    else Reached(MakeDirs(fs, destination).value, destination, infos, |infos|)
  }

  /** Into a destination that was not there, the files below it are exactly the file members among
      the entries that were extracted, with the bytes of the archive: all of them when the call
      comes to its end, those before the failing entry otherwise. */
  lemma ExtractedFiles(t: Tools, fs: Store, destination: string, infos: seq<Info>, name: string)
    requires WellFormed(fs) && destination != "" && destination !in fs
    ensures Holds(
      Extracted(t, fs, destination, infos).store, destination, Members(infos, Done(t, fs, destination, infos)), name)
  {
    hide Acceptable, Holds, Above, Inside, MakeDirs, ExtractTo, Members;
    forall q | q in fs ensures !Inside(destination, q) {
      if Inside(destination, q) { NothingBelowMissing(fs, destination, q); }
    }
    if Acceptable(t, infos) && MakeDirs(fs, destination).Some? {
      MakeDirsAdds(fs, destination);
      var made := MakeDirs(fs, destination).value;
      forall q | q in made ensures !Inside(destination, q) {
        AboveNotInside(q, destination);
      }
      ExtractToHolds(made, destination, infos, |infos|, name);
    } else {
      HoldsNothing(fs, destination, name);
      NoMembers(infos);
    }
  }

  lemma NoMembers(infos: seq<Info>)
    ensures Members(infos, 0) == map[]
  {
  }

  lemma AboveNotInside(q: string, destination: string)
    ensures !(Above(q, destination) && Inside(destination, q))
  {
  }

  /** The header of every file member states the size that reading it yields. */
  predicate HonestSizes(members: map<string, Info>) {
    forall name :: name in members ==> members[name].data.Some? && members[name].size == |members[name].data.value|
  }

  /** After a complete extraction the inventory of the tree names the members of the archive in the
      same order with the same digests; it is the same inventory exactly when no header misstates a
      size. */
  lemma TreeMatchesArchive(t: Tools, fs: Store, destination: string, infos: seq<Info>)
    requires WellFormed(fs) && destination != "" && Extracted(t, fs, destination, infos).ok
    ensures var tree, zip := TreeRows(t, Extracted(t, fs, destination, infos).store, destination), ZipRows(t, Members(infos, |infos|));
      && |tree| == |zip| && (forall i :: 0 <= i < |tree| ==> tree[i].path == zip[i].path && tree[i].sha256 == zip[i].sha256)
      && (tree == zip <==> HonestSizes(Members(infos, |infos|)))
  {
    assert destination !in fs && Done(t, fs, destination, infos) == |infos|;
    hide Extracted, Members, SortedSeq, Done;
    var fs' := Extracted(t, fs, destination, infos).store;
    var members := Members(infos, |infos|);
    forall name
      ensures name in TreeNames(fs', destination) <==> name in members
      ensures Holds(fs', destination, members, name)
    {
      ExtractedFiles(t, fs, destination, infos, name);
      TreeNameAt(fs', destination, name);
    }
    assert TreeNames(fs', destination) == members.Keys;
    RowsAgree(t, fs', destination, members);
  }

  lemma RowsAgree(t: Tools, fs: Store, destination: string, members: map<string, Info>)
    requires TreeNames(fs, destination) == members.Keys && forall name :: Holds(fs, destination, members, name)
    ensures var tree, zip := TreeRows(t, fs, destination), ZipRows(t, members);
      && |tree| == |zip| && (forall i :: 0 <= i < |tree| ==> tree[i].path == zip[i].path && tree[i].sha256 == zip[i].sha256)
      && (tree == zip <==> HonestSizes(members))
  {
    hide SortedSeq, TreeNames, At;
    var names := SortedSeq(members.Keys);
    NamesListed(members.Keys, names);
    var tree, zip := TreeRows(t, fs, destination), ZipRows(t, members);
    forall i | 0 <= i < |names|
      ensures names[i] in members && members[names[i]].data.Some?
      ensures tree[i] == Row(names[i], |members[names[i]].data.value|, t.digest(members[names[i]].data.value))
      ensures zip[i] == Row(names[i], members[names[i]].size, t.digest(members[names[i]].data.value))
    {
      assert Holds(fs, destination, members, names[i]);
    }
    if tree == zip {
      forall name | name in members ensures members[name].data.Some? && members[name].size == |members[name].data.value| {
        assert name in names;
        var i :| 0 <= i < |names| && names[i] == name;
        assert tree[i] == zip[i];
      }
    }
  }

  /** A file member whose header states two bytes while reading it yields one. */
  const MISSTATED := Info("a", 2, Some("x"), false, false, false)

  lemma MisstatedParts()
    ensures Parts("a") == ["a"] && MemberName(MISSTATED) == "a" && Safe(MISSTATED) && !IsDir(MISSTATED)
  {
    assert Split("") == [""];
    assert "a"[1..] == "" && [""][1..] == [] && ['a'] + "" == "a";
    assert Split("a") == ["a"];
    assert ["a"][1..] == [] && Kept([]) == [];
    assert Kept(["a"]) == ["a"];
    assert Join(["a"]) == "a";
    hide Split, Kept;
  }

  lemma MisstatedAccepted(t: Tools)
    ensures Acceptable(t, [MISSTATED]) && Members([MISSTATED], 1) == map["a" := MISSTATED]
  {
    MisstatedParts();
    hide Safe, MemberName;
    var infos := [MISSTATED];
    assert AllNames(infos, 0) == {} && AllFolded(t, infos, 0) == {} && TotalSize(infos, 0) == 0 && Members(infos, 0) == map[];
    assert Readable(t, infos, 1);
    assert "a" in Members(infos, 1);
  }

  lemma MisstatedExtracted(t: Tools)
    ensures Extracted(t, map[], "d", [MISSTATED]).ok
  {
    MisstatedParts();
    MisstatedAccepted(t);
    AcceptedEntriesStayBelow(t, [MISSTATED], "d", 0);
    hide Acceptable, Escapes, IsDir;
    assert Parent("") == "" && Parent("d") == "" && MakeDirs(map[], "") == Some(map[]);
    assert MakeDirs(map[], "d") == Some(map["d" := Directory]);
    var fs: Store := map["d" := Directory];
    assert Target("d", MISSTATED) == "d/a";
    assert "d/a"[..2] == "d/" && "d/"[..1] == "d" && Parent("d/") == "d" && Parent("d/a") == "d";
    assert MakeDirs(fs, "d") == Some(fs);
    assert "d/a" !in fs by { assert |"d/a"| != |"d"|; }
    assert ExtractOne(fs, "d", MISSTATED).ok;
    hide ExtractOne, MakeDirs;
    assert ExtractTo(fs, "d", [MISSTATED], 0) == Extraction(fs, true);
  }

  /** An accepted archive whose tree has another inventory. */
  lemma HeaderMisstatesSize(t: Tools)
    ensures Extracted(t, map[], "d", [MISSTATED]).ok
    ensures TreeRows(t, Extracted(t, map[], "d", [MISSTATED]).store, "d") != ZipRows(t, Members([MISSTATED], 1))
  {
    MisstatedAccepted(t);
    MisstatedExtracted(t);
    TreeMatchesArchive(t, map[], "d", [MISSTATED]);
    assert !HonestSizes(map["a" := MISSTATED]) by {
      assert map["a" := MISSTATED]["a"].size != |"x"|;
    }
    hide *;
  }
}
