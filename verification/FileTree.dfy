/** A file system as finite trees, one per volume, and the order in which
    `filepath.WalkDir` and `filepath.Glob` list it. */
module FileTree {
  import opened Paths
  import opened Wildcards

  datatype Node =
    | File(name: string)
    | Dir(name: string, kids: seq<Node>)

  datatype Entry = Entry(path: Path, isDir: bool)

  /** The contents of the root directory of each mounted volume. */
  type FileSystem = map<Volume, seq<Node>>

  ghost predicate WellFormedKids(kids: seq<Node>)
    decreases kids
  {
    && (forall k :: k in kids ==> ValidComp(k.name) && (k.Dir? ==> WellFormedKids(k.kids)))
    && (forall i, j :: 0 <= i < j < |kids| ==> kids[i].name != kids[j].name)
  }

  ghost predicate WellFormed(fs: FileSystem) {
    forall v :: v in fs ==> ValidVolume(v) && WellFormedKids(fs[v])
  }

  function Child(dir: Path, name: string): Path {
    Path(dir.vol, dir.comps + [name])
  }

  // ---- what exists ----

  ghost predicate Exists(kids: seq<Node>, comps: seq<string>, isDir: bool)
    decreases |comps|
  {
    comps != [] && exists k :: k in kids && IsAt(k, comps, isDir)
  }

  ghost predicate IsAt(k: Node, comps: seq<string>, isDir: bool)
    requires comps != []
    decreases |comps|, 0
  {
    && k.name == comps[0]
    && (if |comps| == 1 then k.Dir? == isDir else k.Dir? && Exists(k.kids, comps[1..], isDir))
  }

  /** The entry with this path and kind is in the file system; roots are not entries. */
  ghost predicate Has(fs: FileSystem, e: Entry) {
    e.path.vol in fs && Exists(fs[e.path.vol], e.path.comps, e.isDir)
  }

  /** Files are only added: every entry of the first file system is in the second. */
  ghost predicate Grows(fs: FileSystem, fs': FileSystem) {
    forall e :: Has(fs, e) ==> Has(fs', e)
  }

  // ---- the recursive walk ----

  function WalkKids(dir: Path, kids: seq<Node>): seq<Entry>
    decreases kids
  {
    if kids == [] then []
    else WalkNode(dir, kids[0]) + WalkKids(dir, kids[1..])
  }

  function WalkNode(dir: Path, k: Node): seq<Entry>
    decreases k
  {
    match k
    case File(name) => [Entry(Child(dir, name), false)]
    case Dir(name, kids) => [Entry(Child(dir, name), true)] + WalkKids(Child(dir, name), kids)
  }

  /** e lies below dir at the place that comps name. */
  predicate Below(dir: Path, p: Path) {
    p.vol == dir.vol && dir.comps < p.comps
  }

  lemma {:induction false} WalkKidsMeaning(dir: Path, kids: seq<Node>, e: Entry)
    ensures e in WalkKids(dir, kids)
       <==> Below(dir, e.path) && Exists(kids, e.path.comps[|dir.comps|..], e.isDir)
    decreases kids
  {
    if kids == [] {
    } else {
      WalkNodeMeaning(dir, kids[0], e);
      WalkKidsMeaning(dir, kids[1..], e);
      if Below(dir, e.path) {
        var rest := e.path.comps[|dir.comps|..];
        assert forall k :: k in kids <==> k == kids[0] || k in kids[1..];
      }
    }
  }

  lemma {:induction false} WalkNodeMeaning(dir: Path, k: Node, e: Entry)
    ensures e in WalkNode(dir, k)
       <==> Below(dir, e.path) && IsAt(k, e.path.comps[|dir.comps|..], e.isDir)
    decreases k
  {
    var sub := Child(dir, k.name);
    if k.Dir? {
      WalkKidsMeaning(sub, k.kids, e);
    }
    if Below(dir, e.path) {
      var rest := e.path.comps[|dir.comps|..];
      assert e.path.comps == dir.comps + rest;
      if rest[0] == k.name {
        assert sub.comps == e.path.comps[..|sub.comps|];
        if |rest| > 1 {
          assert rest[1..] == e.path.comps[|sub.comps|..];
        } else {
          assert e.path.comps == sub.comps;
        }
      }
    }
    if Below(sub, e.path) {
      assert dir.comps == e.path.comps[..|dir.comps|];
      assert e.path.comps[|dir.comps|] == k.name;
    }
  }

  // ---- looking a directory up ----

  datatype Found = Missing | Plain | Folder(kids: seq<Node>)

  function Find(kids: seq<Node>, name: string): (r: Found)
  {
    if kids == [] then Missing
    else if kids[0].name == name then
      match kids[0] { case File(_) => Plain case Dir(_, ks) => Folder(ks) }
    else Find(kids[1..], name)
  }

  function Lookup(kids: seq<Node>, comps: seq<string>): Found
    decreases |comps|
  {
    if comps == [] then Folder(kids)
    else match Find(kids, comps[0])
      case Missing => Missing
      case Plain => if |comps| == 1 then Plain else Missing
      case Folder(ks) => Lookup(ks, comps[1..])
  }

  lemma {:induction false} FindMeaning(kids: seq<Node>, name: string)
    requires WellFormedKids(kids)
    ensures match Find(kids, name)
            case Missing => forall k :: k in kids ==> k.name != name
            case Plain => File(name) in kids && (forall k :: k in kids && k.name == name ==> k == File(name))
            case Folder(ks) => Dir(name, ks) in kids && WellFormedKids(ks)
                               && (forall k :: k in kids && k.name == name ==> k == Dir(name, ks))
  {
    if kids == [] {
    } else {
      assert WellFormedKids(kids[1..]) by {
        assert forall k :: k in kids[1..] ==> k in kids;
      }
      assert forall k :: k in kids <==> k == kids[0] || k in kids[1..];
      if kids[0].name == name {
        assert kids[0] in kids;
      } else {
        FindMeaning(kids[1..], name);
      }
    }
  }

  /** What exists below a looked-up directory is what exists in the whole tree there. */
  lemma {:induction false} LookupMeaning(kids: seq<Node>, base: seq<string>, rest: seq<string>, isDir: bool)
    requires WellFormedKids(kids)
    ensures match Lookup(kids, base)
            case Missing => !Exists(kids, base + rest, isDir)
            case Plain => Exists(kids, base + rest, isDir) <==> rest == [] && !isDir
            case Folder(ks) => rest != [] ==> (Exists(kids, base + rest, isDir) <==> Exists(ks, rest, isDir))
    ensures Lookup(kids, base).Folder? && base != [] && rest == []
        ==> (Exists(kids, base + rest, isDir) <==> isDir)
    decreases |base|
  {
    if base == [] {
      assert base + rest == rest;
    } else {
      FindMeaning(kids, base[0]);
      var comps := base + rest;
      assert comps[0] == base[0] && comps[1..] == base[1..] + rest;
      match Find(kids, base[0])
      case Missing =>
      case Plain =>
        assert Exists(kids, comps, isDir) <==> IsAt(File(base[0]), comps, isDir);
      case Folder(ks) =>
        assert Exists(kids, comps, isDir) <==> IsAt(Dir(base[0], ks), comps, isDir);
        LookupMeaning(ks, base[1..], rest, isDir);
    }
  }

  /** The paths `filepath.WalkDir(base)` visits, in order. */
  function Visit(fs: FileSystem, base: Path): seq<Entry> {
    if base.vol !in fs then []
    else match Lookup(fs[base.vol], base.comps)
      case Missing => []
      case Plain => [Entry(base, false)]
      case Folder(kids) => [Entry(base, true)] + WalkKids(base, kids)
  }

  /** Walking from base visits the entries of the tree from base down, and nothing else. */
  lemma VisitMeaning(fs: FileSystem, base: Path, e: Entry)
    requires WellFormed(fs)
    ensures e in Visit(fs, base)
       <==> || (Has(fs, e) && e.path.vol == base.vol && base.comps <= e.path.comps)
            || (base.vol in fs && base.comps == [] && e == Entry(base, true))
  {
    if base.vol in fs {
      if e.path.vol == base.vol && base.comps <= e.path.comps {
        var rest := e.path.comps[|base.comps|..];
        assert e.path.comps == base.comps + rest;
        LookupMeaning(fs[base.vol], base.comps, rest, e.isDir);
        if rest == [] {
          assert e.path == base;
        }
      }
      match Lookup(fs[base.vol], base.comps)
      case Missing =>
      case Plain =>
        LookupMeaning(fs[base.vol], base.comps, [], false);
        assert base.comps + [] == base.comps;
      case Folder(kids) =>
        WalkKidsMeaning(base, kids, e);
        LookupMeaning(fs[base.vol], base.comps, [], true);
        assert base.comps + [] == base.comps;
    }
  }

  // ---- the component-wise listing of `filepath.Glob` ----

  function GlobKids(dir: Path, kids: seq<Node>, patterns: seq<string>): seq<Path>
    decreases |patterns|, |kids|
  {
    if patterns == [] || kids == [] then []
    else GlobKid(dir, kids[0], patterns) + GlobKids(dir, kids[1..], patterns)
  }

  function GlobKid(dir: Path, k: Node, patterns: seq<string>): seq<Path>
    requires patterns != []
    decreases |patterns|, 0
  {
    if !Match(patterns[0], k.name) then []
    else if |patterns| == 1 then [Child(dir, k.name)]
    else match k
      case File(_) => []
      case Dir(name, ks) => GlobKids(Child(dir, name), ks, patterns[1..])
  }

  /** Something, file or directory, is at this place. */
  ghost predicate ExistsAny(kids: seq<Node>, comps: seq<string>) {
    Exists(kids, comps, true) || Exists(kids, comps, false)
  }

  lemma {:induction false} GlobKidsMeaning(dir: Path, kids: seq<Node>, patterns: seq<string>, p: Path)
    requires patterns != []
    ensures p in GlobKids(dir, kids, patterns)
       <==> && Below(dir, p)
            && MatchEach(patterns, p.comps[|dir.comps|..])
            && ExistsAny(kids, p.comps[|dir.comps|..])
    decreases |patterns|, |kids|
  {
    if kids == [] {
    } else {
      GlobKidsMeaning(dir, kids[1..], patterns, p);
      var k := kids[0];
      if |patterns| > 1 && k.Dir? {
        GlobKidsMeaning(Child(dir, k.name), k.kids, patterns[1..], p);
      }
      GlobKidMeaning(dir, k, patterns, p);
      assert p in GlobKids(dir, kids, patterns)
        <==> p in GlobKid(dir, k, patterns) || p in GlobKids(dir, kids[1..], patterns);
      if Below(dir, p) {
        assert forall x :: x in kids <==> x == k || x in kids[1..];
      }
    }
  }

  lemma GlobKidMeaning(dir: Path, k: Node, patterns: seq<string>, p: Path)
    requires patterns != []
    requires |patterns| > 1 && k.Dir? ==>
      var sub := Child(dir, k.name);
      (p in GlobKids(sub, k.kids, patterns[1..])
       <==> && Below(sub, p)
            && MatchEach(patterns[1..], p.comps[|sub.comps|..])
            && ExistsAny(k.kids, p.comps[|sub.comps|..]))
    ensures p in GlobKid(dir, k, patterns)
       <==> && Below(dir, p)
            && MatchEach(patterns, p.comps[|dir.comps|..])
            && (IsAt(k, p.comps[|dir.comps|..], true) || IsAt(k, p.comps[|dir.comps|..], false))
  {
    var sub := Child(dir, k.name);
    if Below(sub, p) || p == sub {
      assert dir.comps == p.comps[..|dir.comps|];
      assert p.comps[|dir.comps|] == k.name;
    }
    if Below(dir, p) {
      var rest := p.comps[|dir.comps|..];
      assert p.comps == dir.comps + rest;
      MatchEachCons(patterns, rest);
      if rest[0] == k.name {
        assert sub.comps == p.comps[..|sub.comps|];
        assert rest[1..] == p.comps[|sub.comps|..];
        assert |rest| == 1 <==> p.comps == sub.comps;
      }
    }
  }
}
