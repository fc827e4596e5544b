/** internal/config/glob.go: the tree walk `MatchGlob`, the walk-free test
    `PathMatchesGlob`, and `GlobBase`. */
module Glob {
  import opened Text
  import opened Paths
  import opened Wildcards
  import opened FileTree

  /** A rooted pattern with a wildcard and no character class. */
  ghost predicate GlobPattern(g: Path) {
    && Valid(g)
    && (exists c :: c in g.comps && Wild(c))
    && (forall c :: c in g.comps ==> '[' !in c)
  }

  predicate Recursive(g: Path) {
    Contains(Render(g), "**")
  }

  // ---- GlobBase ----

  function SafePrefix(comps: seq<string>): (r: seq<string>)
    ensures r <= comps
    ensures forall c :: c in r ==> !Wild(c)
    ensures |r| < |comps| ==> Wild(comps[|r|])
  {
    if comps == [] || Wild(comps[0]) then [] else [comps[0]] + SafePrefix(comps[1..])
  }

  /** The directory the watcher watches and the walk starts from. */
  function GlobBase(g: Path): (r: Path)
    ensures r.vol == g.vol && r.comps <= g.comps
    ensures Valid(g) ==> Valid(r)
  {
    Path(g.vol, SafePrefix(g.comps))
  }

  /** The base is the volume and the components before the first one with a wildcard. */
  lemma GlobBaseMeaning(g: Path, n: nat)
    requires n < |g.comps| && Wild(g.comps[n]) && forall i :: 0 <= i < n ==> !Wild(g.comps[i])
    ensures GlobBase(g) == Path(g.vol, g.comps[..n])
  {
    SafePrefixIs(g.comps, n);
  }

  /** The text computation of GlobBase on a cleaned pattern cut into its volume name
      and the rest. It yields the rendered base of a rooted pattern, and the volume's root when a
      relative pattern starts with a wildcard. */
  method GlobBaseText(vol: string, rest: string) returns (joined: string)
    ensures forall g: Path :: Rooted(g, vol, rest) ==> joined == Render(GlobBase(g))
    ensures rest != "" && Wild(Split(rest, SEP)[0]) ==> joined == vol + [SEP]
  {
    var parts := Split(rest, SEP);
    var safe: seq<string> := [];
    var i := 0;
    while i < |parts| && !Wild(parts[i])
      invariant 0 <= i <= |parts|
      invariant safe == parts[..i]
      invariant forall j :: 0 <= j < i ==> !Wild(parts[j])
    {
      safe := safe + [parts[i]];
      i := i + 1;
    }
    if |safe| == 0 {
      joined := vol + [SEP];
    } else {
      ghost var text := Join(safe, SEP);
      joined := vol + Join(safe, SEP);
      assert vol + [SEP] <= joined <==> [SEP] <= text by {
        assert joined[|vol|..] == text && joined[..|vol|] == vol;
      }
      if |rest| > 0 && rest[0] == SEP && !(vol + [SEP] <= joined) {
        joined := vol + [SEP] + joined[|vol|..];
        assert joined == vol + ([SEP] + text);
      }
    }
    forall g: Path | Rooted(g, vol, rest) ensures joined == Render(GlobBase(g)) {
      TextIsBase(g, vol, rest, i);
    }
  }

  /** vol and rest are the text of the absolute path g, and g is not a root. */
  ghost predicate Rooted(g: Path, vol: string, rest: string) {
    Valid(g) && g.comps != [] && vol == VolumeName(g.vol) && rest == [SEP] + Join(g.comps, SEP)
  }

  lemma TextIsBase(g: Path, vol: string, rest: string, i: nat)
    requires Rooted(g, vol, rest)
    requires i <= |Split(rest, SEP)| && forall j :: 0 <= j < i ==> !Wild(Split(rest, SEP)[j])
    requires i < |Split(rest, SEP)| ==> Wild(Split(rest, SEP)[i])
    ensures i > 0
    ensures var text := Join(Split(rest, SEP)[..i], SEP);
            Render(GlobBase(g)) == vol + if [SEP] <= text then text else [SEP] + text
  {
    var parts := Split(rest, SEP);
    SplitRooted(g);
    assert parts == [""] + g.comps;
    assert parts[0] == "" && i >= 1;
    assert forall j :: 0 <= j < |g.comps| ==> g.comps[j] == parts[j + 1];
    SafePrefixIs(g.comps, i - 1);
    assert parts[..i] == [""] + GlobBase(g).comps;
    RootedText(g, GlobBase(g).comps);
  }

  lemma SplitRooted(g: Path)
    requires Valid(g) && g.comps != []
    ensures Split([SEP] + Join(g.comps, SEP), SEP) == [""] + g.comps
  {
    assert forall i :: 0 <= i < |g.comps| ==> g.comps[i] in g.comps;
    SplitJoin(g.comps, SEP);
    assert ([SEP] + Join(g.comps, SEP))[1..] == Join(g.comps, SEP);
  }

  lemma {:induction false} SafePrefixIs(comps: seq<string>, n: nat)
    requires n <= |comps|
    requires forall j :: 0 <= j < n ==> !Wild(comps[j])
    requires n < |comps| ==> Wild(comps[n])
    ensures SafePrefix(comps) == comps[..n]
  {
    if n == 0 {
    } else {
      SafePrefixIs(comps[1..], n - 1);
      assert comps[..n] == [comps[0]] + comps[1..][..n - 1];
    }
  }

  lemma RootedText(g: Path, comps: seq<string>)
    requires Valid(g) && comps <= g.comps
    ensures comps != [] ==>
      Render(Path(g.vol, comps)) == VolumeName(g.vol) + Join([""] + comps, SEP)
      && [SEP] <= Join([""] + comps, SEP)
    ensures comps == [] ==> Render(Path(g.vol, comps)) == VolumeName(g.vol) + [SEP] && Join([""] + comps, SEP) == ""
  {
    var p := Path(g.vol, comps);
    JoinConcat(VolumePieces(g.vol), if comps == [] then [""] else comps, SEP);
    if comps != [] {
      assert ([""] + comps)[1..] == comps;
    }
  }

  // ---- MatchGlob ----

  function BaseName(p: Path): string {
    if p.comps == [] then [SEP] else Leaf(p)
  }

  /** What the walk's callback keeps of one visited entry. */
  predicate Keep(base: Path, leafPattern: string, e: Entry) {
    !e.isDir && !DirectlyIn(base, e.path) && LeafMatches(leafPattern, e.path)
  }

  predicate DirectlyIn(base: Path, path: Path) {
    EqualFold(Render(Parent(path)), Render(base))
  }

  predicate LeafMatches(leafPattern: string, path: Path) {
    Match(leafPattern, Lower(BaseName(path)))
  }

  function Kept(base: Path, leafPattern: string, visited: seq<Entry>): seq<Path> {
    if visited == [] then []
    else
      var init, e := visited[..|visited| - 1], visited[|visited| - 1];
      if Keep(base, leafPattern, e) then Kept(base, leafPattern, init) + [e.path]
      else Kept(base, leafPattern, init)
  }

  /** The list MatchGlob returns. */
  function Matches(fs: FileSystem, g: Path): seq<Path> {
    if Recursive(g) then
      Kept(GlobBase(g), Lower(BaseName(g)), Visit(fs, GlobBase(g)))
    else if g.vol !in fs then []
    else if g.comps == [] then [g]
    else GlobKids(Path(g.vol, []), fs[g.vol], g.comps)
  }

  method MatchGlob(fs: FileSystem, g: Path) returns (matches: seq<Path>)
    ensures matches == Matches(fs, g)
  {
    if Recursive(g) {
      matches := WalkDir(GlobBase(g), Lower(BaseName(g)), Visit(fs, GlobBase(g)));
    } else {
      matches := if g.vol !in fs then []
                 else if g.comps == [] then [g]
                 else GlobKids(Path(g.vol, []), fs[g.vol], g.comps);
    }
  }

  /** The walk's callback, run over the visited entries in order. */
  method WalkDir(base: Path, leafPattern: string, visited: seq<Entry>) returns (matches: seq<Path>)
    ensures matches == Kept(base, leafPattern, visited)
  {
    matches := [];
    for i := 0 to |visited|
      invariant matches == Kept(base, leafPattern, visited[..i])
    {
      var e := visited[i];
      assert visited[..i + 1][..i] == visited[..i];
      if !e.isDir && !DirectlyIn(base, e.path) && LeafMatches(leafPattern, e.path) {
        matches := matches + [e.path];
      }
    }
    assert visited[..|visited|] == visited;
  }

  // ---- PathMatchesGlob ----

  predicate PathMatchesGlob(g: Path, path: Path) {
    if !Recursive(g) then
      Match(Lower(Render(g)), Lower(Render(path)))
    else
      var base := GlobBase(g);
      var leafPattern := Lower(BaseName(g));
      if DirectlyIn(base, path) then false
      else if !(Lower(Render(base)) + Lower([SEP]) <= Lower(Render(path))) then false
      else LeafMatches(leafPattern, path)
  }

  // ---- facts about patterns ----

  lemma {:induction false} JoinChars(parts: seq<string>, sep: char, c: char)
    requires c in Join(parts, sep) && c != sep
    ensures exists i :: 0 <= i < |parts| && c in parts[i]
  {
    if |parts| <= 1 || c in parts[0] {
    } else {
      JoinChars(parts[1..], sep, c);
      var i :| 0 <= i < |parts[1..]| && c in parts[1..][i];
      assert c in parts[i + 1];
    }
  }

  /** A recursive pattern has a wildcard component, so its base is shorter than it. */
  lemma RecursiveIsWild(g: Path)
    requires Valid(g) && Recursive(g)
    ensures exists c :: c in g.comps && Wild(c)
  {
    var i := Index(Render(g), "**");
    assert Render(g)[i..i + 2] == "**";
    assert Render(g)[i] == "**"[0] == '*';
    JoinChars(Pieces(g), SEP, '*');
    var j :| 0 <= j < |Pieces(g)| && '*' in Pieces(g)[j];
    var n := |VolumePieces(g.vol)|;
    assert j >= n && g.comps != [] && Pieces(g)[j] == g.comps[j - n];
    assert g.comps[j - n] in g.comps && Wild(g.comps[j - n]);
  }

  lemma BaseIsShorter(g: Path)
    requires exists c :: c in g.comps && Wild(c)
    ensures |GlobBase(g).comps| < |g.comps|
  {
    assert |GlobBase(g).comps| == |g.comps| ==> GlobBase(g).comps == g.comps;
  }

  // ---- what each of the two accepts ----

  /** The entries a listing of g returns, said of one entry. */
  ghost predicate Listed(g: Path, e: Entry) {
    if Recursive(g) then
      var base := GlobBase(g);
      && !e.isDir
      && e.path.vol == base.vol && base.comps <= e.path.comps
      && !SamePath(Parent(e.path), base)
      && Match(Lower(BaseName(g)), Lower(BaseName(e.path)))
    else
      e.path.vol == g.vol && MatchEach(g.comps, e.path.comps)
  }

  lemma {:induction false} KeptMeaning(base: Path, leafPattern: string, visited: seq<Entry>, p: Path)
    ensures p in Kept(base, leafPattern, visited)
       <==> exists e :: e in visited && e.path == p && Keep(base, leafPattern, e)
  {
    if visited == [] {
    } else {
      var n := |visited| - 1;
      KeptMeaning(base, leafPattern, visited[..n], p);
      assert visited == visited[..n] + [visited[n]];
    }
  }

  lemma {:induction false} ExistsValid(kids: seq<Node>, comps: seq<string>, isDir: bool)
    requires WellFormedKids(kids) && Exists(kids, comps, isDir)
    ensures forall c :: c in comps ==> ValidComp(c)
    decreases |comps|
  {
    var k :| k in kids && IsAt(k, comps, isDir);
    if |comps| == 1 {
    } else {
      ExistsValid(k.kids, comps[1..], isDir);
    }
    assert forall c :: c in comps ==> c == comps[0] || c in comps[1..];
  }

  lemma EntriesAreValid(fs: FileSystem, e: Entry)
    requires WellFormed(fs) && Has(fs, e)
    ensures Valid(e.path) && e.path.comps != []
    ensures Valid(Parent(e.path))
  {
    ExistsValid(fs[e.path.vol], e.path.comps, e.isDir);
  }

  /** MatchGlob returns exactly the entries of the tree that the pattern lists, for
      recursive and single-level patterns alike. */
  lemma MatchGlobMeaning(fs: FileSystem, g: Path, p: Path)
    requires WellFormed(fs) && GlobPattern(g)
    ensures p in Matches(fs, g) <==> exists e: Entry :: e.path == p && Has(fs, e) && Listed(g, e)
  {
    if Recursive(g) {
      var base := GlobBase(g);
      KeptMeaning(base, Lower(BaseName(g)), Visit(fs, base), p);
      forall e: Entry
        ensures e in Visit(fs, base) && Keep(base, Lower(BaseName(g)), e) <==> Has(fs, e) && Listed(g, e)
      {
        VisitMeaning(fs, base, e);
        if Has(fs, e) {
          EntriesAreValid(fs, e);
          EqualFoldRender(Parent(e.path), base);
        }
      }
    } else if g.vol in fs {
      GlobKidsMeaning(Path(g.vol, []), fs[g.vol], g.comps, p);
      assert p.comps[0..] == p.comps;
      if p.vol == g.vol && MatchEach(g.comps, p.comps) {
        if Exists(fs[g.vol], p.comps, true) { assert Has(fs, Entry(p, true)) && Listed(g, Entry(p, true)); }
        if Exists(fs[g.vol], p.comps, false) { assert Has(fs, Entry(p, false)) && Listed(g, Entry(p, false)); }
      }
    }
  }

  /** In full: a pattern that contains two stars in a row lists the files below its base, but
      not directly in it, whose names match its last component, in any case; any other lists
      the files and directories whose components match its components one by one. */
  lemma MatchGlobExactly(fs: FileSystem, g: Path, p: Path)
    requires WellFormed(fs) && GlobPattern(g)
    ensures Contains(Render(g), "**") ==>
              (p in Matches(fs, g) <==>
                && Has(fs, Entry(p, false)) && p.vol == g.vol && p.comps != []
                && GlobBase(g).comps <= p.comps && |p.comps| != |GlobBase(g).comps| + 1
                && Match(Lower(Leaf(g)), Lower(Leaf(p))))
    ensures !Contains(Render(g), "**") ==>
              (p in Matches(fs, g) <==>
                && (Has(fs, Entry(p, false)) || Has(fs, Entry(p, true))) && p.vol == g.vol
                && |p.comps| == |g.comps| && forall i :: 0 <= i < |p.comps| ==> Match(g.comps[i], p.comps[i]))
  {
    MatchGlobMeaning(fs, g, p);
    forall d | Has(fs, Entry(p, d)) ensures p.comps != [] {
      EntriesAreValid(fs, Entry(p, d));
    }
    if Recursive(g) {
      if p.vol == g.vol && GlobBase(g).comps <= p.comps && p.comps != [] {
        ParentIsBase(GlobBase(g), p);
      }
    } else {
      assert Listed(g, Entry(p, true)) <==> Listed(g, Entry(p, false));
    }
  }

  lemma ParentIsBase(base: Path, p: Path)
    requires p.vol == base.vol && base.comps <= p.comps && p.comps != []
    ensures SamePath(Parent(p), base) <==> |p.comps| == |base.comps| + 1
  {
    assert |LowerAll(Parent(p).comps)| == |p.comps| - 1;
    if |p.comps| == |base.comps| + 1 {
      assert Parent(p).comps == base.comps;
    }
  }

  /** The walk-free test in terms of components: a recursive pattern accepts what lies
      strictly below its base but not directly in it, if the base is not a
      root; a single-level pattern matches component by component, up to case. */
  lemma PathMatchesGlobMeaning(g: Path, p: Path)
    requires GlobPattern(g) && Valid(p) && p.comps != []
    ensures PathMatchesGlob(g, p) <==>
      if Contains(Render(g), "**") then
        var base := GlobBase(g);
        && base.comps != []
        && StrictlyBelow(base, p)
        && |base.comps| + 1 < |p.comps|
        && Match(Lower(Leaf(g)), Lower(Leaf(p)))
      else
        SameVolume(g.vol, p.vol) && MatchEach(LowerAll(g.comps), LowerAll(p.comps))
  {
    if Recursive(g) {
      var base := GlobBase(g);
      PrefixTestMeaning(base, p);
      assert Lower([SEP]) == [SEP];
      EqualFoldRender(Parent(p), base);
      if StrictlyBelow(base, p) {
        ParentOfBelow(base, p);
      }
    } else {
      SplitRender(g);
      SplitRender(p);
      MatchBySplit(Lower(Render(g)), Lower(Render(p)));
      FoldedMatch(g, p);
    }
  }

  lemma ParentOfBelow(base: Path, p: Path)
    requires StrictlyBelow(base, p)
    ensures SamePath(Parent(p), base) <==> |p.comps| == |base.comps| + 1
  {
  }

  lemma LowerKeepsWild(c: string)
    ensures Wild(Lower(c)) <==> Wild(c)
  {
    forall x | x in Lower(c) && x in "*?" ensures x in c {
      var i :| 0 <= i < |c| && Lower(c)[i] == x;
      assert c[i] == x;
    }
    forall x | x in c && x in "*?" ensures x in Lower(c) {
      var i :| 0 <= i < |c| && c[i] == x;
      assert Lower(c)[i] == x;
    }
  }

  lemma VolumePiecesLiteral(v: Volume, i: nat)
    requires ValidVolume(v) && i < |VolumePieces(v)|
    ensures !Wild(VolumePieces(v)[i]) && !Wild(Lower(VolumePieces(v)[i]))
  {
    LowerKeepsWild(VolumePieces(v)[i]);
  }

  /** Matching folded pieces is equality of volumes and matching of components. */
  lemma FoldedMatch(g: Path, p: Path)
    requires Valid(g) && Valid(p) && g.comps != [] && p.comps != []
    ensures MatchEach(LowerAll(Pieces(g)), LowerAll(Pieces(p)))
       <==> SameVolume(g.vol, p.vol) && MatchEach(LowerAll(g.comps), LowerAll(p.comps))
  {
    var a, b := LowerAll(VolumePieces(g.vol)), LowerAll(VolumePieces(p.vol));
    var s, t := LowerAll(g.comps), LowerAll(p.comps);
    LowerAllAppend(VolumePieces(g.vol), g.comps);
    LowerAllAppend(VolumePieces(p.vol), p.comps);
    assert LowerAll(Pieces(g)) == a + s && LowerAll(Pieces(p)) == b + t;
    forall i | 0 <= i < |a| ensures !Wild(a[i]) {
      VolumePiecesLiteral(g.vol, i);
    }
    if MatchEach(a + s, b + t) {
      FirstPieceFixesVolume(g.vol, p.vol, a + s, b + t);
    }
    if |a| == |b| {
      MatchEachAppend(a, s, b, t);
    }
  }

  lemma FirstPieceFixesVolume(v: Volume, w: Volume, x: seq<string>, y: seq<string>)
    requires ValidVolume(v) && ValidVolume(w)
    requires LowerAll(VolumePieces(v)) <= x && LowerAll(VolumePieces(w)) <= y
    requires MatchEach(x, y)
    ensures |VolumePieces(v)| == |VolumePieces(w)|
  {
    var a, b := VolumePieces(v)[0], VolumePieces(w)[0];
    assert x[0] == LowerAll(VolumePieces(v))[0] == Lower(a);
    assert y[0] == LowerAll(VolumePieces(w))[0] == Lower(b);
    VolumePiecesLiteral(v, 0);
    MatchLiteral(Lower(a), Lower(b));
    assert |a| == |Lower(a)| == |Lower(b)| == |b|;
  }

  lemma MatchEachAppend(a: seq<string>, s: seq<string>, b: seq<string>, t: seq<string>)
    requires |a| == |b|
    requires forall i :: 0 <= i < |a| ==> !Wild(a[i])
    ensures MatchEach(a + s, b + t) <==> a == b && MatchEach(s, t)
  {
    var x, y := a + s, b + t;
    forall i | 0 <= i < |a| ensures Match(a[i], b[i]) <==> a[i] == b[i] {
      MatchLiteral(a[i], b[i]);
    }
    if MatchEach(x, y) {
      forall i | 0 <= i < |a| ensures a[i] == b[i] {
        assert Match(x[i], y[i]);
      }
      forall i | 0 <= i < |s| ensures Match(s[i], t[i]) {
        assert Match(x[|a| + i], y[|a| + i]);
      }
    }
    if a == b && MatchEach(s, t) {
      forall i | 0 <= i < |y| ensures Match(x[i], y[i]) {
        assert i >= |a| ==> x[i] == s[i - |a|] && y[i] == t[i - |a|];
      }
    }
  }
}
