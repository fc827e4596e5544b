/** How the walk and the walk-free test of internal/config/glob.go relate. */
module GlobTheorems {
  import opened Text
  import opened Paths
  import opened Wildcards
  import opened FileTree
  import opened Glob

  ghost predicate RootBased(g: Path) {
    Recursive(g) && GlobBase(g).comps == []
  }

  // ---- the walk agrees with the test, except from roots and plain files ----

  /** On every file the walk visits, MatchGlob and PathMatchesGlob give one answer. */
  ghost predicate Agree(fs: FileSystem, g: Path) {
    forall p :: Entry(p, false) in Visit(fs, GlobBase(g)) ==> (p in Matches(fs, g) <==> PathMatchesGlob(g, p))
  }

  ghost predicate BaseIsFolder(fs: FileSystem, g: Path) {
    g.vol in fs && Lookup(fs[g.vol], GlobBase(g).comps).Folder?
  }

  lemma MatchesAreVisitedFiles(fs: FileSystem, g: Path, p: Path)
    requires WellFormed(fs) && GlobPattern(g) && Recursive(g) && p in Matches(fs, g)
    ensures Has(fs, Entry(p, false)) && Listed(g, Entry(p, false)) && Entry(p, false) in Visit(fs, GlobBase(g))
  {
    MatchGlobMeaning(fs, g, p);
    VisitMeaning(fs, GlobBase(g), Entry(p, false));
  }

  lemma FolderIsNotFile(fs: FileSystem, base: Path)
    requires WellFormed(fs) && base.vol in fs && base.comps != []
    ensures Lookup(fs[base.vol], base.comps).Folder? ==> !Has(fs, Entry(base, false))
    ensures Lookup(fs[base.vol], base.comps).Plain? <==> Has(fs, Entry(base, false))
  {
    LookupMeaning(fs[base.vol], base.comps, [], false);
    assert base.comps + [] == base.comps;
  }

  lemma WalkAgrees(fs: FileSystem, g: Path, p: Path)
    requires WellFormed(fs) && GlobPattern(g) && Recursive(g) && GlobBase(g).comps != []
    requires BaseIsFolder(fs, g)
    requires Entry(p, false) in Visit(fs, GlobBase(g))
    ensures p in Matches(fs, g) <==> PathMatchesGlob(g, p)
  {
    var base := GlobBase(g);
    var e := Entry(p, false);
    VisitMeaning(fs, base, e);
    EntriesAreValid(fs, e);
    FolderIsNotFile(fs, base);
    MatchGlobMeaning(fs, g, p);
    PathMatchesGlobMeaning(g, p);
    assert |base.comps| == |p.comps| ==> p == base;
    if |base.comps| < |p.comps| {
      assert p.comps[..|base.comps|] == base.comps;
      ParentOfBelow(base, p);
    }
    if p in Matches(fs, g) {
      MatchesAreVisitedFiles(fs, g, p);
    } else {
      assert !Listed(g, e);
    }
  }

  /** In any file system, the walk-free test agrees with the walk exactly when the
      base is a directory below its root, or nothing is found at all. */
  lemma AgreementExactly(fs: FileSystem, g: Path)
    requires WellFormed(fs) && GlobPattern(g) && Recursive(g)
    ensures Agree(fs, g) <==> (BaseIsFolder(fs, g) && GlobBase(g).comps != []) || Matches(fs, g) == []
  {
    var base := GlobBase(g);
    if BaseIsFolder(fs, g) && base.comps != [] {
      forall p | Entry(p, false) in Visit(fs, base) ensures p in Matches(fs, g) <==> PathMatchesGlob(g, p) {
        WalkAgrees(fs, g, p);
      }
    } else {
      forall p | Entry(p, false) in Visit(fs, base) ensures !PathMatchesGlob(g, p) {
        VisitMeaning(fs, base, Entry(p, false));
        EntriesAreValid(fs, Entry(p, false));
        PathMatchesGlobMeaning(g, p);
        if base.comps != [] {
          assert Visit(fs, base) == [Entry(base, false)];
        }
      }
      if Matches(fs, g) != [] {
        var p := Matches(fs, g)[0];
        assert p in Matches(fs, g);
        MatchesAreVisitedFiles(fs, g, p);
      }
    }
  }

  /** One file, two levels below a root, that a root-based pattern's walk returns. */
  function RootWitness(g: Path): (p: Path)
  {
    Path(g.vol, ["x", Witness(Lower(BaseName(g)))])
  }

  lemma RootWitnessListed(g: Path)
    requires GlobPattern(g) && RootBased(g)
    ensures Valid(RootWitness(g)) && Listed(g, Entry(RootWitness(g), false))
  {
    RecursiveIsWild(g);
    var leaf := BaseName(g);
    assert ValidComp(leaf) by { assert Leaf(g) in g.comps; }
    assert SEP !in Lower(leaf) by {
      forall i | 0 <= i < |leaf| ensures Lower(leaf)[i] != SEP {
        assert leaf[i] in leaf;
      }
    }
    LowerIdempotent(leaf);
    WitnessMatches(Lower(leaf));
    var w := Witness(Lower(leaf));
    WitnessIsAName(leaf);
    var p := RootWitness(g);
    assert Parent(p).comps == ["x"];
    assert |LowerAll(Parent(p).comps)| == 1;
  }

  lemma WitnessIsAName(leaf: string)
    requires ValidComp(leaf) && SEP !in Witness(Lower(leaf))
    ensures ValidComp(Witness(Lower(leaf)))
  {
    var l := Lower(leaf);
    var w := Witness(l);
    if |w| >= 1 { assert w[0] == '.' ==> leaf[0] == '.'; }
    if |w| == 2 {
      assert w[1] == Witness(l[1..])[0];
      assert w[1] == '.' ==> leaf[1] == '.';
    }
  }

  /** From a root the two always disagree on some tree, from any other directory never:
      the appended separator of the prefix test makes a root base match nothing. */
  lemma AgreeOnAllTreesIffNotRootBased(g: Path)
    requires GlobPattern(g) && Recursive(g)
    ensures (forall fs :: WellFormed(fs) && BaseIsFolder(fs, g) ==> Agree(fs, g)) <==> !RootBased(g)
  {
    if RootBased(g) {
      RootWitnessListed(g);
      var p := RootWitness(g);
      var fs := SingleFile(p);
      SingleFileHas(p);
      MatchGlobMeaning(fs, g, p);
      assert Listed(g, Entry(p, false)) && Has(fs, Entry(p, false));
      assert p in Matches(fs, g);
      AgreementExactly(fs, g);
      assert BaseIsFolder(fs, g) && !Agree(fs, g);
    } else {
      forall fs | WellFormed(fs) && BaseIsFolder(fs, g) ensures Agree(fs, g) {
        AgreementExactly(fs, g);
      }
    }
  }

  // ---- a tree with one file ----

  function Chain(comps: seq<string>, isDir: bool): seq<Node>
    requires comps != []
  {
    if |comps| > 1 then [Dir(comps[0], Chain(comps[1..], isDir))]
    else [if isDir then Dir(comps[0], []) else File(comps[0])]
  }

  /** The tree that holds one entry and the directories above it. */
  function SingleEntry(e: Entry): FileSystem
    requires e.path.comps != []
  {
    map[e.path.vol := Chain(e.path.comps, e.isDir)]
  }

  function SingleFile(p: Path): FileSystem
    requires p.comps != []
  {
    SingleEntry(Entry(p, false))
  }

  lemma {:induction false} ChainMeaning(comps: seq<string>, isDir: bool, q: seq<string>, d: bool)
    requires comps != [] && forall c :: c in comps ==> ValidComp(c)
    ensures WellFormedKids(Chain(comps, isDir))
    ensures Exists(Chain(comps, isDir), q, d) <==> (q == comps && d == isDir) || (d && q != [] && q < comps)
  {
    var k := Chain(comps, isDir)[0];
    assert k in Chain(comps, isDir);
    if |comps| == 1 {
      if q != [] {
        assert Exists(Chain(comps, isDir), q, d) <==> IsAt(k, q, d);
        assert q == comps <==> |q| == 1 && q[0] == comps[0];
        if isDir && |q| > 1 { assert !Exists(k.kids, q[1..], d); }
      }
    } else {
      ChainMeaning(comps[1..], isDir, if q == [] then [] else q[1..], d);
      assert comps == [comps[0]] + comps[1..];
      if q != [] { assert q == [q[0]] + q[1..]; }
    }
  }

  lemma SingleEntryHas(e: Entry, f: Entry)
    requires Valid(e.path) && e.path.comps != []
    ensures WellFormed(SingleEntry(e))
    ensures Has(SingleEntry(e), f)
       <==> f == e || (f.isDir && f.path.vol == e.path.vol && f.path.comps != [] && f.path.comps < e.path.comps)
  {
    ChainMeaning(e.path.comps, e.isDir, f.path.comps, f.isDir);
  }

  lemma SingleFileHas(p: Path)
    requires Valid(p) && p.comps != []
    ensures WellFormed(SingleFile(p))
    ensures forall q :: Has(SingleFile(p), Entry(q, false)) <==> q == p
    ensures forall q :: Has(SingleFile(p), Entry(q, true)) <==> q.vol == p.vol && q.comps != [] && q.comps < p.comps
  {
    SingleEntryHas(Entry(p, false), Entry(p, false));
    forall q: Path
      ensures Has(SingleFile(p), Entry(q, false)) <==> q == p
      ensures Has(SingleFile(p), Entry(q, true)) <==> q.vol == p.vol && q.comps != [] && q.comps < p.comps
    {
      SingleEntryHas(Entry(p, false), Entry(q, false));
      SingleEntryHas(Entry(p, false), Entry(q, true));
    }
  }

  // ---- accepted paths ----

  /** Whatever PathMatchesGlob accepts lies strictly below the watched base, up to case. */
  lemma AcceptedLiesBelowBase(g: Path, p: Path)
    requires GlobPattern(g) && Valid(p) && p.comps != [] && PathMatchesGlob(g, p)
    ensures StrictlyBelow(GlobBase(g), p)
  {
    PathMatchesGlobMeaning(g, p);
    if !Recursive(g) {
      var base := GlobBase(g);
      BaseIsShorter(g);
      forall i | 0 <= i < |base.comps|
        ensures LowerAll(p.comps[..|base.comps|])[i] == LowerAll(base.comps)[i]
      {
        assert base.comps[i] in base.comps && base.comps[i] == g.comps[i];
        LowerKeepsWild(g.comps[i]);
        assert Match(LowerAll(g.comps)[i], LowerAll(p.comps)[i]);
        MatchLiteral(Lower(g.comps[i]), Lower(p.comps[i]));
      }
    }
  }

  /** Every path a listing returns is accepted, unless the pattern is root-based or the
      base itself is the file found. */
  lemma ListedIsAccepted(g: Path, e: Entry)
    requires GlobPattern(g) && Valid(e.path) && e.path.comps != [] && Listed(g, e)
    ensures PathMatchesGlob(g, e.path) <==> !RootBased(g) && (Recursive(g) ==> e.path != GlobBase(g))
  {
    var p, base := e.path, GlobBase(g);
    PathMatchesGlobMeaning(g, p);
    if Recursive(g) {
      ListedPlace(base, p);
    } else {
      forall i | 0 <= i < |p.comps| ensures Match(LowerAll(g.comps)[i], LowerAll(p.comps)[i]) {
        MatchLower(g.comps[i], p.comps[i]);
      }
    }
  }

  /** A path that continues base, spelled alike, is base or lies strictly below it. */
  lemma ListedPlace(base: Path, p: Path)
    requires Valid(base) && Valid(p) && p.comps != [] && p.vol == base.vol && base.comps <= p.comps
    requires !SamePath(Parent(p), base)
    ensures StrictlyBelow(base, p) <==> p != base
    ensures p != base ==> |base.comps| + 1 < |p.comps|
  {
    assert |base.comps| == |p.comps| ==> p == base;
    if |base.comps| < |p.comps| {
      assert p.comps[..|base.comps|] == base.comps;
      ParentOfBelow(base, p);
    }
  }

  /** Rewrites the case of name so that it fits the pattern's literals. */
  function Respell(pattern: string, name: string): (r: string)
    requires Match(Lower(pattern), Lower(name))
    decreases |pattern| + |name|
  {
    LowerTail(pattern, name);
    if pattern == "" then name
    else if pattern[0] == '*' then
      if Match(Lower(pattern[1..]), Lower(name)) then Respell(pattern[1..], name)
      else [name[0]] + Respell(pattern, name[1..])
    else [if pattern[0] == '?' then name[0] else pattern[0]] + Respell(pattern[1..], name[1..])
  }

  lemma LowerTail(pattern: string, name: string)
    ensures pattern != "" ==> Lower(pattern)[0] == LowerChar(pattern[0]) && Lower(pattern)[1..] == Lower(pattern[1..])
    ensures name != "" ==> Lower(name)[0] == LowerChar(name[0]) && Lower(name)[1..] == Lower(name[1..])
  {
  }

  lemma {:induction false} RespellFits(pattern: string, name: string)
    requires Match(Lower(pattern), Lower(name))
    ensures Lower(Respell(pattern, name)) == Lower(name) && Match(pattern, Respell(pattern, name))
    decreases |pattern| + |name|
  {
    LowerTail(pattern, name);
    var r := Respell(pattern, name);
    if pattern == "" {
    } else {
      if pattern[0] == '*' && Match(Lower(pattern[1..]), Lower(name)) {
        RespellFits(pattern[1..], name);
      } else {
        var rest := if pattern[0] == '*' then pattern else pattern[1..];
        RespellFits(rest, name[1..]);
        assert r == [r[0]] + Respell(rest, name[1..]);
        assert r[1..] == Respell(rest, name[1..]);
        LowerAppend([r[0]], r[1..]);
        LowerAppend([name[0]], name[1..]);
        assert name == [name[0]] + name[1..];
        assert Lower([r[0]]) == [LowerChar(r[0])] && Lower([name[0]]) == [LowerChar(name[0])];
      }
    }
  }

  lemma RespelledName(pattern: string, name: string)
    requires ValidComp(name) && Match(Lower(pattern), Lower(name))
    ensures ValidComp(Respell(pattern, name))
  {
    var r := Respell(pattern, name);
    RespellFits(pattern, name);
    assert |Lower(r)| == |r| && |Lower(name)| == |name|;
    forall i | 0 <= i < |r| ensures (r[i] == SEP <==> name[i] == SEP) && (r[i] == '.' <==> name[i] == '.') {
      assert Lower(r)[i] == Lower(name)[i];
    }
    forall i | 0 <= i < |r| ensures r[i] != SEP {
      assert name[i] in name;
    }
  }

  /** The case variant of an accepted path that the pattern lists. */
  lemma RecursiveListing(g: Path, p: Path) returns (q: Path)
    requires GlobPattern(g) && Recursive(g) && Valid(p)
    requires StrictlyBelow(GlobBase(g), p) && |GlobBase(g).comps| + 1 < |p.comps|
    requires Match(Lower(BaseName(g)), Lower(BaseName(p)))
    ensures Valid(q) && SamePath(p, q)
    ensures Listed(g, Entry(q, false)) && GlobBase(g).comps < q.comps
  {
    var base := GlobBase(g);
    q := Transplant(base, p);
    ParentOfBelow(base, q);
  }

  /** p with its first components spelled as base spells them. */
  lemma Transplant(base: Path, p: Path) returns (q: Path)
    requires Valid(base) && Valid(p) && StrictlyBelow(base, p)
    ensures Valid(q) && SamePath(p, q) && StrictlyBelow(base, q)
    ensures q.vol == base.vol && base.comps < q.comps && |q.comps| == |p.comps| && Leaf(q) == Leaf(p)
  {
    var n := |base.comps|;
    q := Path(base.vol, base.comps + p.comps[n..]);
    SameFold(base.comps, p.comps, n);
    assert forall c :: c in p.comps[n..] ==> c in p.comps;
    assert q.comps[..n] == base.comps;
  }

  /** Replacing the first components by an equally folded list keeps the folded whole. */
  lemma SameFold(head: seq<string>, comps: seq<string>, n: nat)
    requires n == |head| <= |comps| && LowerAll(comps[..n]) == LowerAll(head)
    ensures LowerAll(head + comps[n..]) == LowerAll(comps)
  {
    LowerAllAppend(head, comps[n..]);
    LowerAllAppend(comps[..n], comps[n..]);
    assert comps == comps[..n] + comps[n..];
  }

  lemma FlatListing(g: Path, p: Path) returns (q: Path)
    requires GlobPattern(g) && !Recursive(g) && Valid(p)
    requires SameVolume(g.vol, p.vol) && MatchEach(LowerAll(g.comps), LowerAll(p.comps))
    ensures Valid(q) && SamePath(p, q)
    ensures Listed(g, Entry(q, false)) && GlobBase(g).comps < q.comps
  {
    var comps := RespellAll(g.comps, p.comps);
    q := Path(g.vol, comps);
    assert LowerAll(p.comps) == LowerAll(q.comps);
    BaseIsShorter(g);
    SafePrefixListed(g, q);
  }

  lemma RespellAll(ps: seq<string>, ns: seq<string>) returns (qs: seq<string>)
    requires MatchEach(LowerAll(ps), LowerAll(ns)) && forall c :: c in ns ==> ValidComp(c)
    ensures |qs| == |ns|
    ensures forall i :: 0 <= i < |qs| ==> ValidComp(qs[i]) && Lower(qs[i]) == Lower(ns[i])
    ensures MatchEach(ps, qs)
  {
    qs := [];
    for i := 0 to |ns|
      invariant |qs| == i
      invariant forall j :: 0 <= j < i ==> ValidComp(qs[j]) && Lower(qs[j]) == Lower(ns[j]) && Match(ps[j], qs[j])
    {
      assert Match(LowerAll(ps)[i], LowerAll(ns)[i]);
      assert ns[i] in ns;
      RespellFits(ps[i], ns[i]);
      RespelledName(ps[i], ns[i]);
      qs := qs + [Respell(ps[i], ns[i])];
    }
  }

  lemma SafePrefixListed(g: Path, q: Path)
    requires MatchEach(g.comps, q.comps)
    requires |GlobBase(g).comps| < |g.comps|
    ensures GlobBase(g).comps < q.comps
  {
    var base := GlobBase(g);
    forall i | 0 <= i < |base.comps| ensures base.comps[i] == q.comps[i] {
      assert base.comps[i] in base.comps;
      MatchLiteral(g.comps[i], q.comps[i]);
    }
  }

  /** PathMatchesGlob accepts a path exactly when some case variant of it, below the
      base, is one that a listing returns. */
  lemma TestIsListingUpToCase(g: Path, p: Path)
    requires GlobPattern(g) && !RootBased(g) && Valid(p) && p.comps != []
    ensures PathMatchesGlob(g, p)
       <==> exists q :: Valid(q) && SamePath(p, q) && GlobBase(g).comps < q.comps && Listed(g, Entry(q, false))
  {
    if PathMatchesGlob(g, p) {
      PathMatchesGlobMeaning(g, p);
      var q: Path;
      if Recursive(g) { q := RecursiveListing(g, p); } else { q := FlatListing(g, p); }
    }
    if q :| Valid(q) && SamePath(p, q) && GlobBase(g).comps < q.comps && Listed(g, Entry(q, false)) {
      ListedIsAccepted(g, Entry(q, false));
      TestIgnoresCase(g, p, q);
    }
  }

  /** Lying below a base, the depth and the last component do not depend on the case. */
  lemma PlaceIgnoresCase(base: Path, p: Path, q: Path)
    requires p.comps != [] && SamePath(p, q)
    ensures |p.comps| == |q.comps| && Lower(BaseName(p)) == Lower(BaseName(q))
    ensures StrictlyBelow(base, p) ==> StrictlyBelow(base, q)
  {
    var n := |base.comps|;
    var ps, qs := LowerAll(p.comps), LowerAll(q.comps);
    assert |ps| == |p.comps| && |qs| == |q.comps|;
    assert Lower(BaseName(p)) == ps[|ps| - 1] && Lower(BaseName(q)) == qs[|qs| - 1];
    if n < |p.comps| {
      assert LowerAll(p.comps[..n]) == ps[..n] && LowerAll(q.comps[..n]) == qs[..n];
    }
  }

  lemma TestIgnoresCase(g: Path, p: Path, q: Path)
    requires GlobPattern(g) && Valid(p) && Valid(q) && p.comps != [] && SamePath(p, q)
    ensures PathMatchesGlob(g, p) <==> PathMatchesGlob(g, q)
  {
    PlaceIgnoresCase(GlobBase(g), p, q);
    PlaceIgnoresCase(GlobBase(g), q, p);
    PathMatchesGlobMeaning(g, p);
    PathMatchesGlobMeaning(g, q);
  }
}
