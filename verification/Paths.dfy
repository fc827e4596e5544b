/** Absolute, cleaned Windows paths: a volume followed by components.
    `Render` is the string the program handles; the lemmas relate string tests
    on rendered paths to the components. */
module Paths {
  import opened Text

  const SEP: char := '\\'

  datatype Volume =
    | Drive(letter: char)                  // C:
    | Share(host: string, name: string)    // \\host\name

  datatype Path = Path(vol: Volume, comps: seq<string>)

  /** A component as `filepath.Clean` leaves it. */
  predicate ValidComp(c: string) {
    c != "" && SEP !in c && c != "." && c != ".."
  }

  predicate Wild(c: string) {
    '*' in c || '?' in c
  }

  predicate ValidVolume(v: Volume) {
    match v
    case Drive(letter) => 'A' <= letter <= 'Z' || 'a' <= letter <= 'z'
    case Share(host, name) => ValidComp(host) && ValidComp(name) && !Wild(host) && !Wild(name)
  }

  predicate Valid(p: Path) {
    ValidVolume(p.vol) && forall c :: c in p.comps ==> ValidComp(c)
  }

  /** The volume name cut at separators: `C:` is one piece, `\\host\name` is four. */
  function VolumePieces(v: Volume): (r: seq<string>)
    ensures r != []
  {
    match v
    case Drive(letter) => [[letter, ':']]
    case Share(host, name) => ["", "", host, name]
  }

  function VolumeName(v: Volume): string {
    Join(VolumePieces(v), SEP)
  }

  /** The pieces of the rendered path; a root ends in a separator. */
  function Pieces(p: Path): (r: seq<string>)
    ensures r != []
  {
    VolumePieces(p.vol) + if p.comps == [] then [""] else p.comps
  }

  function Render(p: Path): string {
    Join(Pieces(p), SEP)
  }

  lemma JoinTwo(a: string, b: string)
    ensures Join([a, b], SEP) == a + [SEP] + b
  {
    assert [a, b][1..] == [b];
  }

  /** A drive path is the letter, a colon, and every component behind a separator; a share
      path starts with two separators; a root ends in one. */
  lemma RenderMeaning(p: Path)
    ensures p.vol.Drive? ==> Render(p) == [p.vol.letter] + ":" + [SEP] + Join(p.comps, SEP)
    ensures p.vol.Share? ==>
              Render(p) == [SEP, SEP] + p.vol.host + [SEP] + p.vol.name + [SEP] + Join(p.comps, SEP)
  {
    var tail := if p.comps == [] then [""] else p.comps;
    JoinConcat(VolumePieces(p.vol), tail, SEP);
    if p.vol.Share? {
      assert VolumePieces(p.vol) == ["", ""] + [p.vol.host, p.vol.name];
      JoinConcat(["", ""], [p.vol.host, p.vol.name], SEP);
      JoinTwo("", "");
      JoinTwo(p.vol.host, p.vol.name);
      assert [SEP, SEP] == "" + [SEP] + "" + [SEP];
    }
  }

  function Parent(p: Path): Path {
    Path(p.vol, if p.comps == [] then [] else p.comps[..|p.comps| - 1])
  }

  /** `filepath.Base` of a path below its root. */
  function Leaf(p: Path): string
    requires p.comps != []
  {
    p.comps[|p.comps| - 1]
  }

  // ---- equality up to case ----

  predicate SameVolume(v: Volume, w: Volume) {
    LowerAll(VolumePieces(v)) == LowerAll(VolumePieces(w))
  }

  predicate SamePath(p: Path, q: Path) {
    SameVolume(p.vol, q.vol) && LowerAll(p.comps) == LowerAll(q.comps)
  }

  /** p lies strictly below base, up to case. */
  predicate StrictlyBelow(base: Path, p: Path) {
    && SameVolume(base.vol, p.vol)
    && |base.comps| < |p.comps|
    && LowerAll(p.comps[..|base.comps|]) == LowerAll(base.comps)
  }

  lemma SplitRender(p: Path)
    requires Valid(p)
    ensures Split(Render(p), SEP) == Pieces(p)
    ensures Split(Lower(Render(p)), SEP) == LowerAll(Pieces(p))
  {
    assert Free(Pieces(p), SEP) by {
      forall i | 0 <= i < |Pieces(p)| ensures SEP !in Pieces(p)[i] {
        var v := VolumePieces(p.vol);
        if i >= |v| && p.comps != [] {
          assert Pieces(p)[i] == p.comps[i - |v|];
          assert p.comps[i - |v|] in p.comps;
        }
      }
    }
    SplitJoin(Pieces(p), SEP);
    SplitLower(Render(p), SEP);
  }

  lemma LowerAllAppend(a: seq<string>, b: seq<string>)
    ensures LowerAll(a + b) == LowerAll(a) + LowerAll(b)
  {
  }

  /** A folded component is empty only if the component is. */
  lemma LowerCompNonEmpty(p: Path, i: nat)
    requires Valid(p) && i < |p.comps|
    ensures LowerAll(p.comps)[i] != ""
  {
    assert p.comps[i] in p.comps;
  }

  /** Folded pieces determine the volume and the components up to case. */
  lemma PiecesFold(p: Path, q: Path)
    requires Valid(p) && Valid(q)
    ensures LowerAll(Pieces(p)) == LowerAll(Pieces(q)) <==> SamePath(p, q)
  {
    var a, b := VolumePieces(p.vol), VolumePieces(q.vol);
    var s, t := Pieces(p)[|a|..], Pieces(q)[|b|..];
    LowerAllAppend(a, s);
    LowerAllAppend(b, t);
    assert Pieces(p) == a + s && Pieces(q) == b + t;
    if LowerAll(Pieces(p)) == LowerAll(Pieces(q)) {
      var x := LowerAll(Pieces(p));
      VolumePiecesFold(p, q, x);
      assert x[|a|..] == LowerAll(s) && x[|b|..] == LowerAll(t);
      assert x[..|a|] == LowerAll(a) && x[..|b|] == LowerAll(b);
      if p.comps == [] && q.comps != [] {
        LowerCompNonEmpty(q, 0);
        assert false;
      }
      if q.comps == [] && p.comps != [] {
        LowerCompNonEmpty(p, 0);
        assert false;
      }
    }
    if SamePath(p, q) {
      assert LowerAll(s) == LowerAll(t);
    }
  }

  /** Two piece lists with a common folded prefix have volumes of the same kind. */
  lemma VolumePiecesFold(p: Path, q: Path, x: seq<string>)
    requires Valid(p) && Valid(q)
    requires x <= LowerAll(Pieces(p)) && x <= LowerAll(Pieces(q)) && x != []
    ensures |VolumePieces(p.vol)| == |VolumePieces(q.vol)|
  {
    assert LowerAll(Pieces(p))[0] == x[0] == LowerAll(Pieces(q))[0];
    assert Pieces(p)[0] == VolumePieces(p.vol)[0] && Pieces(q)[0] == VolumePieces(q.vol)[0];
    assert |Lower(Pieces(p)[0])| == |Pieces(p)[0]|;
    assert |Lower(Pieces(q)[0])| == |Pieces(q)[0]|;
  }

  /** `strings.EqualFold` on rendered paths is equality of volume and components up to case. */
  lemma EqualFoldRender(p: Path, q: Path)
    requires Valid(p) && Valid(q)
    ensures EqualFold(Render(p), Render(q)) <==> SamePath(p, q)
  {
    SplitRender(p);
    SplitRender(q);
    JoinSplit(Lower(Render(p)), SEP);
    JoinSplit(Lower(Render(q)), SEP);
    PiecesFold(p, q);
  }

  lemma AppendPrefix(a: seq<string>, s: seq<string>, b: seq<string>, t: seq<string>)
    requires |a| == |b|
    ensures a + s < b + t <==> a == b && s < t
  {
    if a + s < b + t {
      assert a == (a + s)[..|a|] == (b + t)[..|a|] == b;
      assert s == (a + s)[|a|..] == (b + t)[|a|..][..|s|] == t[..|s|];
    }
  }

  lemma PrefixPieces(base: Path, p: Path)
    requires Valid(base) && Valid(p)
    ensures LowerAll(Pieces(base)) < LowerAll(Pieces(p)) <==> base.comps != [] && StrictlyBelow(base, p)
  {
    var a, b := VolumePieces(base.vol), VolumePieces(p.vol);
    var s, t := Pieces(base)[|a|..], Pieces(p)[|b|..];
    assert Pieces(base) == a + s && Pieces(p) == b + t;
    LowerAllAppend(a, s);
    LowerAllAppend(b, t);
    if LowerAll(Pieces(base)) < LowerAll(Pieces(p)) {
      VolumePiecesFold(base, p, LowerAll(Pieces(base)));
    }
    if |a| == |b| {
      AppendPrefix(LowerAll(a), LowerAll(s), LowerAll(b), LowerAll(t));
      if p.comps != [] {
        LowerCompNonEmpty(p, 0);
        FoldedPrefix(s, p.comps);
      }
    }
  }

  lemma FoldedPrefix(s: seq<string>, t: seq<string>)
    ensures LowerAll(s) < LowerAll(t) <==> |s| < |t| && LowerAll(t[..|s|]) == LowerAll(s)
  {
    if |s| <= |t| {
      assert LowerAll(t)[..|s|] == LowerAll(t[..|s|]);
    }
  }

  /** The program's "is under base" test, a prefix test on lower-cased strings with
      one separator appended, holds exactly when the path lies strictly below base
      and base is not a root: a rendered root already ends in the separator. */
  lemma PrefixTestMeaning(base: Path, p: Path)
    requires Valid(base) && Valid(p)
    ensures Lower(Render(base)) + [SEP] <= Lower(Render(p))
       <==> base.comps != [] && StrictlyBelow(base, p)
  {
    SplitRender(base);
    SplitRender(p);
    PrefixBySplit(Lower(Render(base)), Lower(Render(p)), SEP);
    PrefixPieces(base, p);
  }
}
