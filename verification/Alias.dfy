/** internal/config/glob.go, `AliasFromPath`: the URL-safe name of a database file. */
module Alias {
  import opened Results
  import opened Text
  import opened Paths
  import opened Glob
  import opened GlobTheorems

  // ---- filepath.Rel and filepath.Ext ----

  /** Number of leading components two paths share, up to case. */
  function CommonLength(a: seq<string>, b: seq<string>): (n: nat)
    ensures n <= |a| && n <= |b|
  {
    if a == [] || b == [] || !EqualFold(a[0], b[0]) then 0
    else 1 + CommonLength(a[1..], b[1..])
  }

  function Ups(n: nat): seq<string> {
    if n == 0 then [] else [".."] + Ups(n - 1)
  }

  /** `filepath.Rel` on Windows, in components: up from base, then down to path. */
  function Rel(base: Path, path: Path): (r: Result<seq<string>>)
    ensures r.Ok? <==> SameVolume(base.vol, path.vol)
    ensures r.Ok? ==> r.value != []
  {
    if !SameVolume(base.vol, path.vol) then Err("Rel: can't make path relative to base")
    else
      var n := CommonLength(base.comps, path.comps);
      var comps := Ups(|base.comps| - n) + path.comps[n..];
      Ok(if comps == [] then ["."] else comps)
  }

  /** `filepath.Ext`: the suffix from the last dot of the last component. */
  function Ext(s: string): string {
    s[ExtStart(s, |s|)..]
  }

  /** Where the extension starts, searching backwards from n; |s| if there is none. */
  function ExtStart(s: string, n: nat): (start: nat)
    requires n <= |s|
    ensures start <= |s|
  {
    if n == 0 || s[n - 1] == SEP then |s|
    else if s[n - 1] == '.' then n - 1
    else ExtStart(s, n - 1)
  }

  // ---- the alias ----

  predicate AliasChar(c: char) {
    'a' <= c <= 'z' || '0' <= c <= '9' || c == '-' || c == '_'
  }

  /** What happens to one character: separators become underscores, letters are
      lower-cased, and anything outside the alias alphabet becomes an underscore. */
  function AliasOfChar(c: char): char {
    var lowered := LowerChar(if c == SEP then '_' else c);
    if AliasChar(lowered) then lowered else '_'
  }

  function AliasOfRel(rel: string): (r: string)
    ensures |r| == |rel| - |Ext(rel)|
  {
    seq(|rel| - |Ext(rel)|, i requires 0 <= i < |rel| - |Ext(rel)| => AliasOfChar(rel[i]))
  }

  function AliasOf(base: Path, path: Path): Result<string> {
    var comps :- Rel(base, path);
    Ok(AliasOfRel(Join(comps, SEP)))
  }

  method AliasFromPath(base: Path, path: Path) returns (r: Result<string>)
    ensures r == AliasOf(base, path)
  {
    var comps :- Rel(base, path);
    var alias := Slug(Join(comps, SEP));
    r := Ok(alias);
  }

  /** Strips the extension, joins with underscores, lower-cases and replaces every other character. */
  method Slug(rel: string) returns (b: string)
    ensures b == AliasOfRel(rel)
  {
    var noExt := rel[..|rel| - |Ext(rel)|];
    var raw := Lower(seq(|noExt|, i requires 0 <= i < |noExt| => if noExt[i] == SEP then '_' else noExt[i]));
    b := "";
    for i := 0 to |raw|
      invariant |b| == i && forall j :: 0 <= j < i ==> b[j] == AliasOfChar(rel[j])
    {
      b := b + (if AliasChar(raw[i]) then [raw[i]] else ['_']);
    }
  }

  predicate EndsWith(s: string, end: string) {
    |end| <= |s| && s[|s| - |end|..] == end
  }

  /** A text that ends in a database extension has that extension. */
  lemma EndIsExtension(s: string, ext: string)
    requires ext in [".mdb", ".accdb"] && EndsWith(s, ext)
    ensures Ext(s) == ext
  {
    var n := |s|;
    assert forall i :: n - |ext| <= i < n ==> s[i] == s[n - |ext|..][i - (n - |ext|)];
    assert s[n - |ext|] == '.';
    BackToDot(s, n - |ext|, n);
  }

  lemma {:induction false} BackToDot(s: string, dot: nat, n: nat)
    requires dot < n <= |s| && s[dot] == '.' && forall i :: dot < i < n ==> s[i] != '.' && s[i] != SEP
    ensures ExtStart(s, n) == dot
  {
    if n == dot + 1 {
    } else {
      BackToDot(s, dot, n - 1);
    }
  }

  // ---- what an alias looks like ----

  /** Derived aliases are lower case and use only the alias alphabet. */
  lemma AliasAlphabet(base: Path, path: Path)
    requires AliasOf(base, path).Ok?
    ensures forall c :: c in AliasOf(base, path).value ==> AliasChar(c)
    ensures Lower(AliasOf(base, path).value) == AliasOf(base, path).value
  {
  }

  lemma {:induction false} CommonIsLongest(a: seq<string>, b: seq<string>)
    ensures var n := CommonLength(a, b);
            && (forall i :: 0 <= i < n ==> EqualFold(a[i], b[i]))
            && (n < |a| && n < |b| ==> !EqualFold(a[n], b[n]))
  {
    if a == [] || b == [] || !EqualFold(a[0], b[0]) {
    } else {
      CommonIsLongest(a[1..], b[1..]);
      assert forall i :: 0 < i <= CommonLength(a[1..], b[1..]) ==> a[i] == a[1..][i - 1] && b[i] == b[1..][i - 1];
    }
  }

  lemma {:induction false} UpsAre(n: nat)
    ensures |Ups(n)| == n && forall i :: 0 <= i < n ==> Ups(n)[i] == ".."
  {
    if n == 0 {
    } else {
      UpsAre(n - 1);
    }
  }

  /** A relative path goes up to the last directory that both share, up to case, and from
      there down to the path; it is a dot if the two are one. */
  lemma RelMeaning(base: Path, path: Path, n: nat)
    requires SameVolume(base.vol, path.vol) && n <= |base.comps| && n <= |path.comps|
    requires forall i :: 0 <= i < n ==> EqualFold(base.comps[i], path.comps[i])
    requires n < |base.comps| && n < |path.comps| ==> !EqualFold(base.comps[n], path.comps[n])
    ensures var rel := Rel(base, path).value;
            if n == |base.comps| == |path.comps| then rel == ["."]
            else
              && |rel| == (|base.comps| - n) + (|path.comps| - n)
              && (forall i :: 0 <= i < |base.comps| - n ==> rel[i] == "..")
              && rel[|base.comps| - n..] == path.comps[n..]
  {
    CommonIsLongest(base.comps, path.comps);
    UpsAre(|base.comps| - n);
    assert CommonLength(base.comps, path.comps) == n;
  }

  lemma {:induction false} CommonOfBelow(base: seq<string>, path: seq<string>)
    requires |base| <= |path| && LowerAll(path[..|base|]) == LowerAll(base)
    ensures CommonLength(base, path) == |base|
  {
    if base == [] {
    } else {
      assert LowerAll(path[..|base|])[0] == LowerAll(base)[0];
      assert LowerAll(path[..|base|])[1..] == LowerAll(path[1..][..|base[1..]|]);
      assert LowerAll(base)[1..] == LowerAll(base[1..]);
      CommonOfBelow(base[1..], path[1..]);
    }
  }

  lemma RelOfBelow(base: Path, path: Path)
    requires StrictlyBelow(base, path)
    ensures Rel(base, path) == Ok(path.comps[|base.comps|..])
  {
    CommonOfBelow(base.comps, path.comps);
    assert Ups(0) + path.comps[|base.comps|..] == path.comps[|base.comps|..];
  }

  /** An accepted path has an alias, made from the components below the base alone. */
  lemma AcceptedHasAlias(g: Path, p: Path)
    requires GlobPattern(g) && Valid(p) && p.comps != [] && PathMatchesGlob(g, p)
    ensures StrictlyBelow(GlobBase(g), p)
    ensures Rel(GlobBase(g), p) == Ok(p.comps[|GlobBase(g).comps|..])
    ensures ".." !in Rel(GlobBase(g), p).value
    ensures AliasOf(GlobBase(g), p).Ok?
  {
    AcceptedLiesBelowBase(g, p);
    AliasOfBelow(GlobBase(g), p);
  }

  lemma AliasOfBelow(base: Path, path: Path)
    requires Valid(path) && StrictlyBelow(base, path)
    ensures Rel(base, path) == Ok(path.comps[|base.comps|..])
    ensures ".." !in Rel(base, path).value
    ensures AliasOf(base, path) == Ok(AliasOfRel(Join(path.comps[|base.comps|..], SEP)))
  {
    RelOfBelow(base, path);
    assert forall c :: c in path.comps[|base.comps|..] ==> c in path.comps;
  }

  // ---- how aliases depend on the spelling and on the base ----

  lemma {:induction false} ExtLower(s: string, n: nat)
    requires n <= |s|
    ensures ExtStart(Lower(s), n) == ExtStart(s, n)
  {
    if n == 0 {
    } else {
      ExtLower(s, n - 1);
      assert Lower(s)[n - 1] == LowerChar(s[n - 1]);
    }
  }

  lemma AliasOfRelLower(s: string, t: string)
    requires EqualFold(s, t)
    ensures AliasOfRel(s) == AliasOfRel(t)
  {
    ExtLower(s, |s|);
    ExtLower(t, |t|);
    assert |s| == |Lower(s)| == |Lower(t)| == |t|;
    assert |Ext(s)| == |Ext(t)|;
    forall i | 0 <= i < |AliasOfRel(s)| ensures AliasOfRel(s)[i] == AliasOfRel(t)[i] {
      assert Lower(s)[i] == Lower(t)[i];
    }
  }

  lemma {:induction false} JoinLower(parts: seq<string>)
    ensures Lower(Join(parts, SEP)) == Join(LowerAll(parts), SEP)
  {
    if |parts| <= 1 {
    } else {
      JoinLower(parts[1..]);
      LowerAppend(parts[0] + [SEP], Join(parts[1..], SEP));
      LowerAppend(parts[0], [SEP]);
      assert LowerAll(parts)[1..] == LowerAll(parts[1..]);
    }
  }

  /** Two spellings of one file have one alias. */
  lemma AliasIgnoresCase(base: Path, base': Path, p: Path, p': Path)
    requires StrictlyBelow(base, p) && SamePath(base, base') && SamePath(p, p')
    ensures StrictlyBelow(base', p')
    ensures AliasOf(base, p) == AliasOf(base', p')
  {
    var n := |base.comps|;
    assert n == |LowerAll(base.comps)| == |LowerAll(base'.comps)| == |base'.comps|;
    assert |p.comps| == |LowerAll(p.comps)| == |LowerAll(p'.comps)| == |p'.comps|;
    assert LowerAll(p.comps[..n]) == LowerAll(p.comps)[..n];
    assert LowerAll(p'.comps[..n]) == LowerAll(p'.comps)[..n];
    RelOfBelow(base, p);
    RelOfBelow(base', p');
    var s, t := p.comps[n..], p'.comps[n..];
    assert LowerAll(s) == LowerAll(p.comps)[n..] && LowerAll(t) == LowerAll(p'.comps)[n..];
    JoinLower(s);
    JoinLower(t);
    AliasOfRelLower(Join(s, SEP), Join(t, SEP));
  }

  /** The extension of a path is the extension of what follows a separator. */
  lemma {:induction false} ExtOfLast(u: string, k: nat, t: string, n: nat)
    requires 1 <= k <= |u| && u[k - 1] == SEP && u[k..] == t
    requires n <= |t|
    ensures ExtStart(u, k + n) == k + ExtStart(t, n)
  {
    if n == 0 {
    } else {
      ExtOfLast(u, k, t, n - 1);
      assert u[k + n - 1] == t[n - 1];
    }
  }

  /** A file below two bases of different depth gets different aliases from them. */
  lemma DeeperBaseOtherAlias(base: Path, deeper: Path, p: Path)
    requires StrictlyBelow(base, p) && StrictlyBelow(deeper, p)
    requires |base.comps| < |deeper.comps|
    ensures AliasOf(base, p) != AliasOf(deeper, p)
  {
    RelOfBelow(base, p);
    RelOfBelow(deeper, p);
    var rel, n := p.comps[|base.comps|..], |deeper.comps| - |base.comps|;
    LongerRel(rel, n);
    assert rel[n..] == p.comps[|deeper.comps|..];
    assert AliasOf(base, p) == Ok(AliasOfRel(Join(rel, SEP)));
    assert AliasOf(deeper, p) == Ok(AliasOfRel(Join(rel[n..], SEP)));
  }

  lemma LongerRel(rel: seq<string>, n: nat)
    requires 0 < n < |rel|
    ensures |AliasOfRel(Join(rel, SEP))| > |AliasOfRel(Join(rel[n..], SEP))|
  {
    var s, t := Join(rel[..n], SEP), Join(rel[n..], SEP);
    assert rel == rel[..n] + rel[n..];
    JoinConcat(rel[..n], rel[n..], SEP);
    var u := s + [SEP] + t;
    assert u[|s|] == SEP && u[|s| + 1..] == t;
    ExtOfLast(u, |s| + 1, t, |t|);
  }

  // ---- the alias, character by character ----

  /** What an alias holds besides underscores. */
  const KEPT_CHARS := SMALL + "0123456789-"

  lemma SmallTable(c: char)
    ensures c in SMALL <==> 'a' <= c <= 'z'
  {
    if 'a' <= c <= 'z' { assert SMALL[c as int - 'a' as int] == c; }
  }

  lemma DigitTable(c: char)
    ensures c in "0123456789-" <==> '0' <= c <= '9' || c == '-'
  {
    if '0' <= c <= '9' { assert "0123456789-"[c as int - '0' as int] == c; }
    if c == '-' { assert "0123456789-"[10] == c; }
  }

  lemma AliasCharTable(c: char)
    ensures AliasChar(c) <==> c in KEPT_CHARS || c == '_'
  {
    SmallTable(c);
    DigitTable(c);
  }

  /** name is stem followed by its extension, which starts at the last dot. */
  predicate CutsExtension(name: string, stem: string, ext: string) {
    && name == stem + ext
    && (if ext == "" then '.' !in name else ext[0] == '.' && '.' !in ext[1..])
  }

  /** alias is text in lower case, with an underscore for whatever is not kept. */
  predicate Spells(alias: string, text: string) {
    && |alias| == |text|
    && forall i :: 0 <= i < |text| ==> alias[i] == KeptOrBlank(Lower(text)[i])
  }

  function KeptOrBlank(c: char): char {
    if c in KEPT_CHARS then c else '_'
  }

  lemma {:induction false} NoDotNoExt(s: string, n: nat)
    requires n <= |s| && forall i :: 0 <= i < n ==> s[i] != '.'
    ensures ExtStart(s, n) == |s|
  {
    if n == 0 {
    } else {
      NoDotNoExt(s, n - 1);
    }
  }

  lemma ExtOfName(name: string, stem: string, ext: string)
    requires SEP !in name && CutsExtension(name, stem, ext)
    ensures ExtStart(name, |name|) == |stem|
  {
    if ext == "" {
      NoDotNoExt(name, |name|);
    } else {
      assert name[|stem|] == '.';
      assert forall i :: |stem| < i < |name| ==> name[i] == ext[1..][i - |stem| - 1];
      BackToDot(name, |stem|, |name|);
    }
  }

  lemma StemOfText(head: string, name: string, stem: string, ext: string, text: string)
    requires SEP !in name && CutsExtension(name, stem, ext) && text == head + name
    requires head == "" || head[|head| - 1] == SEP
    ensures |Ext(text)| == |ext| && text[..|text| - |ext|] == head + stem
  {
    ExtOfName(name, stem, ext);
    if head == "" {
      assert text == name;
    } else {
      assert text[|head|..] == name;
      ExtOfLast(text, |head|, name, |name|);
    }
    assert text == head + stem + ext;
  }

  /** Without its extension the joined text ends in the stem of its last component. */
  lemma JoinedStem(init: seq<string>, name: string, stem: string, ext: string)
    requires SEP !in name && CutsExtension(name, stem, ext)
    ensures var text := Join(init + [name], SEP);
            text[..|text| - |Ext(text)|] == Join(init + [stem], SEP)
  {
    if init == [] {
      assert init + [name] == [name] && init + [stem] == [stem];
      StemOfText("", name, stem, ext, name);
    } else {
      JoinConcat(init, [name], SEP);
      JoinConcat(init, [stem], SEP);
      StemOfText(Join(init, SEP) + [SEP], name, stem, ext, Join(init + [name], SEP));
    }
  }

  /** Joining with another separator changes the separators only. */
  lemma {:induction false} JoinSwaps(parts: seq<string>)
    requires Free(parts, SEP)
    ensures var s, t := Join(parts, SEP), Join(parts, '_');
            |s| == |t| && forall i :: 0 <= i < |s| ==> t[i] == if s[i] == SEP then '_' else s[i]
  {
    if |parts| <= 1 {
    } else {
      assert forall i :: 0 <= i < |parts[1..]| ==> parts[1..][i] == parts[i + 1];
      JoinSwaps(parts[1..]);
    }
  }

  lemma AliasCharMeaning(c: char)
    ensures AliasOfChar(c) == KeptOrBlank(LowerChar(if c == SEP then '_' else c))
  {
    AliasCharTable(LowerChar(if c == SEP then '_' else c));
  }

  lemma AliasOfJoined(text: string, parts: seq<string>)
    requires Free(parts, SEP) && text[..|text| - |Ext(text)|] == Join(parts, SEP)
    ensures Spells(AliasOfRel(text), Join(parts, '_'))
  {
    JoinSwaps(parts);
    var t, a := Join(parts, '_'), AliasOfRel(text);
    forall i | 0 <= i < |t| ensures a[i] == KeptOrBlank(Lower(t)[i]) {
      assert text[i] == Join(parts, SEP)[i];
      AliasCharMeaning(text[i]);
    }
  }

  /** The names an alias is made of: the components, the last one without its extension. */
  function Names(comps: seq<string>, stem: string): seq<string>
    requires comps != []
  {
    comps[..|comps| - 1] + [stem]
  }

  lemma NamesAreFree(comps: seq<string>, stem: string, ext: string)
    requires comps != [] && Free(comps, SEP) && comps[|comps| - 1] == stem + ext
    ensures Free(Names(comps, stem), SEP)
  {
    assert forall c :: c in stem ==> c in comps[|comps| - 1];
  }

  lemma RestIsFree(p: Path, from: nat, comps: seq<string>)
    requires Valid(p) && from <= |p.comps| && comps == p.comps[from..]
    ensures Free(comps, SEP)
  {
    forall i | 0 <= i < |comps| ensures SEP !in comps[i] {
      assert comps[i] in p.comps;
    }
  }

  lemma SpelledParts(comps: seq<string>, init: seq<string>, name: string, stem: string, ext: string)
    requires comps == init + [name] && SEP !in name && CutsExtension(name, stem, ext) && Free(init + [stem], SEP)
    ensures Spells(AliasOfRel(Join(comps, SEP)), Join(init + [stem], '_'))
  {
    JoinedStem(init, name, stem, ext);
    AliasOfJoined(Join(comps, SEP), init + [stem]);
  }

  lemma SpelledBelow(comps: seq<string>, alias: string, stem: string, ext: string)
    requires comps != [] && Free(comps, SEP) && CutsExtension(comps[|comps| - 1], stem, ext)
    requires alias == AliasOfRel(Join(comps, SEP))
    ensures Spells(alias, Join(Names(comps, stem), '_'))
  {
    var init, name := comps[..|comps| - 1], comps[|comps| - 1];
    NamesAreFree(comps, stem, ext);
    InitAndLast(comps);
    SpelledParts(comps, init, name, stem, ext);
  }

  /** A file below a base is called by its components below it, joined by underscores, the
      last one without its extension, in lower case, with an underscore in place of every
      character that is no letter, digit, dash or underscore. */
  lemma AliasMeaning(base: Path, p: Path, comps: seq<string>, stem: string, ext: string)
    requires Valid(p) && StrictlyBelow(base, p) && comps == p.comps[|base.comps|..]
    requires CutsExtension(Leaf(p), stem, ext)
    ensures AliasOf(base, p).Ok?
    ensures Spells(AliasOf(base, p).value, Join(Names(comps, stem), '_'))
  {
    AliasOfRest(base, p, comps);
    RestEndsInLeaf(p, |base.comps|, comps);
    RestIsFree(p, |base.comps|, comps);
    SpelledBelow(comps, AliasOfRel(Join(comps, SEP)), stem, ext);
  }

  lemma AliasOfRest(base: Path, p: Path, comps: seq<string>)
    requires StrictlyBelow(base, p) && comps == p.comps[|base.comps|..]
    ensures AliasOf(base, p) == Ok(AliasOfRel(Join(comps, SEP)))
  {
    RelOfBelow(base, p);
  }

  lemma RestEndsInLeaf(p: Path, from: nat, comps: seq<string>)
    requires from < |p.comps| && comps == p.comps[from..]
    ensures comps != [] && comps[|comps| - 1] == Leaf(p)
  {
    assert comps[|comps| - 1] == p.comps[from + (|comps| - 1)];
  }

  /** Names of letters, digits, dashes and underscores are only put in lower case. */
  lemma AliasOfPlainNames(base: Path, p: Path, comps: seq<string>, stem: string, ext: string)
    requires Valid(p) && StrictlyBelow(base, p) && comps == p.comps[|base.comps|..]
    requires CutsExtension(Leaf(p), stem, ext)
    requires forall c :: c in Lower(Join(Names(comps, stem), '_')) ==> c in KEPT_CHARS || c == '_'
    ensures AliasOf(base, p) == Ok(Lower(Join(Names(comps, stem), '_')))
  {
    AliasMeaning(base, p, comps, stem, ext);
    PlainSpelling(AliasOf(base, p).value, Join(Names(comps, stem), '_'));
  }

  lemma PlainSpelling(alias: string, text: string)
    requires Spells(alias, text) && forall c :: c in Lower(text) ==> c in KEPT_CHARS || c == '_'
    ensures alias == Lower(text)
  {
    forall i | 0 <= i < |text| ensures alias[i] == Lower(text)[i] {
      assert Lower(text)[i] in Lower(text);
    }
  }

  /** Two characters that an alias does not tell apart. */
  predicate Blurred(c: char, d: char) {
    || LowerChar(c) == LowerChar(d)
    || (LowerChar(c) !in KEPT_CHARS && LowerChar(d) !in KEPT_CHARS)
  }

  /** Two files below one base share an alias exactly if their joined names have one length
      and differ only in case and in characters that become underscores. */
  lemma AliasesCollideIff(base: Path, p: Path, q: Path, comps: seq<string>, comps': seq<string>,
                          stem: string, ext: string, stem': string, ext': string)
    requires Valid(p) && StrictlyBelow(base, p) && comps == p.comps[|base.comps|..]
    requires Valid(q) && StrictlyBelow(base, q) && comps' == q.comps[|base.comps|..]
    requires CutsExtension(Leaf(p), stem, ext) && CutsExtension(Leaf(q), stem', ext')
    ensures AliasOf(base, p) == AliasOf(base, q) <==>
              var s, t := Join(Names(comps, stem), '_'), Join(Names(comps', stem'), '_');
              |s| == |t| && forall i :: 0 <= i < |s| ==> Blurred(s[i], t[i])
  {
    AliasMeaning(base, p, comps, stem, ext);
    AliasMeaning(base, q, comps', stem', ext');
    SpellingsMeet(AliasOf(base, p).value, Join(Names(comps, stem), '_'),
                  AliasOf(base, q).value, Join(Names(comps', stem'), '_'));
  }

  lemma SpellingsMeet(a: string, s: string, b: string, t: string)
    requires Spells(a, s) && Spells(b, t)
    ensures a == b <==> |s| == |t| && forall i :: 0 <= i < |s| ==> Blurred(s[i], t[i])
  {
    if |s| == |t| {
      forall i | 0 <= i < |s| ensures a[i] == b[i] <==> Blurred(s[i], t[i]) {
        NoBlankKept();
      }
    }
  }

  lemma NoBlankKept()
    ensures '_' !in KEPT_CHARS
  {
    SmallTable('_');
    DigitTable('_');
  }
}
