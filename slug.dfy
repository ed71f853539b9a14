/** `slugify`: a URL slug from a church name. The source runs a chain of
    string replacements over one local string; each link of the chain is one
    function here, and `Slugify` composes them in the source's order. */
module Slug {
  import opened Json
  import opened JsText

  /** What the slug is made of: `[a-z0-9]` and the dash. */
  predicate IsAlnum(c: char) {
    'a' <= c <= 'z' || '0' <= c <= '9'
  }

  predicate IsSlugChar(c: char) {
    IsAlnum(c) || c == '-'
  }

  /** The characters the filtering step keeps: `[a-z0-9\s-]`. */
  predicate IsKept(c: char) {
    IsAlnum(c) || IsJsSpace(c) || c == '-'
  }

  predicate AllSlugChars(s: string) {
    forall i :: 0 <= i < |s| ==> IsSlugChar(s[i])
  }

  ghost predicate NoDoubleDash(s: string) {
    forall i, j :: 0 <= i < j < |s| && j == i + 1 ==> !(s[i] == '-' && s[j] == '-')
  }

  predicate NoEdgeDash(s: string) {
    s != [] ==> s[0] != '-' && s[|s| - 1] != '-'
  }

  /** The shape of every non-empty slug. */
  ghost predicate IsSlug(s: string) {
    s != [] && AllSlugChars(s) && NoDoubleDash(s) && NoEdgeDash(s)
  }

  /** The letters and digits of `s`, in order. */
  function Alnums(s: string): string {
    if s == [] then [] else (if IsAlnum(s[0]) then [s[0]] else []) + Alnums(s[1..])
  }

  lemma AlnumsCons(c: char, s: string)
    ensures Alnums([c] + s) == (if IsAlnum(c) then [c] else []) + Alnums(s)
  {
    assert ([c] + s)[1..] == s;
  }

  /** `toLowerCase` on one code point. ASCII capitals, the Polish capitals
      and the two other capitals whose lower case is ASCII (dotted capital I,
      Kelvin sign) are mapped as JavaScript maps them; every other code
      point is kept, which changes nothing downstream because its lower-case
      form is neither ASCII nor a Polish letter and the filter drops it. */
  function LowerChar(c: char): string {
    if 'A' <= c <= 'Z' then [((c as int) + 32) as char]
    else if c == 'Ą' then "ą"
    else if c == 'Ć' then "ć"
    else if c == 'Ę' then "ę"
    else if c == 'Ł' then "ł"
    else if c == 'Ń' then "ń"
    else if c == 'Ó' then "ó"
    else if c == 'Ś' then "ś"
    else if c == 'Ź' then "ź"
    else if c == 'Ż' then "ż"
    else if c == '\U{130}' then "i\U{307}"
    else if c == '\U{212A}' then "k"
    else [c]
  }

  /** `s.toLowerCase()` */
  function Lower(s: string): string {
    if s == [] then [] else LowerChar(s[0]) + Lower(s[1..])
  }

  /** The diacritic table: `map[c] ?? c`. */
  function FoldChar(c: char): char {
    if c == 'ą' || c == 'Ą' then 'a'
    else if c == 'ć' || c == 'Ć' then 'c'
    else if c == 'ę' || c == 'Ę' then 'e'
    else if c == 'ł' || c == 'Ł' then 'l'
    else if c == 'ń' || c == 'Ń' then 'n'
    else if c == 'ó' || c == 'Ó' then 'o'
    else if c == 'ś' || c == 'Ś' then 's'
    else if c == 'ź' || c == 'Ź' || c == 'ż' || c == 'Ż' then 'z'
    else c
  }

  /** `s.replace(/[ąćęłńóśźżĄĆĘŁŃÓŚŹŻ]/g, c => map[c] ?? c)` */
  function FoldDiacritics(s: string): string {
    if s == [] then [] else [FoldChar(s[0])] + FoldDiacritics(s[1..])
  }

  /** `s.replace(/[^a-z0-9\s-]/g, '')`: only letters, digits, white space
      and dashes remain, and no letter or digit is lost. */
  function KeepAllowed(s: string): (r: string)
    ensures forall i :: 0 <= i < |r| ==> IsKept(r[i])
    ensures Alnums(r) == Alnums(s)
  {
    if s == [] then []
    else if IsKept(s[0]) then [s[0]] + KeepAllowed(s[1..])
    else KeepAllowed(s[1..])
  }

  function DropSpaces(s: string): (r: string)
    ensures |r| <= |s| && r == s[|s| - |r|..]
    ensures forall i :: 0 <= i < |s| - |r| ==> IsJsSpace(s[i])
    ensures r != [] ==> !IsJsSpace(r[0])
    ensures Alnums(r) == Alnums(s)
  {
    if s != [] && IsJsSpace(s[0]) then
      var r := DropSpaces(s[1..]);
      assert s[1..][|s| - 1 - |r|..] == s[|s| - |r|..];
      assert forall i :: 1 <= i < |s| - |r| ==> IsJsSpace(s[i]) by {
        forall i | 1 <= i < |s| - |r|
          ensures IsJsSpace(s[i])
        {
          assert s[i] == s[1..][i - 1];
        }
      }
      r
    else s
  }

  function DropDashes(s: string): (r: string)
    ensures |r| <= |s| && r == s[|s| - |r|..]
    ensures forall i :: 0 <= i < |s| - |r| ==> s[i] == '-'
    ensures r != [] ==> r[0] != '-'
    ensures Alnums(r) == Alnums(s)
  {
    if s != [] && s[0] == '-' then
      var r := DropDashes(s[1..]);
      assert s[1..][|s| - 1 - |r|..] == s[|s| - |r|..];
      assert forall i :: 1 <= i < |s| - |r| ==> s[i] == '-' by {
        forall i | 1 <= i < |s| - |r|
          ensures s[i] == '-'
        {
          assert s[i] == s[1..][i - 1];
        }
      }
      r
    else s
  }

  /** `s.replace(/\s+/g, '-')`: each run of white space becomes one dash.
      Letters and digits are untouched, and a filtered string comes out
      made of slug characters only. */
  function SpacesToDash(s: string): (r: string)
    ensures Alnums(r) == Alnums(s)
    ensures (forall i :: 0 <= i < |s| ==> IsKept(s[i])) ==> AllSlugChars(r)
    decreases |s|
  {
    if s == [] then []
    else if IsJsSpace(s[0]) then
      var t := DropSpaces(s[1..]);
      KeptSuffix(s, |s| - |t|);
      AlnumsCons('-', SpacesToDash(t));
      SlugCharsCons('-', SpacesToDash(t));
      "-" + SpacesToDash(t)
    else
      KeptSuffix(s, 1);
      AlnumsCons(s[0], SpacesToDash(s[1..]));
      SlugCharsCons(s[0], SpacesToDash(s[1..]));
      [s[0]] + SpacesToDash(s[1..])
  }

  lemma KeptSuffix(s: string, k: nat)
    requires k <= |s|
    ensures (forall i :: 0 <= i < |s| ==> IsKept(s[i])) ==> forall i :: 0 <= i < |s| - k ==> IsKept(s[k..][i])
  {
  }

  lemma SlugCharsCons(c: char, s: string)
    ensures IsSlugChar(c) && AllSlugChars(s) ==> AllSlugChars([c] + s)
  {
  }

  lemma DashFreeCons(c: char, s: string)
    requires NoDoubleDash(s)
    requires c == '-' && s != [] ==> s[0] != '-'
    ensures NoDoubleDash([c] + s)
    ensures IsSlugChar(c) && AllSlugChars(s) ==> AllSlugChars([c] + s)
  {
    var t := [c] + s;
    forall i, j | 0 <= i < j < |t| && j == i + 1
      ensures !(t[i] == '-' && t[j] == '-')
    {
      if i > 0 {
        assert t[i] == s[i - 1] && t[j] == s[j - 1];
      }
    }
  }

  /** `s.replace(/-+/g, '-')`: each run of dashes becomes one dash, so no two
      dashes are adjacent afterwards; the first character stays a dash
      exactly when it was one. */
  function SquashDashes(s: string): (r: string)
    ensures Alnums(r) == Alnums(s)
    ensures AllSlugChars(s) ==> AllSlugChars(r)
    ensures NoDoubleDash(r)
    ensures r == [] <==> s == []
    ensures r != [] ==> (r[0] == '-' <==> s[0] == '-')
    decreases |s|
  {
    if s == [] then []
    else if s[0] == '-' then
      var rest := SquashDashes(DropDashes(s[1..]));
      AlnumsCons('-', rest);
      DashFreeCons('-', rest);
      "-" + rest
    else
      var rest := SquashDashes(s[1..]);
      AlnumsCons(s[0], rest);
      DashFreeCons(s[0], rest);
      [s[0]] + rest
  }

  /** `s.replace(/^-|-$/g, '')`: one leading and one trailing dash go. */
  function TrimDashes(s: string): string {
    var t := if s != [] && s[0] == '-' then s[1..] else s;
    if t != [] && t[|t| - 1] == '-' then t[..|t| - 1] else t
  }

  const DefaultSlug: string := "kosciol"

  /** The replacement chain of `slugify`, from `trim` to the edge dashes. */
  function SlugCore(s: string): string {
    TrimDashes(SquashDashes(SpacesToDash(KeepAllowed(FoldDiacritics(Lower(Trim(s)))))))
  }

  /** `slugify(name)` */
  function Slugify(name: JsValue): string {
    if !Truthy(name) || !name.Str? then ""
    else if SlugCore(name.s) == [] then DefaultSlug
    else SlugCore(name.s)
  }

  /** The letters and digits of the name after lower-casing and folding the
      diacritics: what a slug is expected to spell. */
  function Transliterate(s: string): string {
    Alnums(FoldDiacritics(Lower(s)))
  }

  // ---------------------------------------------------------------------
  // How the stages compose

  lemma {:induction false} AlnumsConcat(a: string, b: string)
    ensures Alnums(a + b) == Alnums(a) + Alnums(b)
  {
    if a != [] {
      AlnumsConcat(a[1..], b);
      assert (a + b)[0] == a[0] && (a + b)[1..] == a[1..] + b;
    } else {
      assert a + b == b;
    }
  }

  lemma {:induction false} LowerConcat(a: string, b: string)
    ensures Lower(a + b) == Lower(a) + Lower(b)
  {
    if a != [] {
      LowerConcat(a[1..], b);
      assert (a + b)[0] == a[0] && (a + b)[1..] == a[1..] + b;
      calc {
        Lower(a + b);
        LowerChar(a[0]) + Lower(a[1..] + b);
        LowerChar(a[0]) + (Lower(a[1..]) + Lower(b));
        (LowerChar(a[0]) + Lower(a[1..])) + Lower(b);
      }
    } else {
      assert a + b == b;
    }
  }

  lemma {:induction false} FoldConcat(a: string, b: string)
    ensures FoldDiacritics(a + b) == FoldDiacritics(a) + FoldDiacritics(b)
  {
    if a != [] {
      FoldConcat(a[1..], b);
      assert (a + b)[0] == a[0] && (a + b)[1..] == a[1..] + b;
    } else {
      assert a + b == b;
    }
  }

  lemma SpaceChar(c: char)
    requires IsJsSpace(c)
    ensures LowerChar(c) == [c] && FoldChar(c) == c && !IsAlnum(c)
  {
  }

  lemma {:induction false} TransliterateConcat(a: string, b: string)
    ensures Transliterate(a + b) == Transliterate(a) + Transliterate(b)
  {
    LowerConcat(a, b);
    FoldConcat(Lower(a), Lower(b));
    AlnumsConcat(FoldDiacritics(Lower(a)), FoldDiacritics(Lower(b)));
  }

  /** White space carries no letters or digits through lower-casing and
      folding. */
  lemma {:induction false} TransliterateSpaces(w: string)
    requires forall i :: 0 <= i < |w| ==> IsJsSpace(w[i])
    ensures Transliterate(w) == []
  {
    if w != [] {
      var c := w[0];
      TransliterateSpaces(w[1..]);
      SpaceChar(c);
      assert w == [c] + w[1..];
      TransliterateConcat([c], w[1..]);
      assert Lower([c]) == [c] + Lower([]);
      assert FoldDiacritics([c]) == [c] + FoldDiacritics([]);
      AlnumsCons(c, []);
    }
  }

  lemma {:induction false} TransliterateTrimStart(s: string)
    ensures Transliterate(TrimStart(s)) == Transliterate(s)
  {
    var a := TrimStart(s);
    var front := s[..|s| - |a|];
    assert s == front + a;
    TransliterateConcat(front, a);
    TransliterateSpaces(front);
  }

  lemma {:induction false} TransliterateTrimEnd(a: string)
    ensures Transliterate(TrimEnd(a)) == Transliterate(a)
  {
    var b := TrimEnd(a);
    var back := a[|b|..];
    assert a == b + back;
    TransliterateConcat(b, back);
    assert forall i :: 0 <= i < |back| ==> back[i] == a[|b| + i];
    TransliterateSpaces(back);
  }

  /** Trimming the name loses no letter or digit. */
  lemma {:induction false} TransliterateTrim(s: string)
    ensures Transliterate(Trim(s)) == Transliterate(s)
  {
    TransliterateTrimStart(s);
    TransliterateTrimEnd(TrimStart(s));
  }

  /** Dropping one edge dash from each end leaves slug characters with no
      double dash and no edge dash, and loses no letter or digit. */
  lemma TrimDashesShape(s: string)
    requires AllSlugChars(s) && NoDoubleDash(s)
    ensures AllSlugChars(TrimDashes(s)) && NoDoubleDash(TrimDashes(s)) && NoEdgeDash(TrimDashes(s))
    ensures Alnums(TrimDashes(s)) == Alnums(s)
  {
    var t := if s != [] && s[0] == '-' then s[1..] else s;
    if s != [] && s[0] == '-' {
      AlnumsCons('-', t);
      assert s == [s[0]] + t;
    }
    if t != [] && t[|t| - 1] == '-' {
      var u := t[..|t| - 1];
      AlnumsConcat(u, "-");
      assert t == u + "-";
      if u != [] && s != [] && s[0] == '-' {
        assert u[0] == s[1];
      }
      if |u| >= 1 {
        assert u[|u| - 1] == t[|t| - 2];
      }
    }
  }

  /** A string of slug characters with no double and no edge dash is empty
      exactly when it has no letter or digit. */
  lemma SlugEmptyIffNoAlnum(t: string)
    requires AllSlugChars(t) && NoDoubleDash(t) && NoEdgeDash(t)
    ensures t == [] <==> Alnums(t) == []
  {
    if t != [] {
      if IsAlnum(t[0]) {
        AlnumsCons(t[0], t[1..]);
        assert t == [t[0]] + t[1..];
      }
    }
  }

  // ---------------------------------------------------------------------
  // Properties of slugify

  /** The replacement chain leaves slug characters only, no double and no
      edge dash, and exactly the letters and digits of the transliterated
      name. */
  lemma {:induction false} SlugCoreShape(s: string)
    ensures AllSlugChars(SlugCore(s)) && NoDoubleDash(SlugCore(s)) && NoEdgeDash(SlugCore(s))
    ensures Alnums(SlugCore(s)) == Transliterate(s)
  {
    var k := KeepAllowed(FoldDiacritics(Lower(Trim(s))));
    var p := SpacesToDash(k);
    var q := SquashDashes(p);
    assert AllSlugChars(p);
    TrimDashesShape(q);
    TransliterateTrim(s);
  }

  lemma DefaultSlugIsSlug()
    ensures IsSlug(DefaultSlug)
  {
  }

  /** `slugify` of a non-empty string is a slug. */
  lemma {:induction false} SlugifyStringIsSlug(s: string)
    requires s != []
    ensures IsSlug(Slugify(Str(s)))
  {
    SlugCoreShape(s);
    DefaultSlugIsSlug();
  }

  /** `slugify` yields the empty string exactly for a non-string or empty
      input, and otherwise a slug: `[a-z0-9-]` only, no `--`, no dash at
      either end. */
  lemma {:induction false} SlugifyShape(name: JsValue)
    ensures Slugify(name) == [] <==> !name.Str? || name.s == []
    ensures Slugify(name) != [] ==> IsSlug(Slugify(name))
  {
    if name.Str? && name.s != [] {
      SlugifyStringIsSlug(name.s);
      assert name == Str(name.s);
    }
  }

  /** The slug spells the name's letters and digits, after lower-casing and
      folding Polish diacritics, in order; `kosciol` stands in exactly when
      the name has none. */
  lemma {:induction false} SlugifyContent(s: string)
    requires s != []
    ensures Transliterate(s) == [] ==> Slugify(Str(s)) == DefaultSlug
    ensures Transliterate(s) != [] ==> Alnums(Slugify(Str(s))) == Transliterate(s)
  {
    var core := SlugCore(s);
    SlugCoreShape(s);
    SlugEmptyIffNoAlnum(core);
    assert Slugify(Str(s)) == if core == [] then DefaultSlug else core;
  }

  /** The letters of the source's diacritic table, small and capital. */
  predicate IsPolishLetter(c: char) {
    || c == 'ą' || c == 'ć' || c == 'ę' || c == 'ł' || c == 'ń' || c == 'ó' || c == 'ś' || c == 'ź' || c == 'ż'
    || c == 'Ą' || c == 'Ć' || c == 'Ę' || c == 'Ł' || c == 'Ń' || c == 'Ó' || c == 'Ś' || c == 'Ź' || c == 'Ż'
  }

  /** Each Polish letter, small or capital, comes through lower-casing and
      the diacritic table as its ASCII base letter, which the filter keeps. */
  lemma {:induction false} PolishLettersFold(c: char)
    requires IsPolishLetter(c)
    ensures IsAlnum(FoldChar(c)) && Transliterate([c]) == [FoldChar(c)]
  {
    var l := LowerChar(c);
    assert |l| == 1 && FoldChar(l[0]) == FoldChar(c);
    assert Lower([c]) == l + Lower([]);
    assert FoldDiacritics(l) == [FoldChar(c)];
    AlnumsCons(FoldChar(c), []);
  }

  /** No ASCII capital survives lower-casing. */
  lemma {:induction false} LowerHasNoCapitals(s: string)
    ensures forall i :: 0 <= i < |Lower(s)| ==> !('A' <= Lower(s)[i] <= 'Z')
    decreases |s|
  {
    if s != [] {
      LowerHasNoCapitals(s[1..]);
      var l, rest := LowerChar(s[0]), Lower(s[1..]);
      assert forall i :: 0 <= i < |l| ==> !('A' <= l[i] <= 'Z');
      assert Lower(s) == l + rest;
      forall i | 0 <= i < |l + rest|
        ensures !('A' <= (l + rest)[i] <= 'Z')
      {
        if i >= |l| {
          assert (l + rest)[i] == rest[i - |l|];
        }
      }
    }
  }

  /** No letter of the diacritic table survives it. */
  lemma {:induction false} FoldLeavesNoPolish(s: string)
    ensures forall i :: 0 <= i < |FoldDiacritics(s)| ==> !IsPolishLetter(FoldDiacritics(s)[i])
    decreases |s|
  {
    if s != [] {
      FoldLeavesNoPolish(s[1..]);
      var rest := FoldDiacritics(s[1..]);
      assert FoldDiacritics(s) == [FoldChar(s[0])] + rest;
      assert !IsPolishLetter(FoldChar(s[0]));
      forall i | 0 <= i < |FoldDiacritics(s)|
        ensures !IsPolishLetter(FoldDiacritics(s)[i])
      {
        if i > 0 {
          assert FoldDiacritics(s)[i] == rest[i - 1];
        }
      }
    }
  }

  // ---------------------------------------------------------------------
  // Where the dashes go

  predicate NoSpace(s: string) {
    forall i :: 0 <= i < |s| ==> !IsJsSpace(s[i])
  }

  predicate AllSpace(s: string) {
    forall i :: 0 <= i < |s| ==> IsJsSpace(s[i])
  }

  predicate NoDash(s: string) {
    forall i :: 0 <= i < |s| ==> s[i] != '-'
  }

  predicate AllDash(s: string) {
    forall i :: 0 <= i < |s| ==> s[i] == '-'
  }

  lemma Regroup(x: string, y: string, z: string)
    ensures x + y + z == x + (y + z)
  {
  }

  lemma DropHead(x: string, y: string)
    requires x != []
    ensures (x + y)[0] == x[0] && (x + y)[1..] == x[1..] + y
  {
  }

  /** The filter keeps exactly the allowed characters, each in place:
      white space and dashes included. */
  lemma {:induction false} KeepAllowedFilter(a: string, c: char, b: string)
    ensures KeepAllowed(a + [c] + b) == KeepAllowed(a) + (if IsKept(c) then [c] else []) + KeepAllowed(b)
    decreases |a|
  {
    if a == [] {
      assert a + [c] + b == [c] + b && ([c] + b)[1..] == b;
    } else {
      KeepAllowedFilter(a[1..], c, b);
      assert (a + [c] + b)[0] == a[0] && (a + [c] + b)[1..] == a[1..] + [c] + b;
    }
  }

  /** Text without white space passes the white-space stage unchanged. */
  lemma {:induction false} SpacesToDashNoSpace(t: string)
    requires NoSpace(t)
    ensures SpacesToDash(t) == t
    decreases |t|
  {
    if t != [] {
      SpacesToDashNoSpace(t[1..]);
    }
  }

  lemma {:induction false} DropSpacesRun(w: string, b: string)
    requires AllSpace(w)
    requires b == [] || !IsJsSpace(b[0])
    ensures DropSpaces(w + b) == b
    decreases |w|
  {
    if w == [] {
      assert w + b == b;
    } else {
      assert (w + b)[1..] == w[1..] + b;
      DropSpacesRun(w[1..], b);
    }
  }

  lemma {:induction false} DropSpacesAppend(x: string, y: string)
    requires x != [] && !IsJsSpace(x[|x| - 1])
    ensures DropSpaces(x) != [] && DropSpaces(x + y) == DropSpaces(x) + y
    decreases |x|
  {
    if IsJsSpace(x[0]) {
      assert (x + y)[1..] == x[1..] + y;
      DropSpacesAppend(x[1..], y);
    }
  }

  /** The white-space stage turns each maximal run of white space into
      exactly one dash and leaves the text on either side of the run as it
      would leave it alone. */
  lemma {:induction false} SpaceRunToDash(a: string, w: string, b: string)
    requires a == [] || !IsJsSpace(a[|a| - 1])
    requires w != [] && AllSpace(w)
    requires b == [] || !IsJsSpace(b[0])
    ensures SpacesToDash(a + w + b) == SpacesToDash(a) + "-" + SpacesToDash(b)
    decreases |a|, 1
  {
    if a == [] {
      SpaceRunAtStart(a, w, b);
    } else if !IsJsSpace(a[0]) {
      SpaceRunAfterKept(a, w, b);
    } else {
      SpaceRunAfterSpace(a, w, b);
    }
  }

  lemma {:induction false} SpaceRunAtStart(a: string, w: string, b: string)
    requires a == []
    requires w != [] && AllSpace(w)
    requires b == [] || !IsJsSpace(b[0])
    ensures SpacesToDash(a + w + b) == SpacesToDash(a) + "-" + SpacesToDash(b)
  {
    var s := w + b;
    assert a + w + b == s && s[1..] == w[1..] + b;
    DropSpacesRun(w[1..], b);
    assert SpacesToDash(s) == "-" + SpacesToDash(b);
    assert SpacesToDash(a) + "-" + SpacesToDash(b) == "-" + SpacesToDash(b);
  }

  lemma {:induction false} SpaceRunAfterKept(a: string, w: string, b: string)
    requires a != [] && !IsJsSpace(a[0]) && !IsJsSpace(a[|a| - 1])
    requires w != [] && AllSpace(w)
    requires b == [] || !IsJsSpace(b[0])
    ensures SpacesToDash(a + w + b) == SpacesToDash(a) + "-" + SpacesToDash(b)
    decreases |a|, 0
  {
    Regroup(a, w, b);
    DropHead(a, w + b);
    Regroup(a[1..], w, b);
    SpaceRunToDash(a[1..], w, b);
    var u, t := SpacesToDash(a[1..]), SpacesToDash(b);
    assert SpacesToDash(a + w + b) == [a[0]] + (u + "-" + t);
    assert SpacesToDash(a) == [a[0]] + u;
    Regroup([a[0]], u, "-" + t);
    Regroup(u, "-", t);
    Regroup([a[0]] + u, "-", t);
  }

  lemma {:induction false} SpaceRunAfterSpace(a: string, w: string, b: string)
    requires a != [] && IsJsSpace(a[0]) && !IsJsSpace(a[|a| - 1])
    requires w != [] && AllSpace(w)
    requires b == [] || !IsJsSpace(b[0])
    ensures SpacesToDash(a + w + b) == SpacesToDash(a) + "-" + SpacesToDash(b)
    decreases |a|, 0
  {
    var rest := a[1..];
    assert rest != [] && rest[|rest| - 1] == a[|a| - 1];
    var a' := DropSpaces(rest);
    DropSpacesAppend(rest, w + b);
    assert a'[|a'| - 1] == rest[|rest| - 1];
    Regroup(a, w, b);
    DropHead(a, w + b);
    Regroup(a', w, b);
    SpaceRunToDash(a', w, b);
    var u, t := SpacesToDash(a'), SpacesToDash(b);
    assert SpacesToDash(a + w + b) == "-" + (u + "-" + t);
    assert SpacesToDash(a) == "-" + u;
    Regroup("-", u, "-" + t);
    Regroup(u, "-", t);
    Regroup("-" + u, "-", t);
  }

  /** Text without dashes passes the dash stage unchanged. */
  lemma {:induction false} SquashDashesNoDash(t: string)
    requires NoDash(t)
    ensures SquashDashes(t) == t
    decreases |t|
  {
    if t != [] {
      SquashDashesNoDash(t[1..]);
    }
  }

  lemma {:induction false} DropDashesRun(d: string, b: string)
    requires AllDash(d)
    requires b == [] || b[0] != '-'
    ensures DropDashes(d + b) == b
    decreases |d|
  {
    if d == [] {
      assert d + b == b;
    } else {
      assert (d + b)[1..] == d[1..] + b;
      DropDashesRun(d[1..], b);
    }
  }

  lemma {:induction false} DropDashesAppend(x: string, y: string)
    requires x != [] && x[|x| - 1] != '-'
    ensures DropDashes(x) != [] && DropDashes(x + y) == DropDashes(x) + y
    decreases |x|
  {
    if x[0] == '-' {
      assert (x + y)[1..] == x[1..] + y;
      DropDashesAppend(x[1..], y);
    }
  }

  /** The dash stage turns each maximal run of dashes into
      exactly one dash and leaves the text on either side of the run as it
      would leave it alone. */
  lemma {:induction false} DashRunToDash(a: string, d: string, b: string)
    requires a == [] || a[|a| - 1] != '-'
    requires d != [] && AllDash(d)
    requires b == [] || b[0] != '-'
    ensures SquashDashes(a + d + b) == SquashDashes(a) + "-" + SquashDashes(b)
    decreases |a|, 1
  {
    if a == [] {
      DashRunAtStart(a, d, b);
    } else if a[0] != '-' {
      DashRunAfterKept(a, d, b);
    } else {
      DashRunAfterDash(a, d, b);
    }
  }

  lemma {:induction false} DashRunAtStart(a: string, d: string, b: string)
    requires a == []
    requires d != [] && AllDash(d)
    requires b == [] || b[0] != '-'
    ensures SquashDashes(a + d + b) == SquashDashes(a) + "-" + SquashDashes(b)
  {
    var s := d + b;
    assert a + d + b == s && s[1..] == d[1..] + b;
    DropDashesRun(d[1..], b);
    assert SquashDashes(s) == "-" + SquashDashes(b);
    assert SquashDashes(a) + "-" + SquashDashes(b) == "-" + SquashDashes(b);
  }

  lemma {:induction false} DashRunAfterKept(a: string, d: string, b: string)
    requires a != [] && a[0] != '-' && a[|a| - 1] != '-'
    requires d != [] && AllDash(d)
    requires b == [] || b[0] != '-'
    ensures SquashDashes(a + d + b) == SquashDashes(a) + "-" + SquashDashes(b)
    decreases |a|, 0
  {
    Regroup(a, d, b);
    DropHead(a, d + b);
    Regroup(a[1..], d, b);
    DashRunToDash(a[1..], d, b);
    var u, t := SquashDashes(a[1..]), SquashDashes(b);
    assert SquashDashes(a + d + b) == [a[0]] + (u + "-" + t);
    assert SquashDashes(a) == [a[0]] + u;
    Regroup([a[0]], u, "-" + t);
    Regroup(u, "-", t);
    Regroup([a[0]] + u, "-", t);
  }

  lemma {:induction false} DashRunAfterDash(a: string, d: string, b: string)
    requires a != [] && a[0] == '-' && a[|a| - 1] != '-'
    requires d != [] && AllDash(d)
    requires b == [] || b[0] != '-'
    ensures SquashDashes(a + d + b) == SquashDashes(a) + "-" + SquashDashes(b)
    decreases |a|, 0
  {
    var rest := a[1..];
    assert rest != [] && rest[|rest| - 1] == a[|a| - 1];
    var a' := DropDashes(rest);
    DropDashesAppend(rest, d + b);
    assert a'[|a'| - 1] == rest[|rest| - 1];
    Regroup(a, d, b);
    DropHead(a, d + b);
    Regroup(a', d, b);
    DashRunToDash(a', d, b);
    var u, t := SquashDashes(a'), SquashDashes(b);
    assert SquashDashes(a + d + b) == "-" + (u + "-" + t);
    assert SquashDashes(a) == "-" + u;
    Regroup("-", u, "-" + t);
    Regroup(u, "-", t);
    Regroup("-" + u, "-", t);
  }


  lemma KeptChar(c: char)
    requires IsKept(c)
    ensures LowerChar(c) == [c] && FoldChar(c) == c
  {
    if IsJsSpace(c) {
      SpaceChar(c);
    }
  }

  /** Text made only of characters the filter keeps comes through
      lower-casing, the diacritic table and the filter unchanged. */
  lemma {:induction false} KeptLower(t: string)
    requires forall i :: 0 <= i < |t| ==> IsKept(t[i])
    ensures Lower(t) == t
    decreases |t|
  {
    if t != [] {
      KeptLower(t[1..]);
      KeptChar(t[0]);
    }
  }

  lemma {:induction false} KeptFold(t: string)
    requires forall i :: 0 <= i < |t| ==> IsKept(t[i])
    ensures FoldDiacritics(t) == t
    decreases |t|
  {
    if t != [] {
      KeptFold(t[1..]);
      KeptChar(t[0]);
    }
  }

  lemma {:induction false} KeptKeep(t: string)
    requires forall i :: 0 <= i < |t| ==> IsKept(t[i])
    ensures KeepAllowed(t) == t
    decreases |t|
  {
    if t != [] {
      KeptKeep(t[1..]);
    }
  }

  /** Two slugs separated by a run of white space come out of `slugify`
      joined by exactly one dash: the run becomes that dash, and nothing
      else in either slug changes. */
  lemma {:induction false} SlugifyJoinsWords(u: string, w: string, v: string)
    requires IsSlug(u) && IsSlug(v)
    requires w != [] && AllSpace(w)
    ensures Slugify(Str(u + w + v)) == u + "-" + v
  {
    SlugCoreJoinsWords(u, w, v);
  }

  lemma {:induction false} SlugCoreJoinsWords(u: string, w: string, v: string)
    requires IsSlug(u) && IsSlug(v)
    requires w != [] && AllSpace(w)
    ensures SlugCore(u + w + v) == u + "-" + v
  {
    FilterJoin(u, w, v);
    SpacesJoin(u, w, v);
    DashesJoin(u, v);
    EdgesJoin(u, v);
  }

  lemma {:induction false} FilterJoin(u: string, w: string, v: string)
    requires IsSlug(u) && IsSlug(v)
    requires w != [] && AllSpace(w)
    ensures KeepAllowed(FoldDiacritics(Lower(Trim(u + w + v)))) == u + w + v
  {
    var s := u + w + v;
    KeptJoin(u, w, v);
    TrimIdentity(s);
    KeptLower(s);
    KeptFold(s);
    KeptKeep(s);
  }

  lemma EdgesJoin(u: string, v: string)
    requires IsSlug(u) && IsSlug(v)
    ensures TrimDashes(u + "-" + v) == u + "-" + v
  {
    var r := u + "-" + v;
    assert r[0] == u[0] && r[|r| - 1] == v[|v| - 1];
  }

  lemma {:induction false} SpacesJoin(u: string, w: string, v: string)
    requires IsSlug(u) && IsSlug(v)
    requires w != [] && AllSpace(w)
    ensures SpacesToDash(u + w + v) == u + "-" + v
  {
    SpaceRunToDash(u, w, v);
    SpacesSlug(u);
    SpacesSlug(v);
  }

  lemma {:induction false} DashesJoin(u: string, v: string)
    requires IsSlug(u) && IsSlug(v)
    ensures SquashDashes(u + "-" + v) == u + "-" + v
  {
    DashRunToDash(u, "-", v);
    SquashSlug(u);
    SquashSlug(v);
  }

  lemma KeptJoin(u: string, w: string, v: string)
    requires IsSlug(u) && IsSlug(v) && AllSpace(w)
    ensures (u + w + v)[0] == u[0] && (u + w + v)[|u + w + v| - 1] == v[|v| - 1]
    ensures forall i :: 0 <= i < |u + w + v| ==> IsKept((u + w + v)[i])
  {
    var s := u + w + v;
    forall i | 0 <= i < |s|
      ensures IsKept(s[i])
    {
      if i < |u| {
        assert s[i] == u[i];
      } else if i < |u| + |w| {
        assert s[i] == w[i - |u|];
      } else {
        assert s[i] == v[i - |u| - |w|];
      }
    }
  }

  // ---------------------------------------------------------------------
  // Idempotence: a slug is its own slug

  lemma LowerSlug(t: string)
    requires AllSlugChars(t)
    ensures Lower(t) == t
  {
    if t != [] {
      LowerSlug(t[1..]);
    }
  }

  lemma FoldSlug(t: string)
    requires AllSlugChars(t)
    ensures FoldDiacritics(t) == t
  {
    if t != [] {
      FoldSlug(t[1..]);
    }
  }

  lemma KeepSlug(t: string)
    requires AllSlugChars(t)
    ensures KeepAllowed(t) == t
  {
    if t != [] {
      KeepSlug(t[1..]);
    }
  }

  lemma SpacesSlug(t: string)
    requires AllSlugChars(t)
    ensures SpacesToDash(t) == t
  {
    if t != [] {
      SpacesSlug(t[1..]);
    }
  }

  lemma {:induction false} SquashSlug(t: string)
    requires AllSlugChars(t) && NoDoubleDash(t)
    ensures SquashDashes(t) == t
  {
    if t != [] {
      if t[0] == '-' {
        assert t[1..] != [] ==> t[1..][0] != '-';
        assert DropDashes(t[1..]) == t[1..];
      }
      SquashSlug(t[1..]);
    }
  }

  lemma {:induction false} TrimSlug(t: string)
    requires IsSlug(t)
    ensures Trim(t) == t
  {
    assert !IsJsSpace(t[0]) && !IsJsSpace(t[|t| - 1]);
    TrimIdentity(t);
  }

  lemma {:induction false} SlugCoreFixesSlugs(t: string)
    requires IsSlug(t)
    ensures SlugCore(t) == t
  {
    TrimSlug(t);
    LowerSlug(t);
    FoldSlug(t);
    KeepSlug(t);
    SpacesSlug(t);
    SquashSlug(t);
  }

  /** A slug passes through `slugify` unchanged. */
  lemma {:induction false} SlugifyFixesSlugs(t: string)
    requires IsSlug(t)
    ensures Slugify(Str(t)) == t
  {
    SlugCoreFixesSlugs(t);
  }

  /** `slugify` is idempotent on its own non-empty outputs. */
  lemma {:induction false} SlugifyIdempotent(name: JsValue)
    requires Slugify(name) != []
    ensures Slugify(Str(Slugify(name))) == Slugify(name)
  {
    SlugifyShape(name);
    SlugifyFixesSlugs(Slugify(name));
  }
}
