/** Column-name canonicalisation and the month-name lookup of the loader
    (index.py, lines 12-18 and 26-32). Lower-casing is restricted to ASCII letters;
    stripping removes every character Python's `str.strip()` removes. */
module Columns {
  import opened Wrappers

  /** The characters Python's `str.isspace()` accepts: tab through carriage return, the
      separator controls 0x1C-0x1F, space, NEL, no-break space, Ogham space mark, the
      spaces U+2000-U+200A, the line and paragraph separators, the narrow no-break and
      medium mathematical spaces, and the ideographic space. */
  predicate IsSpace(c: char) {
    var n := c as int;
    || 9 <= n <= 13 || 28 <= n <= 32 || n == 0x85 || n == 0xA0 || n == 0x1680
    || 0x2000 <= n <= 0x200A || n == 0x2028 || n == 0x2029 || n == 0x202F
    || n == 0x205F || n == 0x3000
  }

  /** Every character of `s` from position `lo` up to (not including) `hi` is whitespace. */
  ghost predicate SpacesIn(s: string, lo: int, hi: int) {
    forall k :: lo <= k < hi && 0 <= k < |s| ==> IsSpace(s[k])
  }

  /** Neither starts nor ends with whitespace. */
  ghost predicate IsStripped(s: string) {
    |s| == 0 || (!IsSpace(s[0]) && !IsSpace(s[|s| - 1]))
  }

  predicate IsUpper(c: char) {
    'A' <= c <= 'Z'
  }

  ghost predicate NoUpper(s: string) {
    forall i :: 0 <= i < |s| ==> !IsUpper(s[i])
  }

  function LowerChar(c: char): (r: char)
    ensures !IsUpper(r)
    ensures IsUpper(c) ==> r as int == c as int + 32
    ensures !IsUpper(c) ==> r == c
    ensures IsSpace(r) <==> IsSpace(c)
  {
    if IsUpper(c) then (c as int + 32) as char else c
  }

  /** `str.lower()` on the ASCII letters. */
  function Lower(s: string): (r: string)
    ensures |r| == |s|
    ensures forall i :: 0 <= i < |s| ==> r[i] == LowerChar(s[i])
    ensures NoUpper(r)
  {
    if |s| == 0 then [] else [LowerChar(s[0])] + Lower(s[1..])
  }

  /** The first position at or after `i` that does not hold whitespace (or |s|). */
  function SkipSpaces(s: string, i: nat): (a: nat)
    requires i <= |s|
    ensures i <= a <= |s| && SpacesIn(s, i, a)
    ensures a == |s| || !IsSpace(s[a])
    decreases |s| - i
  {
    if i < |s| && IsSpace(s[i]) then SkipSpaces(s, i + 1) else i
  }

  /** The end of `s[lo..hi]` once its trailing whitespace is cut off. */
  function BackSpaces(s: string, lo: nat, hi: nat): (b: nat)
    requires lo <= hi <= |s|
    ensures lo <= b <= hi && SpacesIn(s, b, hi)
    ensures b == lo || !IsSpace(s[b - 1])
    decreases hi - lo
  {
    if lo < hi && IsSpace(s[hi - 1]) then BackSpaces(s, lo, hi - 1) else hi
  }

  /** `str.strip()`: the infix of `s` that neither starts nor ends with whitespace
      and has only whitespace before and after it. */
  function Strip(s: string): (r: string)
    ensures IsStripped(r)
    ensures var a := SkipSpaces(s, 0);
      && a + |r| <= |s|
      && r == s[a..a + |r|]
      && SpacesIn(s, 0, a)
      && SpacesIn(s, a + |r|, |s|)
  {
    var a := SkipSpaces(s, 0);
    var b := BackSpaces(s, a, |s|);
    s[a..b]
  }

  /** The fixed synonym map applied after normalisation (index.py, lines 13-17). */
  const Synonyms: map<string, string> := map[
    "mês_nome" := "mes_nome",
    "escola_publica" := "publica",
    "escola_particular" := "particular"
  ]

  function Rename(name: string): (r: string)
    ensures r !in Synonyms
    ensures name !in Synonyms ==> r == name
  {
    if name in Synonyms then Synonyms[name] else name
  }

  /** The name under which a source column is known downstream. */
  function Canonical(name: string): (r: string)
    ensures IsStripped(r) && NoUpper(r)
    ensures r !in Synonyms
    ensures Lower(Strip(name)) !in Synonyms ==> r == Lower(Strip(name))
  {
    var n := Lower(Strip(name));
    LowerKeepsStripped(Strip(name));
    Rename(n)
  }

  lemma LowerKeepsStripped(s: string)
    requires IsStripped(s)
    ensures IsStripped(Lower(s))
  {
  }

  lemma {:induction false} LowerOfLowercase(s: string)
    requires NoUpper(s)
    ensures Lower(s) == s
  {
  }

  lemma StripOfStripped(s: string)
    requires IsStripped(s)
    ensures Strip(s) == s
  {
    assert SkipSpaces(s, 0) == 0;
    assert BackSpaces(s, 0, |s|) == |s|;
  }

  lemma {:induction false} SkipSpacesOfLower(s: string, i: nat)
    requires i <= |s|
    ensures SkipSpaces(Lower(s), i) == SkipSpaces(s, i)
    decreases |s| - i
  {
    if i < |s| && IsSpace(s[i]) {
      SkipSpacesOfLower(s, i + 1);
    }
  }

  lemma {:induction false} BackSpacesOfLower(s: string, lo: nat, hi: nat)
    requires lo <= hi <= |s|
    ensures BackSpaces(Lower(s), lo, hi) == BackSpaces(s, lo, hi)
    decreases hi - lo
  {
    if lo < hi && IsSpace(s[hi - 1]) {
      BackSpacesOfLower(s, lo, hi - 1);
    }
  }

  /** Stripping and lower-casing can be done in either order. */
  lemma StripLowerCommute(s: string)
    ensures Strip(Lower(s)) == Lower(Strip(s))
  {
    SkipSpacesOfLower(s, 0);
    var a := SkipSpaces(s, 0);
    BackSpacesOfLower(s, a, |s|);
    var b := BackSpaces(s, a, |s|);
    assert Strip(Lower(s)) == Lower(s)[a..b];
    assert Strip(s) == s[a..b];
    LowerOfSlice(s, a, b);
  }

  lemma LowerOfSlice(s: string, a: nat, b: nat)
    requires a <= b <= |s|
    ensures Lower(s)[a..b] == Lower(s[a..b])
  {
  }

  /** Canonicalising a canonical name changes nothing. */
  lemma CanonicalIdempotent(name: string)
    ensures Canonical(Canonical(name)) == Canonical(name)
  {
    var c := Canonical(name);
    StripOfStripped(c);
    LowerOfLowercase(c);
  }

  /** Two column headers that differ only in the case of ASCII letters get the same
      canonical name. */
  lemma CanonicalIgnoresCase(a: string, b: string)
    requires Lower(a) == Lower(b)
    ensures Canonical(a) == Canonical(b)
  {
    StripLowerCommute(a);
    StripLowerCommute(b);
    StripOfStripped(Strip(Lower(a)));
    LowerOfLowercase(Lower(Strip(a)));
    LowerOfLowercase(Lower(Strip(b)));
    assert Lower(Strip(a)) == Strip(Lower(a)) == Strip(Lower(b)) == Lower(Strip(b));
  }

  /** The headers the loader recognises as each renamed column: after stripping and
      lower-casing, exactly the column's own name or its synonym. */
  lemma CanonicalPreimages(h: string)
    ensures Canonical(h) == "publica" <==> Lower(Strip(h)) in {"publica", "escola_publica"}
    ensures Canonical(h) == "particular" <==>
      Lower(Strip(h)) in {"particular", "escola_particular"}
    ensures Canonical(h) == "mes_nome" <==> Lower(Strip(h)) in {"mes_nome", "mês_nome"}
    ensures Canonical(h) !in {"publica", "particular", "mes_nome"} ==>
      Canonical(h) == Lower(Strip(h))
  {
    var n := Lower(Strip(h));
    assert Canonical(h) == Rename(n);
  }

  /** A padded, capitalised synonym reaches its canonical name. */
  lemma CanonicalOfPaddedSynonym()
    ensures Canonical(" Mês_Nome") == "mes_nome"
  {
    var s := " Mês_Nome";
    assert SkipSpaces(s, 1) == 1;
    assert SkipSpaces(s, 0) == 1;
    assert BackSpaces(s, 1, |s|) == |s|;
    assert Strip(s) == "Mês_Nome";
    LowerOfMesNome();
  }

  lemma LowerOfMesNome()
    ensures Lower("Mês_Nome") == "mês_nome"
  {
    var t := "Mês_Nome";
    var u := "mês_nome";
    var l := Lower(t);
    assert |l| == |u| == 8;
    assert l[0] == u[0] && l[1] == u[1] && l[2] == u[2] && l[3] == u[3];
    assert l[4] == u[4] && l[5] == u[5] && l[6] == u[6] && l[7] == u[7];
  }

  /** Month number to Portuguese month name (index.py, lines 26-30). */
  const Meses: map<int, string> := map[
    1 := "Janeiro", 2 := "Fevereiro", 3 := "Março", 4 := "Abril",
    5 := "Maio", 6 := "Junho", 7 := "Julho", 8 := "Agosto",
    9 := "Setembro", 10 := "Outubro", 11 := "Novembro", 12 := "Dezembro"
  ]

  /** `Series.map(meses)` on one value: NaN (None) for a number outside the map. */
  function MonthName(m: int): (r: Option<string>)
    ensures r.Some? <==> 1 <= m <= 12
    ensures m == 1 ==> r == Some("Janeiro")
  {
    if m in Meses then Some(Meses[m]) else None
  }

  /** Different months get different names. */
  lemma MonthNameInjective(a: int, b: int)
    requires MonthName(a).Some? && MonthName(a) == MonthName(b)
    ensures a == b
  {
  }
}
