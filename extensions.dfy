/**
 * The language-name to file-extension table and its first-match lookup
 * (`EXTENSIONS` and `get_file_extension` in atcoder_eco_manager.py).
 *
 * Each table key is a regular expression searched case-insensitively in the
 * language name. Every key of the table is either a literal, an alternation of
 * literals, or (for C++) a literal preceded by a word boundary `\b`; this module
 * models exactly those shapes and not regular expressions in general.
 */
module Extensions {
  import opened Wrappers

  /** A table key: `alternatives` joined by `|`, optionally preceded by `\b`. */
  datatype Pattern = Pattern(alternatives: seq<string>, wordBoundary: bool)

  datatype Entry = Entry(pattern: Pattern, ext: string)

  function Lit(s: string): Pattern { Pattern([s], false) }

  /**
   * The table in the dict literal's order. The literal lists "Perl" twice; a
   * repeated key keeps its first position (and both map to "pl"), so it appears
   * once, at its first position.
   */
  const Table: seq<Entry> := [
    Entry(Pattern(["C++"], true), "cpp"),
    Entry(Lit("Bash"), "sh"),
    Entry(Lit("C#"), "cs"),
    Entry(Lit("JavaScript"), "js"),
    Entry(Lit("OpenJDK"), "java"),
    Entry(Lit("Haskell"), "hs"),
    Entry(Lit("OCaml"), "ml"),
    Entry(Lit("Perl"), "pl"),
    Entry(Lit("PHP"), "php"),
    Entry(Pattern(["Python", "Cpython", "PyPy"], false), "py"),
    Entry(Lit("Pascal"), "pas"),
    Entry(Lit("Ruby"), "rb"),
    Entry(Lit("Scala"), "scala"),
    Entry(Lit("Visual Basic"), "vb"),
    Entry(Lit("Objective-C"), "m"),
    Entry(Lit("Swift"), "swift"),
    Entry(Lit("Rust"), "rs"),
    Entry(Lit("Sed"), "sed"),
    Entry(Lit("Awk"), "awk"),
    Entry(Lit("Brainfuck"), "bf"),
    Entry(Lit("Standard ML"), "ml"),
    Entry(Lit("Crystal"), "cr"),
    Entry(Lit("Julia"), "jl"),
    Entry(Lit("Octave"), "m"),
    Entry(Lit("Nim"), "nim"),
    Entry(Lit("TypeScript"), "ts"),
    Entry(Lit("Perl6"), "p6"),
    Entry(Lit("Kotlin"), "kt"),
    Entry(Lit("COBOL"), "cob"),
    Entry(Lit("C"), ".c")
  ]

  /** ASCII case folding. */
  function Fold(c: char): char
  {
    if 'A' <= c <= 'Z' then (c as int + 32) as char else c
  }

  /** `\w`: ASCII letters, digits and the underscore. */
  predicate IsWordChar(c: char)
  {
    'a' <= c <= 'z' || 'A' <= c <= 'Z' || '0' <= c <= '9' || c == '_'
  }

  /** `pat` occurs in `text` at position `i`, ignoring case. */
  ghost predicate OccursAt(text: string, pat: string, i: nat)
  {
    i + |pat| <= |text| && forall k :: 0 <= k < |pat| ==> Fold(text[i + k]) == Fold(pat[k])
  }

  /** `\b` at position `i`: exactly one of the neighbouring characters is a word character. */
  predicate BoundaryAt(text: string, i: nat)
    requires i <= |text|
  {
    (i > 0 && IsWordChar(text[i - 1])) != (i < |text| && IsWordChar(text[i]))
  }

  /** The pattern matches starting at position `i`: one of its alternatives occurs there. */
  ghost predicate MatchesAt(p: Pattern, text: string, i: nat)
    requires i <= |text|
  {
    (!p.wordBoundary || BoundaryAt(text, i)) && exists a :: a in p.alternatives && OccursAt(text, a, i)
  }

  /** `re.search(pattern, text, re.IGNORECASE)` finds a match. */
  ghost predicate Matches(p: Pattern, text: string)
  {
    exists i :: 0 <= i <= |text| && MatchesAt(p, text, i)
  }

  /** The first entry of the table whose pattern matches is the one at index `i`. */
  ghost predicate IsFirstMatch(language: string, i: int)
  {
    0 <= i < |Table| && Matches(Table[i].pattern, language) &&
    forall j :: 0 <= j < i ==> !Matches(Table[j].pattern, language)
  }

  // The search itself, character by character. Each recursion counts a
  // natural number down, so the verifier can evaluate it on literal strings.

  /** The first `k` characters of `pat` agree with `text` from position `i` on, ignoring case. */
  function SamePrefix(text: string, pat: string, i: nat, k: nat): bool
    requires k <= |pat| && i + k <= |text|
  {
    k == 0 || (Fold(text[i + k - 1]) == Fold(pat[k - 1]) && SamePrefix(text, pat, i, k - 1))
  }

  function Compare(text: string, pat: string, i: nat): bool
  {
    i + |pat| <= |text| && SamePrefix(text, pat, i, |pat|)
  }

  /** One of the last `n` alternatives occurs at position `i`. */
  function AnyAt(alts: seq<string>, text: string, i: nat, n: nat): bool
    requires n <= |alts|
  {
    n > 0 && (Compare(text, alts[|alts| - n], i) || AnyAt(alts, text, i, n - 1))
  }

  /** The pattern matches at one of the last `n + 1` start positions. */
  function SearchFrom(p: Pattern, text: string, n: nat): bool
    requires n <= |text|
  {
    var i := |text| - n;
    if (!p.wordBoundary || BoundaryAt(text, i)) && AnyAt(p.alternatives, text, i, |p.alternatives|) then true
    else if n == 0 then false
    else SearchFrom(p, text, n - 1)
  }

  function Search(p: Pattern, text: string): bool
  {
    SearchFrom(p, text, |text|)
  }

  /** The extension of the first entry from index `i` on whose pattern matches. */
  function ExtensionFrom(table: seq<Entry>, language: string, i: nat): (r: Option<string>)
    requires i <= |table|
    ensures r.None? <==> forall j :: i <= j < |table| ==> !Search(table[j].pattern, language)
    ensures r.Some? ==> exists j :: i <= j < |table| && Search(table[j].pattern, language) && r.value == table[j].ext
    decreases |table| - i
  {
    if i == |table| then None
    else if Search(table[i].pattern, language) then Some(table[i].ext)
    else ExtensionFrom(table, language, i + 1)
  }

  /** `get_file_extension`: the extension of the first matching entry, or None. */
  function GetFileExtension(language: string): (r: Option<string>)
    ensures r.None? <==> forall j :: 0 <= j < |Table| ==> !Search(Table[j].pattern, language)
    ensures r.Some? ==> exists j :: 0 <= j < |Table| && Search(Table[j].pattern, language) && r.value == Table[j].ext
  {
    ExtensionFrom(Table, language, 0)
  }

  lemma {:induction false} SamePrefixDecides(text: string, pat: string, i: nat, k: nat)
    requires k <= |pat| && i + k <= |text|
    ensures SamePrefix(text, pat, i, k) <==> forall m :: 0 <= m < k ==> Fold(text[i + m]) == Fold(pat[m])
  {
    if k > 0 {
      SamePrefixDecides(text, pat, i, k - 1);
    }
  }

  lemma CompareDecides(text: string, pat: string, i: nat)
    ensures Compare(text, pat, i) <==> OccursAt(text, pat, i)
  {
    if i + |pat| <= |text| {
      SamePrefixDecides(text, pat, i, |pat|);
    }
  }

  lemma {:induction false} AnyAtDecides(alts: seq<string>, text: string, i: nat, n: nat)
    requires n <= |alts|
    ensures AnyAt(alts, text, i, n) <==> exists a :: a in alts[|alts| - n..] && OccursAt(text, a, i)
  {
    if n > 0 {
      CompareDecides(text, alts[|alts| - n], i);
      AnyAtDecides(alts, text, i, n - 1);
      assert alts[|alts| - n..] == [alts[|alts| - n]] + alts[|alts| - (n - 1)..];
    }
  }

  lemma {:induction false} SearchFromDecides(p: Pattern, text: string, n: nat)
    requires n <= |text|
    ensures SearchFrom(p, text, n) <==> exists j :: |text| - n <= j <= |text| && MatchesAt(p, text, j)
  {
    var i := |text| - n;
    AnyAtDecides(p.alternatives, text, i, |p.alternatives|);
    assert p.alternatives[|p.alternatives| - |p.alternatives|..] == p.alternatives;
    assert SearchFrom(p, text, n) ==> MatchesAt(p, text, i) || (n > 0 && SearchFrom(p, text, n - 1));
    if n > 0 {
      SearchFromDecides(p, text, n - 1);
      if exists j :: i <= j <= |text| && MatchesAt(p, text, j) {
        var j :| i <= j <= |text| && MatchesAt(p, text, j);
        if j > i { assert |text| - (n - 1) <= j <= |text|; }
      }
    }
  }

  /** The character scan agrees with the regular-expression search it implements. */
  lemma SearchDecides(p: Pattern, text: string)
    ensures Search(p, text) <==> Matches(p, text)
  {
    SearchFromDecides(p, text, |text|);
  }

  lemma {:induction false} ExtensionFromSpec(table: seq<Entry>, language: string, i: nat)
    requires i <= |table|
    ensures ExtensionFrom(table, language, i).None? ==>
      forall j :: i <= j < |table| ==> !Matches(table[j].pattern, language)
    ensures ExtensionFrom(table, language, i).Some? ==>
      exists r :: i <= r < |table| && ExtensionFrom(table, language, i) == Some(table[r].ext) &&
        Matches(table[r].pattern, language) && forall j :: i <= j < r ==> !Matches(table[j].pattern, language)
    decreases |table| - i
  {
    if i < |table| {
      SearchDecides(table[i].pattern, language);
      ExtensionFromSpec(table, language, i + 1);
      if !Search(table[i].pattern, language) && ExtensionFrom(table, language, i + 1).Some? {
        var r :| i + 1 <= r < |table| && ExtensionFrom(table, language, i + 1) == Some(table[r].ext) &&
          Matches(table[r].pattern, language) && forall j :: i + 1 <= j < r ==> !Matches(table[j].pattern, language);
        assert i <= r < |table|;
      }
    }
  }

  /**
   * The lookup returns the extension of the first matching entry, and None
   * exactly when no entry matches.
   */
  lemma GetFileExtensionSpec(language: string)
    ensures GetFileExtension(language).None? <==> forall j :: 0 <= j < |Table| ==> !Matches(Table[j].pattern, language)
    ensures forall i :: IsFirstMatch(language, i) ==> GetFileExtension(language) == Some(Table[i].ext)
    ensures GetFileExtension(language).Some? ==>
      exists i :: IsFirstMatch(language, i) && GetFileExtension(language).value == Table[i].ext
  {
    ExtensionFromSpec(Table, language, 0);
    if GetFileExtension(language).Some? {
      var r :| 0 <= r < |Table| && GetFileExtension(language) == Some(Table[r].ext) &&
        Matches(Table[r].pattern, language) && forall j :: 0 <= j < r ==> !Matches(Table[j].pattern, language);
      assert IsFirstMatch(language, r);
      forall i | IsFirstMatch(language, i) ensures i == r {
      }
    }
  }

  /**
   * The 31 lines of the dict literal give 30 entries: the repeated key "Perl"
   * appears once, at its first position, and the last key, `C`, maps to ".c".
   */
  lemma TableShape()
    ensures |Table| == 30
    ensures Table[7] == Entry(Lit("Perl"), "pl")
    ensures forall i :: 0 <= i < |Table| && Table[i].pattern == Lit("Perl") ==> i == 7
    ensures Table[29] == Entry(Lit("C"), ".c")
  {
  }

  /** Every extension in the table is a plain name: no path separator, and none is "md". */
  lemma TableExtensionsPlain()
    ensures forall i :: 0 <= i < |Table| ==> Table[i].ext != "md" && '/' !in Table[i].ext
  {
  }
}
