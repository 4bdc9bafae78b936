/**
 * Worked examples of the extension lookup, argued on the specification side:
 * each entry before the answer is excluded by a character of its key that
 * the language name lacks in either case.
 */
module ExtensionExamples {
  import opened Wrappers
  import opened Extensions

  /**
   * A key made of one literal does not match when the folded characters of
   * the text from position `m` on all lie in `folded` and the literal's
   * `m`-th character, folded, does not.
   */
  lemma MissingCharacter(p: Pattern, text: string, m: nat, folded: set<char>)
    requires |p.alternatives| == 1 && m < |p.alternatives[0]|
    requires forall k :: m <= k < |text| ==> Fold(text[k]) in folded
    requires Fold(p.alternatives[0][m]) !in folded
    ensures !Matches(p, text)
  {
    var pat := p.alternatives[0];
    forall i | 0 <= i <= |text| ensures !MatchesAt(p, text, i) {
      forall a | a in p.alternatives ensures a == pat { }
    }
  }

  /** The first ten entries, as written in the table. */
  lemma TableHead()
    ensures Table[..10] == [
      Entry(Pattern(["C++"], true), "cpp"), Entry(Lit("Bash"), "sh"), Entry(Lit("C#"), "cs"),
      Entry(Lit("JavaScript"), "js"), Entry(Lit("OpenJDK"), "java"), Entry(Lit("Haskell"), "hs"),
      Entry(Lit("OCaml"), "ml"), Entry(Lit("Perl"), "pl"), Entry(Lit("PHP"), "php"),
      Entry(Pattern(["Python", "Cpython", "PyPy"], false), "py")]
  {
  }

  lemma ExampleCpp()
    ensures GetFileExtension("C++ (GCC 9.2.1)") == Some("cpp")
  {
    var t := "C++ (GCC 9.2.1)";
    assert OccursAt(t, "C++", 0);
    assert MatchesAt(Table[0].pattern, t, 0);
    assert IsFirstMatch(t, 0);
    GetFileExtensionSpec(t);
  }

  /** The nine keys before `Python|Cpython|PyPy` do not match "Python (3.8.2)". */
  lemma PythonMisses()
    ensures forall j :: 0 <= j < 9 ==> !Matches(Table[j].pattern, "Python (3.8.2)")
  {
    var t := "Python (3.8.2)";
    var folded := {'p', 'y', 't', 'h', 'o', 'n', ' ', '(', '3', '.', '8', '2', ')'};
    assert forall k :: 0 <= k < |t| ==> Fold(t[k]) in folded;
    MissingCharacter(Pattern(["C++"], true), t, 0, folded);
    MissingCharacter(Lit("Bash"), t, 0, folded);
    MissingCharacter(Lit("C#"), t, 0, folded);
    MissingCharacter(Lit("JavaScript"), t, 0, folded);
    MissingCharacter(Lit("OpenJDK"), t, 4, folded);
    MissingCharacter(Lit("Haskell"), t, 1, folded);
    MissingCharacter(Lit("OCaml"), t, 1, folded);
    MissingCharacter(Lit("Perl"), t, 1, folded);
    // "PHP" needs a second 'p' two places on, and the only 'p' is at 0
    assert forall k :: 2 <= k < |t| ==> Fold(t[k]) in folded - {'p'};
    MissingCharacter(Lit("PHP"), t, 2, folded - {'p'});
    TableHead();
    assert forall j :: 0 <= j < 10 ==> Table[j] == Table[..10][j];
  }

  /** "Python (3.8.2)" resolves through the alternation `Python|Cpython|PyPy`. */
  lemma ExamplePython()
    ensures GetFileExtension("Python (3.8.2)") == Some("py")
  {
    var t := "Python (3.8.2)";
    assert IsFirstMatch(t, 9) by {
      PythonMisses();
      assert MatchesAt(Table[9].pattern, t, 0) by {
        assert OccursAt(t, "Python", 0);
        TableHead();
        assert Table[9] == Table[..10][9];
      }
    }
    assert Table[9].ext == "py";
    GetFileExtensionSpec(t);
  }

  /** The seven keys before "Perl" do not match "Perl6". */
  lemma Perl6Misses()
    ensures forall j :: 0 <= j < 7 ==> !Matches(Table[j].pattern, "Perl6")
  {
    var t := "Perl6";
    var folded := {'p', 'e', 'r', 'l', '6'};
    assert forall k :: 0 <= k < |t| ==> Fold(t[k]) in folded;
    MissingCharacter(Pattern(["C++"], true), t, 0, folded);
    MissingCharacter(Lit("Bash"), t, 0, folded);
    MissingCharacter(Lit("C#"), t, 0, folded);
    MissingCharacter(Lit("JavaScript"), t, 0, folded);
    MissingCharacter(Lit("OpenJDK"), t, 0, folded);
    MissingCharacter(Lit("Haskell"), t, 0, folded);
    MissingCharacter(Lit("OCaml"), t, 0, folded);
    TableHead();
    assert forall j :: 0 <= j < 10 ==> Table[j] == Table[..10][j];
  }

  /** "Perl6" resolves to "pl": the earlier "Perl" entry shadows "Perl6". */
  lemma ExamplePerl6()
    ensures GetFileExtension("Perl6") == Some("pl")
  {
    var t := "Perl6";
    assert IsFirstMatch(t, 7) by {
      Perl6Misses();
      assert MatchesAt(Table[7].pattern, t, 0) by {
        assert OccursAt(t, "Perl", 0);
        TableHead();
        assert Table[7] == Table[..10][7];
      }
    }
    assert Table[7].ext == "pl";
    GetFileExtensionSpec(t);
  }
}
