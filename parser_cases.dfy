/**
 * What `parse_filename` makes of a few concrete names: whole-word year matching, case-insensitive
 * series tags and the fallback to the raw filename.
 */
module ParserCases {
  import opened Text
  import opened Patterns
  import opened MediaParser

  /** `_` is a word character, so `2020` is not a whole word here and the current year is used. */
  lemma UnderscoreHidesYear()
    ensures ExtractYear("Movie_2020", "2026") == "2026"
  {
    var s := "Movie_2020";
    forall i | 0 <= i <= |s| ensures MatchLen(Year, s, i) == 0 {
      assert !AtBoundary(s, i) || YearLen(s, i) == 0;
    }
    assert NoMatch(Year, s);
  }

  /** The first whole-word year is taken, not the last one. */
  lemma FirstYearWins()
    ensures ExtractYear("Up 2021 1984", "2026") == "2021"
  {
    var s := "Up 2021 1984";
    assert s[3..5] == "20" && AtBoundary(s, 3) && AtBoundary(s, 7);
    assert MatchLen(Year, s, 3) == 4;
    assert !AtBoundary(s, 1) && YearLen(s, 0) == 0 && YearLen(s, 2) == 0;
    assert FirstMatchAt(Year, s, 3);
    assert s[3..7] == "2021";
  }

  /** Series tags are matched ignoring case. */
  lemma LowerCaseSeriesTag()
    ensures DetectMediaType("show.s01e02") == Series
  {
    var s := "show.s01e02";
    assert MatchLen(EpisodeTag, s, 5) == 6;
  }

  /** A name that is only a year leaves an empty title, and the filename stands in for it. */
  lemma EmptyTitleFallsBack()
    ensures ParseFilename("2009.mkv", "2026").title == "2009.mkv"
  {
    var name := "2009";
    var f := "2009.mkv";
    assert f[4] == '.' && f[..4] == name;
    assert |StripExtension(f)| == 4;
    assert MatchLen(Year, name, 0) == 4;
    assert RemoveAll(Year, name) == [];
    assert RemoveTags(name) == [];
  }

  /** Separators become the spaces between the title's words. */
  lemma SeparatorsSplitWords()
    ensures TidyTitle("The.Matrix") == "The Matrix"
  {
    SeparatorBecomesSpace();
    TwoWords();
    JoinTwoWords();
  }

  lemma SeparatorBecomesSpace()
    ensures ReplaceSeparators("The.Matrix") == "The Matrix"
  {
    var u := ReplaceSeparators("The.Matrix");
    assert forall k :: 0 <= k < 10 ==> u[k] == "The Matrix"[k];
  }

  lemma TwoWords()
    ensures Words("The Matrix") == ["The", "Matrix"]
  {
    WordsOfWord("The");
    WordsOfWord("Matrix");
    WordsOfSpace(" ");
    assert "The Matrix" == ("The" + " ") + "Matrix";
    WordsAppend("The" + " ", "Matrix");
    WordsAppend("The", " ");
  }

  lemma JoinTwoWords()
    ensures Join(["The", "Matrix"]) == "The Matrix"
  {
  }
}
