/**
 * `MediaParser.parse_filename`: metadata (title, year, quality, movie or series) read off a
 * media file's name.
 */
module MediaParser {
  import opened Text
  import opened Patterns

  datatype MediaType = Movie | Series {
    /** The text the catalog stores in its `type` column. */
    function Name(): (r: string)
      ensures r == "movie" || r == "series"
    {
      match this
      case Movie => "movie"
      case Series => "series"
    }
  }

  /** The record `parse_filename` returns. */
  datatype FileInfo = FileInfo(title: string, year: string, quality: string, mediaType: MediaType, originalFilename: string)

  // ---------------------------------------------------------------------------------------------
  // Extension

  /** The position of the last `.` in `s`, if any. */
  function LastDot(s: string): (k: Option<nat>)
    ensures k.None? ==> forall j :: 0 <= j < |s| ==> s[j] != '.'
    ensures k.Some? ==> k.value < |s| && s[k.value] == '.' && forall j :: k.value < j < |s| ==> s[j] != '.'
    decreases |s|
  {
    if s == [] then None
    else if s[|s| - 1] == '.' then Some(|s| - 1)
    else LastDot(s[..|s| - 1])
  }

  /**
   * `filename.rsplit('.', 1)[0]`: the name without its last extension. The result is a prefix of
   * the filename; it is the whole filename when there is no dot, and otherwise stops right before
   * the last dot.
   */
  function StripExtension(filename: string): (name: string)
    ensures |name| <= |filename| && name == filename[..|name|]
    ensures (forall j :: 0 <= j < |filename| ==> filename[j] != '.') ==> name == filename
    ensures (exists j :: 0 <= j < |filename| && filename[j] == '.') ==>
              |name| < |filename| && filename[|name|] == '.' && forall j :: |name| < j < |filename| ==> filename[j] != '.'
  {
    match LastDot(filename)
    case None => filename
    case Some(k) => filename[..k]
  }

  // ---------------------------------------------------------------------------------------------
  // Year, quality and type

  /** `year` is what the parser reports: the first whole-word 19xx/20xx, else the current year. */
  ghost predicate IsYearOf(name: string, currentYear: string, year: string) {
    && (NoMatch(Year, name) ==> year == currentYear)
    && (forall i :: FirstMatchAt(Year, name, i) ==> year == MatchedText(Year, name, i))
  }

  /**
   * `quality` is what the parser reports: the text of the first resolution tag; failing that, the
   * text of the first source tag; failing both, "Unknown".
   */
  ghost predicate IsQualityOf(name: string, quality: string) {
    && (NoMatch(Resolution, name) && NoMatch(Source, name) <==> quality == "Unknown")
    && (forall i :: FirstMatchAt(Resolution, name, i) ==> quality == MatchedText(Resolution, name, i))
    && (NoMatch(Resolution, name) ==> forall i :: FirstMatchAt(Source, name, i) ==> quality == MatchedText(Source, name, i))
  }

  /** A series is a name with an `SxxEyy` tag, a `Season n` or an `Episode n` somewhere in it. */
  ghost predicate IsMediaTypeOf(name: string, t: MediaType) {
    t == Series <==> !NoMatch(EpisodeTag, name) || !NoMatch(SeasonWord, name) || !NoMatch(EpisodeWord, name)
  }

  /** `year_match.group(0) if year_match else str(datetime.now().year)`; the clock is the parameter. */
  function ExtractYear(name: string, currentYear: string): (year: string)
    ensures IsYearOf(name, currentYear, year)
  {
    match Search(Year, name)
    case Some(h) => name[h.start..h.start + h.len]
    case None => currentYear
  }

  lemma {:induction false} AlternativeTextLength(s: string, i: nat, alts: seq<string>, bound: nat)
    requires forall k :: 0 <= k < |alts| ==> |alts[k]| <= bound
    ensures AlternativeLen(s, i, alts) <= bound
    decreases |alts|
  {
    if alts != [] {
      assert forall k :: 0 <= k < |alts[1..]| ==> alts[1..][k] == alts[k + 1];
      AlternativeTextLength(s, i, alts[1..], bound);
    }
  }

  /** No hit of a quality pattern spells "Unknown": every tag is shorter. */
  lemma {:induction false} QualityTextIsNotUnknown(p: Pattern, s: string, i: nat)
    requires p == Resolution || p == Source
    requires i <= |s|
    ensures MatchedText(p, s, i) != "Unknown"
  {
    if AtBoundary(s, i) {
      if p == Resolution {
        AlternativeTextLength(s, i, ResolutionTags, 6);
      } else {
        AlternativeTextLength(s, i, SourceTags, 6);
      }
    }
  }

  /** The loop over the two quality patterns: the first pattern with any hit decides. */
  function ExtractQuality(name: string): (quality: string)
    ensures IsQualityOf(name, quality)
  {
    match Search(Resolution, name)
    case Some(h) =>
      QualityFromHit(Resolution, name, h);
      name[h.start..h.start + h.len]
    case None =>
      match Search(Source, name)
      case Some(h) =>
        QualityFromHit(Source, name, h);
        name[h.start..h.start + h.len]
      case None => "Unknown"
  }

  /** The text of a quality hit found by `Search` is the leftmost hit's text, and is not "Unknown". */
  lemma {:induction false} QualityFromHit(p: Pattern, name: string, h: Hit)
    requires p == Resolution || p == Source
    requires Search(p, name) == Some(h)
    ensures h.start + h.len <= |name|
    ensures !NoMatch(p, name)
    ensures forall i :: FirstMatchAt(p, name, i) ==> name[h.start..h.start + h.len] == MatchedText(p, name, i)
    ensures name[h.start..h.start + h.len] != "Unknown"
  {
    assert FirstMatchAt(p, name, h.start);
    QualityTextIsNotUnknown(p, name, h.start);
  }

  /** `any(re.search(p, name, re.IGNORECASE) for p in series_patterns)`. */
  function DetectMediaType(name: string): (t: MediaType)
    ensures IsMediaTypeOf(name, t)
  {
    if Search(EpisodeTag, name).Some? || Search(SeasonWord, name).Some? || Search(EpisodeWord, name).Some?
    then Series else Movie
  }

  // ---------------------------------------------------------------------------------------------
  // Title

  predicate IsSeparator(c: char) { c == '.' || c == '_' || c == '-' }

  predicate NoSeparators(s: string) { forall k :: 0 <= k < |s| ==> !IsSeparator(s[k]) }

  predicate AllSpace(s: string) { forall k :: 0 <= k < |s| ==> IsSpace(s[k]) }

  /** Every whitespace character is a plain space and no two of them are adjacent. */
  predicate SingleSpaced(s: string) {
    && (forall k :: 0 <= k < |s| && IsSpace(s[k]) ==> s[k] == ' ')
    && (forall k :: 0 < k < |s| && IsSpace(s[k]) ==> !IsSpace(s[k - 1]))
  }

  /** What a cleaned title looks like. */
  predicate IsCleanTitle(t: string) {
    && NoSeparators(t)
    && SingleSpaced(t)
    && (t != [] ==> !IsSpace(t[0]) && !IsSpace(t[|t| - 1]))
  }

  /** The characters of `s` that are not whitespace, in order. */
  function NonSpace(s: string): string
    decreases |s|
  {
    if s == [] then [] else (if IsSpace(s[0]) then [] else [s[0]]) + NonSpace(s[1..])
  }

  lemma {:induction false} NonSpaceAppend(a: string, b: string)
    ensures NonSpace(a + b) == NonSpace(a) + NonSpace(b)
    decreases |a|
  {
    if a == [] {
      assert a + b == b;
    } else {
      var head := if IsSpace(a[0]) then [] else [a[0]];
      calc {
        NonSpace(a + b);
        == { AppendSlices(a, b, 1); NonSpaceAtHead(a + b); }
        head + NonSpace(a[1..] + b);
        == { NonSpaceAppend(a[1..], b); }
        head + (NonSpace(a[1..]) + NonSpace(b));
        == { NonSpaceAtHead(a); }
        NonSpace(a) + NonSpace(b);
      }
    }
  }

  lemma NonSpaceAtHead(s: string)
    requires s != []
    ensures NonSpace(s) == (if IsSpace(s[0]) then [] else [s[0]]) + NonSpace(s[1..])
  {
  }

  lemma {:induction false} NonSpaceOfSpace(s: string)
    requires AllSpace(s)
    ensures NonSpace(s) == []
    decreases |s|
  {
    if s != [] {
      NonSpaceOfSpace(s[1..]);
    }
  }

  /** Cutting whitespace off either end of `s` keeps its non-blank characters. */
  lemma {:induction false} NonSpaceOfTrimmed(s: string, a: nat, b: nat)
    requires a <= b <= |s| && AllSpace(s[..a]) && AllSpace(s[b..])
    ensures NonSpace(s[a..b]) == NonSpace(s)
  {
    var x, y, z := s[..a], s[a..b], s[b..];
    ThreeParts(s, a, b);
    NonSpaceAppend(x, y + z);
    NonSpaceAppend(y, z);
    NonSpaceOfSpace(x);
    NonSpaceOfSpace(z);
  }

  lemma {:induction false} ThreeParts(s: string, a: nat, b: nat)
    requires a <= b <= |s|
    ensures s == s[..a] + (s[a..b] + s[b..])
  {
  }

  lemma {:induction false} NonSpaceCons(c: char, t: string)
    ensures NonSpace([c] + t) == (if IsSpace(c) then [] else [c]) + NonSpace(t)
  {
    assert ([c] + t)[0] == c && ([c] + t)[1..] == t;
  }

  lemma {:induction false} NoSeparatorsCons(c: char, t: string)
    ensures NoSeparators([c] + t) <==> !IsSeparator(c) && NoSeparators(t)
  {
    var r := [c] + t;
    assert r[0] == c;
    assert forall k :: 0 <= k < |t| ==> t[k] == r[k + 1];
    if !IsSeparator(c) && NoSeparators(t) {
      forall k | 0 <= k < |r| ensures !IsSeparator(r[k]) {
        if k > 0 {
          assert r[k] == t[k - 1];
        }
      }
    }
  }

  lemma {:induction false} SingleSpacedCons(c: char, t: string)
    requires SingleSpaced(t)
    requires IsSpace(c) ==> c == ' ' && (t != [] ==> !IsSpace(t[0]))
    ensures SingleSpaced([c] + t)
  {
    var r := [c] + t;
    assert r[0] == c;
    assert forall k :: 0 < k < |r| ==> r[k] == t[k - 1];
  }

  /** A slice of a single-spaced, separator-free text is single-spaced and separator-free. */
  lemma {:induction false} SliceKeepsShape(s: string, a: nat, b: nat)
    requires a <= b <= |s|
    ensures NoSeparators(s) ==> NoSeparators(s[a..b])
    ensures SingleSpaced(s) ==> SingleSpaced(s[a..b])
  {
    var t := s[a..b];
    assert forall k :: 0 <= k < |t| ==> t[k] == s[a + k];
  }

  /** The length of the run of non-blank characters at the front of `s`. */
  function WordLen(s: string): (n: nat)
    ensures n <= |s|
    ensures s != [] && !IsSpace(s[0]) ==> n > 0
    decreases |s|
  {
    if s == [] || IsSpace(s[0]) then 0 else 1 + WordLen(s[1..])
  }

  lemma {:induction false} WordLenBounds(s: string)
    ensures forall k :: 0 <= k < WordLen(s) ==> !IsSpace(s[k])
    ensures WordLen(s) < |s| ==> IsSpace(s[WordLen(s)])
    decreases |s|
  {
    if s != [] && !IsSpace(s[0]) {
      WordLenBounds(s[1..]);
      forall k | 0 < k < WordLen(s) ensures !IsSpace(s[k]) {
        assert s[k] == s[1..][k - 1];
      }
    }
  }

  /** The words of `s`: its maximal runs of non-blank characters, in order. */
  function Words(s: string): seq<string>
    decreases |s|
  {
    if s == [] then []
    else if IsSpace(s[0]) then Words(s[1..])
    else [s[..WordLen(s)]] + Words(s[WordLen(s)..])
  }

  /** `' '.join(words)`. */
  function Join(words: seq<string>): string
    decreases |words|
  {
    if words == [] then [] else if |words| == 1 then words[0] else words[0] + " " + Join(words[1..])
  }

  /** A word that runs to the end of `y` ends on a non-blank character. */
  lemma {:induction false} WordEndsBlank(y: string)
    requires y != [] && !IsSpace(y[0])
    ensures WordLen(y) < |y| || !IsSpace(y[|y| - 1])
    ensures y[WordLen(y)..] == [] || y[WordLen(y)..][|y[WordLen(y)..]| - 1] == y[|y| - 1]
  {
    WordLenBounds(y);
  }

  /** A word of `y` that runs to the end of `y` is not lengthened by a `z` that starts blank. */
  lemma {:induction false} WordLenAppend(y: string, z: string)
    requires z == [] || IsSpace(z[0]) || WordLen(y) < |y|
    ensures WordLen(y + z) == WordLen(y)
    decreases |y|
  {
    if y == [] {
      assert y + z == z;
    } else {
      assert (y + z)[0] == y[0];
      if !IsSpace(y[0]) {
        assert (y + z)[1..] == y[1..] + z;
        WordLenAppend(y[1..], z);
      }
    }
  }

  /** Two texts with whitespace where they meet have, together, the words of both. */
  lemma {:induction false} WordsAppend(y: string, z: string)
    requires y == [] || z == [] || IsSpace(y[|y| - 1]) || IsSpace(z[0])
    ensures Words(y + z) == Words(y) + Words(z)
    decreases |y|
  {
    if y == [] {
      assert y + z == z;
    } else {
      AppendSlices(y, z, 1);
      if IsSpace(y[0]) {
        WordsAppend(y[1..], z);
        WordsAtSpace(y);
        WordsAtSpace(y + z);
      } else {
        var m := WordLen(y);
        WordEndsBlank(y);
        WordLenAppend(y, z);
        AppendSlices(y, z, m);
        WordsAppend(y[m..], z);
        WordsAtWord(y);
        WordsAtWord(y + z);
        ConsAppend(y[..m], Words(y[m..]), Words(z));
      }
    }
  }

  lemma ConsAppend(w: string, a: seq<string>, b: seq<string>)
    ensures [w] + (a + b) == [w] + a + b
  {
  }

  lemma WordsAtSpace(s: string)
    requires s != [] && IsSpace(s[0])
    ensures Words(s) == Words(s[1..])
  {
  }

  lemma WordsAtWord(s: string)
    requires s != [] && !IsSpace(s[0])
    ensures Words(s) == [s[..WordLen(s)]] + Words(s[WordLen(s)..])
  {
  }

  lemma AppendSlices(y: string, z: string, m: nat)
    requires 0 < m <= |y|
    ensures (y + z)[0] == y[0] && (y + z)[..m] == y[..m] && (y + z)[m..] == y[m..] + z
  {
  }

  lemma {:induction false} WordsOfSpace(s: string)
    requires AllSpace(s)
    ensures Words(s) == []
    decreases |s|
  {
    if s != [] {
      WordsOfSpace(s[1..]);
    }
  }

  /** Cutting whitespace off either end of `s` keeps its words. */
  lemma {:induction false} WordsOfTrimmed(s: string, a: nat, b: nat)
    requires a <= b <= |s| && AllSpace(s[..a]) && AllSpace(s[b..])
    ensures Words(s[a..b]) == Words(s)
  {
    var x, y, z := s[..a], s[a..b], s[b..];
    ThreeParts(s, a, b);
    WordsAppend(x, y + z);
    WordsAppend(y, z);
    WordsOfSpace(x);
    WordsOfSpace(z);
  }

  /** A text that is one run of non-blank characters is one word. */
  lemma {:induction false} WordsOfWord(w: string)
    requires w != [] && forall k :: 0 <= k < |w| ==> !IsSpace(w[k])
    ensures Words(w) == [w]
  {
    WordLenBounds(w);
    assert w[..WordLen(w)] == w;
    assert w[WordLen(w)..] == [];
  }

  /**
   * A single-spaced text that neither starts nor ends on whitespace is its words joined by single
   * spaces.
   */
  lemma {:induction false} SpacedTextIsJoin(c: string)
    requires SingleSpaced(c)
    requires c != [] ==> !IsSpace(c[0]) && !IsSpace(c[|c| - 1])
    ensures Join(Words(c)) == c
    decreases |c|
  {
    if c != [] {
      var m := WordLen(c);
      WordLenBounds(c);
      if m == |c| {
        assert c[..m] == c && c[m..] == [];
      } else {
        var rest := c[m + 1..];
        assert c[m] == ' ' && m + 1 < |c| && !IsSpace(c[m + 1]);
        SliceKeepsShape(c, m + 1, |c|);
        assert c[m + 1..|c|] == rest;
        SpacedTextIsJoin(rest);
        WordsSplitAtSpace(c, m);
        JoinCons(c[..m], Words(rest));
        SplitAtSpace(c, m);
      }
    }
  }

  lemma {:induction false} SplitAtSpace(c: string, m: nat)
    requires m < |c| && c[m] == ' '
    ensures c == c[..m] + " " + c[m + 1..]
  {
  }

  /** A word followed by one space and a non-blank character: the word, then the words after. */
  lemma {:induction false} WordsSplitAtSpace(c: string, m: nat)
    requires 0 < m && m + 1 < |c| && m == WordLen(c) && !IsSpace(c[0])
    requires IsSpace(c[m]) && !IsSpace(c[m + 1])
    ensures Words(c) == [c[..m]] + Words(c[m + 1..]) && Words(c[m + 1..]) != []
  {
    assert c[m..][0] == c[m] && c[m..][1..] == c[m + 1..];
    assert c[m + 1..][0] == c[m + 1];
  }

  lemma {:induction false} JoinCons(w: string, ws: seq<string>)
    requires ws != []
    ensures Join([w] + ws) == w + " " + Join(ws)
  {
    assert ([w] + ws)[1..] == ws;
  }


  /**
   * The five tag patterns of the title cleanup, removed one after the other. Removal only
   * shortens the name, and a name with none of the tags comes through unchanged.
   */
  function RemoveTags(name: string): (r: string)
    ensures |r| <= |name|
  {
    var t := RemoveAll(Year, name);
    var t := RemoveAll(Resolution, t);
    var t := RemoveAll(Source, t);
    var t := RemoveAll(Codec, t);
    RemoveAll(EpisodeTag, t)
  }

  /** A name none of the five patterns hits comes through the tag removal unchanged. */
  lemma {:induction false} RemoveTagsWithoutTags(name: string)
    requires NoMatch(Year, name) && NoMatch(Resolution, name) && NoMatch(Source, name)
    requires NoMatch(Codec, name) && NoMatch(EpisodeTag, name)
    ensures RemoveTags(name) == name
  {
    RemoveAllWithoutMatch(Year, name);
    RemoveAllWithoutMatch(Resolution, name);
    RemoveAllWithoutMatch(Source, name);
    RemoveAllWithoutMatch(Codec, name);
    RemoveAllWithoutMatch(EpisodeTag, name);
  }

  /** `re.sub(r'[._-]', ' ', s)`: each separator becomes a space and nothing else changes. */
  function ReplaceSeparators(s: string): (r: string)
    ensures |r| == |s| && NoSeparators(r)
    ensures forall k :: 0 <= k < |s| ==> r[k] == s[k] || (IsSeparator(s[k]) && r[k] == ' ')
  {
    seq(|s|, k requires 0 <= k < |s| => if IsSeparator(s[k]) then ' ' else s[k])
  }

  /** Drops the whitespace at the front: the left half of `str.strip()`. */
  function DropLeadingSpace(s: string): (r: string)
    ensures |r| <= |s| && r == s[|s| - |r|..] && AllSpace(s[..|s| - |r|])
    ensures r != [] ==> !IsSpace(r[0])
    decreases |s|
  {
    if s != [] && IsSpace(s[0]) then
      var r := DropLeadingSpace(s[1..]);
      SpaceBeforeSuffix(s, r);
      r
    else s
  }

  lemma SpaceBeforeSuffix(s: string, r: string)
    requires s != [] && IsSpace(s[0])
    requires |r| <= |s| - 1 && r == s[1..][|s| - 1 - |r|..] && AllSpace(s[1..][..|s| - 1 - |r|])
    ensures r == s[|s| - |r|..] && AllSpace(s[..|s| - |r|])
  {
    assert s[..|s| - |r|] == [s[0]] + s[1..][..|s| - 1 - |r|];
  }

  /** Drops the whitespace at the back: the right half of `str.strip()`. */
  function DropTrailingSpace(s: string): (r: string)
    ensures |r| <= |s| && r == s[..|r|] && AllSpace(s[|r|..])
    ensures r != [] ==> !IsSpace(r[|r| - 1])
    decreases |s|
  {
    if s != [] && IsSpace(s[|s| - 1]) then
      var r := DropTrailingSpace(s[..|s| - 1]);
      SpaceAfterPrefix(s, r);
      r
    else s
  }

  lemma SpaceAfterPrefix(s: string, r: string)
    requires s != [] && IsSpace(s[|s| - 1])
    requires |r| <= |s| - 1 && r == s[..|s| - 1][..|r|] && AllSpace(s[..|s| - 1][|r|..])
    ensures r == s[..|r|] && AllSpace(s[|r|..])
  {
    assert s[|r|..] == s[..|s| - 1][|r|..] + [s[|s| - 1]];
  }

  /** Dropping leading whitespace keeps the non-blank characters and the shape of the text. */
  lemma {:induction false} DropLeadingSpaceKeeps(s: string)
    ensures NonSpace(DropLeadingSpace(s)) == NonSpace(s)
    ensures NoSeparators(s) ==> NoSeparators(DropLeadingSpace(s))
    ensures SingleSpaced(s) ==> SingleSpaced(DropLeadingSpace(s))
  {
    var r := DropLeadingSpace(s);
    var a := |s| - |r|;
    assert s[a..|s|] == r;
    assert s[|s|..] == [];
    NonSpaceOfTrimmed(s, a, |s|);
    SliceKeepsShape(s, a, |s|);
  }

  lemma {:induction false} DropLeadingSpaceKeepsWords(s: string)
    ensures Words(DropLeadingSpace(s)) == Words(s)
  {
    WordsOfSuffix(s, DropLeadingSpace(s));
  }

  lemma {:induction false} DropTrailingSpaceKeepsWords(s: string)
    ensures Words(DropTrailingSpace(s)) == Words(s)
  {
    WordsOfPrefix(s, DropTrailingSpace(s));
  }

  /** A suffix of `s` with only whitespace before it has the words of `s`. */
  lemma {:induction false} WordsOfSuffix(s: string, t: string)
    requires |t| <= |s| && t == s[|s| - |t|..] && AllSpace(s[..|s| - |t|])
    ensures Words(t) == Words(s)
  {
    var a := |s| - |t|;
    assert s[a..|s|] == t && s[|s|..] == [];
    WordsOfTrimmed(s, a, |s|);
  }

  /** A prefix of `s` with only whitespace after it has the words of `s`. */
  lemma {:induction false} WordsOfPrefix(s: string, t: string)
    requires |t| <= |s| && t == s[..|t|] && AllSpace(s[|t|..])
    ensures Words(t) == Words(s)
  {
    assert s[0..|t|] == t && s[..0] == [];
    WordsOfTrimmed(s, 0, |t|);
  }

  /** Dropping trailing whitespace keeps the non-blank characters and the shape of the text. */
  lemma {:induction false} DropTrailingSpaceKeeps(s: string)
    ensures NonSpace(DropTrailingSpace(s)) == NonSpace(s)
    ensures NoSeparators(s) ==> NoSeparators(DropTrailingSpace(s))
    ensures SingleSpaced(s) ==> SingleSpaced(DropTrailingSpace(s))
  {
    var r := DropTrailingSpace(s);
    var b := |r|;
    assert s[0..b] == r;
    assert s[..0] == [];
    NonSpaceOfTrimmed(s, 0, b);
    SliceKeepsShape(s, 0, b);
  }

  /**
   * `str.strip()`: whitespace cut off the front, then off the back. The result neither starts nor
   * ends on whitespace; `StripIsSlice` says where it sits in `s`.
   */
  function Strip(s: string): (r: string)
    ensures r != [] ==> !IsSpace(r[0]) && !IsSpace(r[|r| - 1])
  {
    var t := DropLeadingSpace(s);
    var r := DropTrailingSpace(t);
    assert r != [] ==> r[0] == t[0];
    r
  }

  /** How many whitespace characters `str.strip()` cuts off the front. */
  function LeadingSpace(s: string): (n: nat)
    ensures n <= |s|
  {
    |s| - |DropLeadingSpace(s)|
  }

  /** `str.strip()` returns a slice of `s` with only whitespace outside it. */
  lemma {:induction false} StripIsSlice(s: string)
    ensures var a := LeadingSpace(s); var r := Strip(s);
      a + |r| <= |s| && r == s[a..a + |r|] && AllSpace(s[..a]) && AllSpace(s[a + |r|..])
  {
    var t := DropLeadingSpace(s);
    TrimmedTwice(s, LeadingSpace(s), t, Strip(s));
  }

  /** A prefix of a suffix of `s`, each cut off whitespace, is a slice with whitespace around it. */
  lemma {:induction false} TrimmedTwice(s: string, a: nat, t: string, r: string)
    requires a <= |s| && t == s[a..] && AllSpace(s[..a])
    requires |r| <= |t| && r == t[..|r|] && AllSpace(t[|r|..])
    ensures a + |r| <= |s| && r == s[a..a + |r|] && AllSpace(s[..a]) && AllSpace(s[a + |r|..])
  {
    assert s[a + |r|..] == t[|r|..];
  }

  /** Stripping keeps the words. */
  lemma {:induction false} StripKeepsWords(s: string)
    ensures Words(Strip(s)) == Words(s)
  {
    DropLeadingSpaceKeepsWords(s);
    DropTrailingSpaceKeepsWords(DropLeadingSpace(s));
  }

  /** Stripping keeps the non-blank characters, and keeps a text single-spaced and separator-free. */
  lemma {:induction false} StripKeeps(s: string)
    ensures NonSpace(Strip(s)) == NonSpace(s)
    ensures NoSeparators(s) ==> NoSeparators(Strip(s))
    ensures SingleSpaced(s) ==> SingleSpaced(Strip(s))
  {
    DropLeadingSpaceKeeps(s);
    DropTrailingSpaceKeeps(DropLeadingSpace(s));
  }

  /**
   * `re.sub(r'\s+', ' ', s)`: each maximal run of whitespace becomes one space. The result starts
   * as `s` does, with a single space where `s` starts on whitespace; `CollapseSpaceLast` says the
   * same of its end.
   */
  function CollapseSpace(s: string): (r: string)
    ensures s != [] ==> r != [] && (if IsSpace(s[0]) then r[0] == ' ' else r[0] == s[0])
    decreases |s|
  {
    if s == [] then []
    else if IsSpace(s[0]) then
      var c := CollapseSpace(DropLeadingSpace(s[1..]));
      ConsEnds(' ', c);
      [' '] + c
    else
      var c := CollapseSpace(s[1..]);
      ConsEnds(s[0], c);
      [s[0]] + c
  }

  /** The collapsed text ends as `s` does: on `s`'s last character, or on one space. */
  lemma {:induction false} CollapseSpaceLast(s: string)
    requires s != []
    ensures var r := CollapseSpace(s);
      if IsSpace(s[|s| - 1]) then r[|r| - 1] == ' ' else r[|r| - 1] == s[|s| - 1]
    decreases |s|
  {
    if IsSpace(s[0]) {
      var t := DropLeadingSpace(s[1..]);
      LastOfSuffix(s, t);
      CollapseAtSpace(s);
      ConsEnds(' ', CollapseSpace(t));
      if t != [] {
        CollapseSpaceLast(t);
      }
    } else if |s| > 1 {
      assert s[1..][|s| - 2] == s[|s| - 1];
      CollapseAtWord(s);
      ConsEnds(s[0], CollapseSpace(s[1..]));
      CollapseSpaceLast(s[1..]);
    }
  }

  /** What whitespace is cut off the front of `s[1..]` leaves `s`'s last character, or nothing. */
  lemma LastOfSuffix(s: string, t: string)
    requires s != [] && IsSpace(s[0])
    requires |t| <= |s| - 1 && t == s[1..][|s| - 1 - |t|..] && AllSpace(s[1..][..|s| - 1 - |t|])
    ensures t != [] ==> t[|t| - 1] == s[|s| - 1]
    ensures t == [] ==> IsSpace(s[|s| - 1])
  {
    if t == [] && |s| > 1 {
      assert s[1..][..|s| - 1][|s| - 2] == s[|s| - 1];
    }
  }

  lemma ConsEnds(x: char, c: string)
    ensures ([x] + c)[0] == x && (c != [] ==> ([x] + c)[|c|] == c[|c| - 1])
  {
  }

  /** Collapsing a text that opens with a word moves that word to the front unchanged. */
  lemma {:induction false} CollapseAfterWord(w: string, r: string)
    requires forall k :: 0 <= k < |w| ==> !IsSpace(w[k])
    ensures CollapseSpace(w + r) == w + CollapseSpace(r)
    decreases |w|
  {
    if w == [] {
      assert w + r == r;
    } else {
      HeadTail(w, r, CollapseSpace(r));
      assert !IsSpace(w[0]);
      assert CollapseSpace(w + r) == [w[0]] + CollapseSpace(w[1..] + r);
      CollapseAfterWord(w[1..], r);
    }
  }

  lemma HeadTail(w: string, r: string, x: string)
    requires w != []
    ensures (w + r)[0] == w[0] && (w + r)[1..] == w[1..] + r && [w[0]] + (w[1..] + x) == w + x
  {
  }

  /** Collapsing keeps the words: only the whitespace between them changes. */
  lemma {:induction false} CollapseSpaceKeepsWords(s: string)
    ensures Words(CollapseSpace(s)) == Words(s)
    decreases |s|
  {
    if s != [] {
      if IsSpace(s[0]) {
        var u := s[1..];
        var t := DropLeadingSpace(u);
        calc {
          Words(CollapseSpace(s));
          == { CollapseAtSpace(s); }
          Words([' '] + CollapseSpace(t));
          == { WordsAfterSpace(CollapseSpace(t)); }
          Words(CollapseSpace(t));
          == { CollapseSpaceKeepsWords(t); }
          Words(t);
          == { WordsOfSuffix(u, t); }
          Words(u);
          == { WordsAtSpace(s); }
          Words(s);
        }
      } else {
        var m := WordLen(s);
        var w, rest := s[..m], s[m..];
        WordLenBounds(s);
        calc {
          Words(CollapseSpace(s));
          == { SplitAt(s, m); CollapseAfterWord(w, rest); }
          Words(w + CollapseSpace(rest));
          == { WordsAppend(w, CollapseSpace(rest)); }
          Words(w) + Words(CollapseSpace(rest));
          == { WordsOfWord(w); CollapseSpaceKeepsWords(rest); }
          [w] + Words(rest);
          == { WordsAtWord(s); }
          Words(s);
        }
      }
    }
  }

  lemma CollapseAtSpace(s: string)
    requires s != [] && IsSpace(s[0])
    ensures CollapseSpace(s) == [' '] + CollapseSpace(DropLeadingSpace(s[1..]))
  {
  }

  lemma CollapseAtWord(s: string)
    requires s != [] && !IsSpace(s[0])
    ensures CollapseSpace(s) == [s[0]] + CollapseSpace(s[1..])
  {
  }

  lemma SplitAt(s: string, m: nat)
    requires m <= |s|
    ensures s == s[..m] + s[m..]
  {
  }

  lemma {:induction false} WordsAfterSpace(c: string)
    ensures Words([' '] + c) == Words(c)
  {
    assert ([' '] + c)[0] == ' ' && ([' '] + c)[1..] == c;
  }

  /** Collapsing leaves the non-blank characters as they were. */
  lemma {:induction false} CollapseSpaceKeepsText(s: string)
    ensures NonSpace(CollapseSpace(s)) == NonSpace(s)
    decreases |s|
  {
    if s != [] {
      assert s == [s[0]] + s[1..];
      NonSpaceCons(s[0], s[1..]);
      if IsSpace(s[0]) {
        var t := DropLeadingSpace(s[1..]);
        CollapseSpaceKeepsText(t);
        NonSpaceCons(' ', CollapseSpace(t));
        DropLeadingSpaceKeeps(s[1..]);
      } else {
        CollapseSpaceKeepsText(s[1..]);
        NonSpaceCons(s[0], CollapseSpace(s[1..]));
      }
    }
  }

  /** Collapsing adds no separator. */
  lemma {:induction false} CollapseSpaceKeepsNoSeparators(s: string)
    requires NoSeparators(s)
    ensures NoSeparators(CollapseSpace(s))
    decreases |s|
  {
    if s != [] {
      assert s == [s[0]] + s[1..];
      NoSeparatorsCons(s[0], s[1..]);
      if IsSpace(s[0]) {
        var t := DropLeadingSpace(s[1..]);
        DropLeadingSpaceKeeps(s[1..]);
        CollapseSpaceKeepsNoSeparators(t);
        NoSeparatorsCons(' ', CollapseSpace(t));
      } else {
        CollapseSpaceKeepsNoSeparators(s[1..]);
        NoSeparatorsCons(s[0], CollapseSpace(s[1..]));
      }
    }
  }

  /** Collapsing leaves a single-spaced text. */
  lemma {:induction false} CollapseSpaceIsSingleSpaced(s: string)
    ensures SingleSpaced(CollapseSpace(s))
    decreases |s|
  {
    if s != [] {
      if IsSpace(s[0]) {
        var t := DropLeadingSpace(s[1..]);
        CollapseSpaceIsSingleSpaced(t);
        SingleSpacedCons(' ', CollapseSpace(t));
      } else {
        CollapseSpaceIsSingleSpaced(s[1..]);
        SingleSpacedCons(s[0], CollapseSpace(s[1..]));
      }
    }
  }

  /** Collapsing and stripping a separator-free text gives a clean title with the same non-blank characters. */
  lemma {:induction false} CollapseAndStripIsClean(u: string)
    requires NoSeparators(u)
    ensures IsCleanTitle(Strip(CollapseSpace(u)))
    ensures NonSpace(Strip(CollapseSpace(u))) == NonSpace(u)
  {
    var c := CollapseSpace(u);
    CollapseSpaceKeepsText(u);
    CollapseSpaceKeepsNoSeparators(u);
    CollapseSpaceIsSingleSpaced(u);
    StripKeeps(c);
  }

  /** Collapsing and stripping any text leaves exactly its words, joined by single spaces. */
  lemma {:induction false} CollapseAndStripIsJoin(u: string)
    ensures Words(Strip(CollapseSpace(u))) == Words(u)
    ensures Strip(CollapseSpace(u)) == Join(Words(u))
  {
    var c := CollapseSpace(u);
    var r := Strip(c);
    CollapseSpaceIsSingleSpaced(u);
    StripKeepsSingleSpaced(c);
    calc {
      Words(r);
      == { StripKeepsWords(c); }
      Words(c);
      == { CollapseSpaceKeepsWords(u); }
      Words(u);
    }
    SpacedTextIsJoin(r);
  }

  lemma {:induction false} StripKeepsSingleSpaced(s: string)
    requires SingleSpaced(s)
    ensures SingleSpaced(Strip(s))
  {
    StripKeeps(s);
  }

  /**
   * Separators blanked, whitespace collapsed and stripped: the words of `t`, split at whitespace
   * and separators, joined by single spaces, which makes a clean title.
   */
  function TidyTitle(t: string): (title: string)
    ensures IsCleanTitle(title)
    ensures NonSpace(title) == NonSpace(ReplaceSeparators(t))
    ensures Words(title) == Words(ReplaceSeparators(t))
    ensures title == Join(Words(ReplaceSeparators(t)))
  {
    var u := ReplaceSeparators(t);
    CollapseAndStripIsClean(u);
    CollapseAndStripIsJoin(u);
    Strip(CollapseSpace(u))
  }

  /**
   * The title cleanup: the tags removed, separators turned into spaces, whitespace collapsed and
   * stripped. The title is the words left once the tags are gone, joined by single spaces.
   */
  function CleanTitle(name: string): (title: string)
    ensures IsCleanTitle(title)
    ensures Words(title) == Words(ReplaceSeparators(RemoveTags(name)))
    ensures title == Join(Words(ReplaceSeparators(RemoveTags(name))))
  {
    TidyTitle(RemoveTags(name))
  }

  /** `MediaParser.parse_filename`, with the current year as a parameter. */
  function ParseFilename(filename: string, currentYear: string): (info: FileInfo)
    ensures info.originalFilename == filename
    ensures IsYearOf(StripExtension(filename), currentYear, info.year)
    ensures IsQualityOf(StripExtension(filename), info.quality)
    ensures IsMediaTypeOf(StripExtension(filename), info.mediaType)
    ensures info.title == "" <==> filename == ""
    ensures info.title == filename || IsCleanTitle(info.title)
    ensures CleanTitle(StripExtension(filename)) != "" ==> info.title == CleanTitle(StripExtension(filename))
    ensures CleanTitle(StripExtension(filename)) == "" ==> info.title == filename
  {
    var name := StripExtension(filename);
    var title := CleanTitle(name);
    FileInfo(
      title := if title != "" then title else filename,
      year := ExtractYear(name, currentYear),
      quality := ExtractQuality(name),
      mediaType := DetectMediaType(name),
      originalFilename := filename)
  }
}
